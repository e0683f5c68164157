/** Respond mode of the replay tool: each recorded request is paired with the next response that
    carries the same PID, looking at most fifteen records ahead. */
module Replay {
  import opened CanLog
  import opened Contract
  import opened J1979
  import opened J1979Client
  import opened Options

  predicate IsObdRequest(id: nat) { id == 0x7DF || 0x7E0 <= id <= 0x7E7 }
  predicate IsObdResponse(id: nat) { 0x7E8 <= id <= 0x7EF }

  predicate Replies(r: Rec, pid: byte) { IsObdResponse(r.id) && |r.data| >= 3 && r.data[2] == pid }

  /** The first response for `pid` among the records from `j` up to `stop`. */
  function Search(recs: seq<Rec>, pid: byte, j: nat, stop: nat): (r: Option<nat>)
    requires stop <= |recs|
    ensures r.Some? ==> j <= r.value < stop && Replies(recs[r.value], pid)
    ensures r.Some? ==> forall m :: j <= m < r.value ==> !Replies(recs[m], pid)
    ensures r.None? ==> forall m :: j <= m < stop ==> !Replies(recs[m], pid)
    decreases stop - j
  {
    if j >= stop then None else if Replies(recs[j], pid) then Some(j) else Search(recs, pid, j + 1, stop)
  }

  /** The addresses of ISO 15765-4: a request reaches one of eight ECUs, by its own identifier or by that for all of
      them; an ECU responds eight identifiers above its own. */
  predicate RequestTo(id: nat, ecu: nat) { ecu < 8 && (id == 0x7DF || id == 0x7E0 + ecu) }
  predicate ResponseOf(id: nat, ecu: nat) { ecu < 8 && id == 0x7E0 + ecu + 8 }

  ghost predicate Asks(r: Rec, pid: byte) {
    |r.data| >= 3 && r.data[2] == pid && exists ecu :: RequestTo(r.id, ecu)
  }

  ghost predicate Responds(r: Rec, pid: byte) {
    |r.data| >= 3 && r.data[2] == pid && exists ecu :: ResponseOf(r.id, ecu)
  }

  /** The tool's tests of an identifier agree with the addresses. */
  lemma TestsAgree(r: Rec, pid: byte)
    ensures IsObdRequest(r.id) && |r.data| >= 3 && r.data[2] == pid <==> Asks(r, pid)
    ensures Replies(r, pid) <==> Responds(r, pid)
  {
    if IsObdRequest(r.id) {
      assert RequestTo(r.id, if r.id == 0x7DF then 0 else r.id - 0x7E0);
    }
    if IsObdResponse(r.id) {
      assert ResponseOf(r.id, r.id - 0x7E8);
    }
  }

  /** What the polling client puts on the bus and what it takes for an answer are, once recorded, a request and a
      response for the same PID. */
  lemma ClientTrafficPairs(broadcastId: int, primary: nat, pid: byte, f: CanFrame, t: real, u: real)
    requires f.dlc <= 8 && Answers(broadcastId, primary, pid, f)
    ensures Asks(Recorded(RequestFrame(pid), t), pid) && Responds(Recorded(f, u), pid)
  {
    AnswersExactlyWhen(broadcastId, primary, pid, f);
    var payload: seq<byte> :| IsSingleFrame(f.data, f.dlc, Response(0x41, pid, payload));
    assert f.data[..3 + |payload|][2] == pid;
    assert RequestTo(RequestFrame(pid).id, 0) && ResponseOf(f.id, f.id - 0x7E8);
  }

  function Recorded(f: CanFrame, t: real): Rec
    requires f.dlc <= 8
  {
    Rec(t, f.id, f.data[..f.dlc])
  }

  /** Record i asks for `pid`, and record j is the first response to it within fifteen records. */
  ghost predicate Pairs(recs: seq<Rec>, pid: byte, i: nat, j: nat) {
    && i < j < |recs| && j < i + 16 && Asks(recs[i], pid) && Responds(recs[j], pid)
    && forall m :: i < m < j ==> !Responds(recs[m], pid)
  }

  function Horizon(recs: seq<Rec>, i: nat): nat { if |recs| < i + 16 then |recs| else i + 16 }

  /** The answers collected from the first `n` records. */
  function Table(recs: seq<Rec>, n: nat): map<byte, Rec>
    requires n <= |recs|
  {
    if n == 0 then map[]
    else
      var t, r := Table(recs, n - 1), recs[n - 1];
      if !IsObdRequest(r.id) || |r.data| < 3 then t
      else
        var j := Search(recs, r.data[2], n, Horizon(recs, n - 1));
        if j.None? then t else t[r.data[2] := recs[j.value]]
  }

  method PairRequests(recs: seq<Rec>) returns (answers: map<byte, Rec>)
    ensures answers == Table(recs, |recs|)
  {
    hide Replies;
    answers := map[];
    var i := 0;
    while i < |recs|
      invariant 0 <= i <= |recs|
      invariant answers == Table(recs, i)
    {
      var r := recs[i];
      if IsObdRequest(r.id) && |r.data| >= 3 {
        var pid := r.data[2];
        ghost var stop := Horizon(recs, i);
        var j := i + 1;
        while j < |recs| && j < i + 16 && !Replies(recs[j], pid)
          invariant i < j <= stop || j == i + 1
          invariant Search(recs, pid, i + 1, stop) == Search(recs, pid, j, stop)
        {
          j := j + 1;
        }
        if j < |recs| && j < i + 16 {
          answers := answers[pid := recs[j]];
        }
      }
      i := i + 1;
    }
  }

  /** A PID is in the table exactly when one of its requests has a response in reach, and then with the
      response of the last such request. */
  lemma {:induction false} TableHoldsLastAnswer(recs: seq<Rec>, n: nat, pid: byte)
    requires n <= |recs|
    ensures pid in Table(recs, n) <==> exists i: nat, j: nat :: i < n && Pairs(recs, pid, i, j)
    ensures pid in Table(recs, n) ==>
              exists i: nat, j: nat :: i < n && Pairs(recs, pid, i, j) && Table(recs, n)[pid] == recs[j]
                && forall i': nat, j': nat :: i < i' < n ==> !Pairs(recs, pid, i', j')
  {
    hide Responds, Asks, Replies, IsObdRequest;
    if n > 0 {
      TableHoldsLastAnswer(recs, n - 1, pid);
      TestsAgree(recs[n - 1], pid);
      PairOf(recs, n - 1, pid);
      var found := Search(recs, pid, n, Horizon(recs, n - 1));
      if Asks(recs[n - 1], pid) && found.Some? {
        assert Pairs(recs, pid, n - 1, found.value);
      } else if pid in Table(recs, n - 1) {
        var i: nat, j: nat :| i < n - 1 && Pairs(recs, pid, i, j) && Table(recs, n - 1)[pid] == recs[j]
          && forall i': nat, j': nat :: i < i' < n - 1 ==> !Pairs(recs, pid, i', j');
        assert forall i': nat, j': nat :: i < i' < n ==> !Pairs(recs, pid, i', j');
      }
    }
  }

  /** The search finds a record's partner, if it has one. */
  lemma PairOf(recs: seq<Rec>, i: nat, pid: byte)
    requires i < |recs|
    ensures var found := Search(recs, pid, i + 1, Horizon(recs, i));
            && (Asks(recs[i], pid) && found.Some? ==> Pairs(recs, pid, i, found.value))
            && (!Asks(recs[i], pid) || found.None? ==> forall j: nat :: !Pairs(recs, pid, i, j))
  {
    hide Replies, IsObdRequest, Responds, Asks;
    forall k | 0 <= k < |recs|
      ensures (IsObdRequest(recs[k].id) && |recs[k].data| >= 3 && recs[k].data[2] == pid <==> Asks(recs[k], pid))
      ensures Replies(recs[k], pid) <==> Responds(recs[k], pid)
    {
      TestsAgree(recs[k], pid);
    }
  }

  /** The last request for the PID that has a response in reach is answered by record j. */
  ghost predicate LastPair(recs: seq<Rec>, pid: byte, i: nat, j: nat) {
    Pairs(recs, pid, i, j) && forall i': nat, j': nat :: i < i' ==> !Pairs(recs, pid, i', j')
  }

  /** Exactly when the table holds the log's last response for a PID, as documented: when some request is
      paired with that response, or the last request that is paired at all is answered by an identical
      record. Among responses that differ from one another it is the former. */
  lemma HoldsLastResponseExactlyWhen(recs: seq<Rec>, pid: byte, last: nat)
    requires last < |recs| && Responds(recs[last], pid)
    requires forall m :: last < m < |recs| ==> !Responds(recs[m], pid)
    ensures (pid in Table(recs, |recs|) && Table(recs, |recs|)[pid] == recs[last])
            <==> (exists i: nat :: Pairs(recs, pid, i, last))
                 || exists i: nat, j: nat :: LastPair(recs, pid, i, j) && recs[j] == recs[last]
    ensures (forall m :: 0 <= m < last && Responds(recs[m], pid) ==> recs[m] != recs[last]) ==>
              ((pid in Table(recs, |recs|) && Table(recs, |recs|)[pid] == recs[last])
               <==> exists i: nat :: Pairs(recs, pid, i, last))
  {
    hide Responds, Asks, Table;
    TableHoldsLastAnswer(recs, |recs|, pid);
    if pid in Table(recs, |recs|) {
      var i: nat, j: nat :| i < |recs| && Pairs(recs, pid, i, j) && Table(recs, |recs|)[pid] == recs[j]
        && forall i': nat, j': nat :: i < i' < |recs| ==> !Pairs(recs, pid, i', j');
      assert j <= last;
      assert LastPair(recs, pid, i, j);
      if i': nat :| Pairs(recs, pid, i', last) {
        OneLastPair(recs, pid, i, j, i', last);
      }
      if i': nat, j': nat :| LastPair(recs, pid, i', j') && recs[j'] == recs[last] {
        assert i' == i;
        OnePartner(recs, pid, i, j, j');
      }
    }
  }

  /** A request has one partner. */
  lemma OnePartner(recs: seq<Rec>, pid: byte, i: nat, j: nat, j': nat)
    requires Pairs(recs, pid, i, j) && Pairs(recs, pid, i, j')
    ensures j == j'
  {
    hide Responds, Asks;
  }

  /** If the last response of the log is paired, it answers the last paired request. */
  lemma OneLastPair(recs: seq<Rec>, pid: byte, i: nat, j: nat, i': nat, last: nat)
    requires LastPair(recs, pid, i, j) && Pairs(recs, pid, i', last) && j <= last
    ensures j == last
  {
    hide Responds, Asks;
  }

  /** One request and two responses: the table keeps the first response, not the last in the log. */
  lemma LaterResponseIsIgnored() returns (recs: seq<Rec>)
    ensures |recs| == 3 && Asks(recs[0], 0x0D) && Responds(recs[1], 0x0D) && Responds(recs[2], 0x0D)
    ensures 0x0D in Table(recs, 3) && Table(recs, 3)[0x0D] == recs[1] != recs[2]
  {
    recs := [Rec(0.0, 0x7DF, [2, 1, 0x0D]), Rec(0.1, 0x7E8, [3, 0x41, 0x0D, 50]), Rec(0.2, 0x7E8, [3, 0x41, 0x0D, 60])];
    TableHoldsLastAnswer(recs, 3, 0x0D);
    assert Pairs(recs, 0x0D, 0, 1);
  }
}
