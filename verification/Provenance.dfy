/** Where the session's knowledge comes from: which turn accepted an answer, which ECU sent it, and
    which ECU the advertised PIDs are those of. */
module Provenance {
  import opened Contract
  import opened Discovery
  import opened J1979
  import opened J1979Client
  import opened Options
  import opened Session
  import opened SessionLaws

  // ---------------------------------------------------------------- the turn that accepted an answer

  /** The turn requested the PID and got an answer that decodes and is no filler. */
  predicate Accepts(cfg: IceConfig, s: Session, in_: Input, pid: byte) {
    var ready := Ready(cfg, s, in_);
    && ready.Some? && Due(ready.value, in_) == Some(pid)
    && var v := ReadValue(pid, in_); v.Some? && Plausible(pid, v.value)
  }

  /** The turn requested the PID and got a filler for it. */
  predicate Rejects(cfg: IceConfig, s: Session, in_: Input, pid: byte) {
    var ready := Ready(cfg, s, in_);
    && ready.Some? && Due(ready.value, in_) == Some(pid)
    && var v := ReadValue(pid, in_); v.Some? && !Plausible(pid, v.value)
  }

  /** Turn j accepted an answer for the PID, and in every later turn of the run the vehicle was there from
      the start and no other answer for the PID was accepted or found to be a filler. */
  ghost predicate StandsSince(cfg: IceConfig, inputs: seq<Input>, pid: byte, j: nat) {
    && j < |inputs| && Accepts(cfg, SessionRun(cfg, inputs[..j]), inputs[j], pid)
    && forall i :: j < i < |inputs| ==> Retains(cfg, SessionRun(cfg, inputs[..i]), inputs[i], pid)
  }

  predicate Retains(cfg: IceConfig, s: Session, in_: Input, pid: byte) {
    s.discovered && !Accepts(cfg, s, in_, pid) && !Rejects(cfg, s, in_, pid)
  }

  function AcceptanceOf(pid: byte, in_: Input): Outcome
    requires in_.answer.Some?
  {
    Acceptance(pid, in_.answer.value.payload, in_.answerAt)
  }

  lemma PolledOutcome(s: Session, in_: Input, log: seq<Outcome>, pid: byte)
    ensures Standing(log + PollOutcome(s, in_), pid) ==
            if Due(s, in_) != Some(pid) || ReadValue(pid, in_).None? then Standing(log, pid)
            else if Plausible(pid, ReadValue(pid, in_).value) then Some(AcceptanceOf(pid, in_)) else None
  {
    hide Due, Plausible, Standing, Decode;
    var polled := PollOutcome(s, in_);
    if polled == [] {
      assert log + polled == log;
    } else {
      assert polled == [polled[0]];
      OneMore(log, polled[0]);
    }
  }

  lemma TurnAccepts(cfg: IceConfig, s: Session, in_: Input, log: seq<Outcome>, pid: byte)
    ensures Accepts(cfg, s, in_, pid) ==> in_.answer.Some?
    ensures Standing(log + Outcomes(cfg, s, in_), pid) ==
            if Accepts(cfg, s, in_, pid) then Some(AcceptanceOf(pid, in_))
            else if Retains(cfg, s, in_, pid) then Standing(log, pid) else None
  {
    hide Due, Plausible, Rediscovered, Watched, Standing, Decode, PollOutcome;
    var ready := Ready(cfg, s, in_);
    OneMore(log, NoVehicle);
    OneMore(log, Rediscovery);
    if ready.Some? {
      var base := if s.discovered then log else log + [Rediscovery];
      PolledOutcome(ready.value, in_, base, pid);
      assert log + Outcomes(cfg, s, in_) == base + PollOutcome(ready.value, in_);
    }
  }

  lemma StandsLonger(cfg: IceConfig, inputs: seq<Input>, pid: byte, j: nat)
    requires inputs != [] && StandsSince(cfg, inputs[..|inputs| - 1], pid, j)
    requires Retains(cfg, SessionRun(cfg, inputs[..|inputs| - 1]), inputs[|inputs| - 1], pid)
    ensures StandsSince(cfg, inputs, pid, j)
  {
    hide Accepts, Retains, SessionRun;
    var n := |inputs| - 1;
    assert forall i :: 0 <= i <= n ==> inputs[..n][..i] == inputs[..i];
  }

  lemma HistoryGrows(cfg: IceConfig, inputs: seq<Input>)
    requires inputs != []
    ensures var n := |inputs| - 1;
            History(cfg, inputs) == History(cfg, inputs[..n]) + Outcomes(cfg, SessionRun(cfg, inputs[..n]), inputs[n])
  {
    hide Outcomes, SessionRun;
  }

  /** The standing answer in the history is that of the turn since which it stands. */
  lemma {:induction false} StandingOrigin(cfg: IceConfig, inputs: seq<Input>, pid: byte) returns (j: nat)
    requires Standing(History(cfg, inputs), pid).Some?
    ensures StandsSince(cfg, inputs, pid, j) && j < |inputs| && inputs[j].answer.Some?
    ensures Standing(History(cfg, inputs), pid) == Some(AcceptanceOf(pid, inputs[j]))
  {
    var n := |inputs| - 1;
    var early := inputs[..n];
    HistoryGrows(cfg, inputs);
    hide Accepts, Retains, Outcomes, History, SessionRun;
    TurnAccepts(cfg, SessionRun(cfg, early), inputs[n], History(cfg, early), pid);
    if Accepts(cfg, SessionRun(cfg, early), inputs[n], pid) {
      j := n;
    } else {
      j := StandingOrigin(cfg, early, pid);
      StandsLonger(cfg, inputs, pid, j);
    }
  }

  /** And the other way round: such a turn's answer is the one the history holds. */
  lemma {:induction false} StandingIs(cfg: IceConfig, inputs: seq<Input>, pid: byte, j: nat)
    requires StandsSince(cfg, inputs, pid, j)
    ensures inputs[j].answer.Some? && Standing(History(cfg, inputs), pid) == Some(AcceptanceOf(pid, inputs[j]))
  {
    hide Accepts, Retains, Outcomes, Iterate;
    var n := |inputs| - 1;
    var early := inputs[..n];
    TurnAccepts(cfg, SessionRun(cfg, early), inputs[n], History(cfg, early), pid);
    RetainsOrAccepts(cfg, SessionRun(cfg, early), inputs[n], pid);
    if j < n {
      assert forall i :: 0 <= i < n ==> early[..i] == inputs[..i];
      StandingIs(cfg, early, pid, j);
    }
  }

  lemma RetainsOrAccepts(cfg: IceConfig, s: Session, in_: Input, pid: byte)
    ensures !(Retains(cfg, s, in_, pid) && Accepts(cfg, s, in_, pid))
  {
  }

  lemma AcceptsHasAnswer(cfg: IceConfig, s: Session, in_: Input, pid: byte)
    requires Accepts(cfg, s, in_, pid)
    ensures in_.answer.Some?
  {
  }

  // ---------------------------------------------------------------- the ECU behind it

  /** Turn d of the run found the vehicle. */
  predicate Rediscovers(cfg: IceConfig, inputs: seq<Input>, d: nat)
    requires d < |inputs|
  {
    !SessionRun(cfg, inputs[..d]).discovered && inputs[d].found.Some?
  }

  /** Turn d is the last of the run that found the vehicle. */
  ghost predicate LastRediscovery(cfg: IceConfig, inputs: seq<Input>, d: nat) {
    d < |inputs| && Rediscovers(cfg, inputs, d) && forall i :: d < i < |inputs| ==> !Rediscovers(cfg, inputs, i)
  }

  lemma TurnFinds(cfg: IceConfig, s: Session, in_: Input)
    ensures Iterate(cfg, s, in_).0.discovered ==> s.discovered || in_.found.Some?
    ensures s.discovered || in_.found.None? ==> Iterate(cfg, s, in_).0.supported <= s.supported
    ensures !s.discovered && in_.found.Some? ==> Iterate(cfg, s, in_).0.supported <= in_.found.value
  {
    if s.discovered || in_.found.None? {
      SupportShrinks(cfg, s, in_);
    } else {
      hide Watched, PollTurn;
      var ready := Rediscovered(cfg, Watched(s, in_.discoverySeen), in_.found.value);
      assert Iterate(cfg, ready, in_).0 == Iterate(cfg, s, in_).0;
      SupportShrinks(cfg, ready, in_);
    }
  }

  /** A vehicle believed present, or a PID believed advertised, goes back to a last successful discovery. */
  lemma {:induction false} KnownFromDiscovery(cfg: IceConfig, inputs: seq<Input>) returns (d: nat)
    requires SessionRun(cfg, inputs).discovered || SessionRun(cfg, inputs).supported != {}
    ensures LastRediscovery(cfg, inputs, d) && SessionRun(cfg, inputs).supported <= inputs[d].found.value
  {
    hide Iterate;
    var n := |inputs| - 1;
    var early := inputs[..n];
    TurnFinds(cfg, SessionRun(cfg, early), inputs[n]);
    if Rediscovers(cfg, inputs, n) {
      d := n;
    } else {
      d := KnownFromDiscovery(cfg, early);
      forall i: nat | i < n
        ensures Rediscovers(cfg, early, i) <==> Rediscovers(cfg, inputs, i)
      {
        assert early[..i] == inputs[..i];
      }
    }
  }

  /** Between rediscoveries one ECU is listened to: the one whose advertised PIDs were adopted. */
  lemma {:induction false} OneEcu(cfg: IceConfig, broadcastId: int, inputs: seq<Input>, log: seq<Traffic>, d: nat,
                                  j: nat)
    requires AllHeard(cfg, broadcastId, inputs, log) && d <= j < |inputs| && Rediscovers(cfg, inputs, d)
    requires forall i :: d < i <= j ==> SessionRun(cfg, inputs[..i]).discovered
    ensures log[j].ecu == log[d].ecu && Advertises(broadcastId, log[d].walk, log[j].ecu, inputs[d].found)
  {
    hide SessionRun, Advertises;
    if d < j {
      OneEcu(cfg, broadcastId, inputs, log, d, j - 1);
    }
  }

  lemma {:induction false} UpSince(cfg: IceConfig, inputs: seq<Input>, d: nat, j: nat)
    requires d < j <= |inputs| && SessionRun(cfg, inputs[..j]).discovered
    requires forall i :: d < i < j ==> !Rediscovers(cfg, inputs, i)
    ensures forall i :: d < i <= j ==> SessionRun(cfg, inputs[..i]).discovered
  {
    hide Iterate;
    if d + 1 < j {
      assert inputs[..j][..j - 1] == inputs[..j - 1] && inputs[..j][j - 1] == inputs[j - 1];
      assert !Rediscovers(cfg, inputs, j - 1);
      TurnFinds(cfg, SessionRun(cfg, inputs[..j - 1]), inputs[j - 1]);
      UpSince(cfg, inputs, d, j - 1);
    }
  }

  /** A standing answer was read from the bus in its turn: the PID was asked for, and the answer is the first
      one among the frames read then from the ECU that was first to answer the discovery in force. */
  lemma AnswerIsTheEcus(cfg: IceConfig, broadcastId: int, inputs: seq<Input>, log: seq<Traffic>, pid: byte, j: nat)
      returns (d: nat)
    requires AllHeard(cfg, broadcastId, inputs, log) && StandsSince(cfg, inputs, pid, j)
    ensures inputs[j].answer.Some? && log[j].poll.asked == [RequestFrame(pid)]
    ensures Replied(broadcastId, log[j].ecu, pid, log[j].poll.read, inputs[j].answer)
    ensures d <= j && LastRediscovery(cfg, inputs, d)
    ensures Advertises(broadcastId, log[d].walk, log[j].ecu, inputs[d].found)
  {
    hide Replied, Advertises, Broadcasts, Due, ReadValue, SessionRun, RequestFrame;
    var s := SessionRun(cfg, inputs[..j]);
    assert Heard(cfg, broadcastId, s, inputs[j], log[j]);
    AcceptsHasAnswer(cfg, s, inputs[j], pid);
    if Rediscovers(cfg, inputs, j) {
      d := j;
    } else {
      d := KnownFromDiscovery(cfg, inputs[..j]);
      assert forall i :: 0 <= i <= j ==> inputs[..j][..i] == inputs[..i];
      assert forall i :: 0 <= i < j ==> (Rediscovers(cfg, inputs[..j], i) <==> Rediscovers(cfg, inputs, i));
      UpSince(cfg, inputs, d, j);
    }
    OneEcu(cfg, broadcastId, inputs, log, d, j);
  }

  // ---------------------------------------------------------------- what was not on the bus

  /** The frame answers the request for the PID, and decodes. */
  predicate Readable(broadcastId: int, ecu: nat, pid: byte, f: CanFrame) {
    Answers(broadcastId, ecu, pid, f) && Decode(pid, ParseSingleFrame(f.data, f.dlc).value.payload).Some?
  }

  /** A request is recorded as failed exactly when none of the frames read for it was a readable answer of
      the ECU. */
  lemma FailedExactlyWhen(broadcastId: int, s: Session, in_: Input, poll: Exchange, ecu: nat, pid: byte)
    requires PollHeard(broadcastId, s, in_, poll, ecu) && Due(s, in_) == Some(pid)
    ensures ReadValue(pid, in_).None? <==> forall f :: f in poll.read ==> !Readable(broadcastId, ecu, pid, f)
  {
    hide Answers, Decode, Due, ParseSingleFrame;
    if in_.answer.Some? {
      var last := poll.read[|poll.read| - 1];
      AnswersParse(broadcastId, ecu, pid, last);
      assert last in poll.read;
      forall f | f in poll.read && Answers(broadcastId, ecu, pid, f)
        ensures f == last
      {
        var i :| 0 <= i < |poll.read| && poll.read[i] == f;
      }
      assert Readable(broadcastId, ecu, pid, last) <==> ReadValue(pid, in_).Some?;
    }
  }

  lemma AnswersParse(broadcastId: int, ecu: nat, pid: byte, f: CanFrame)
    requires Answers(broadcastId, ecu, pid, f)
    ensures ParseSingleFrame(f.data, f.dlc).Some?
  {
  }

  /** On the bus: in a turn that began with the vehicle there, it is given up exactly when a PID was asked for,
      none of the frames read for it was a readable answer of the ECU, and the four requests before had
      brought no accepted answer either. */
  lemma GivenUpExactlyWhen(cfg: IceConfig, broadcastId: int, inputs: seq<Input>, log: seq<Traffic>, k: nat)
    requires ValidConfig(cfg) && ClockFromZero(inputs) && AllHeard(cfg, broadcastId, inputs, log) && k < |inputs|
    requires SessionRun(cfg, inputs[..k]).discovered
    ensures var s := SessionRun(cfg, inputs[..k]);
            SetLink(false, inputs[k].lostAt) in Iterate(cfg, s, inputs[k]).1 <==>
              && Due(s, inputs[k]).Some? && Trailing(History(cfg, inputs[..k])) >= 4
              && forall f :: f in log[k].poll.read ==> !Readable(broadcastId, log[k].ecu, Due(s, inputs[k]).value, f)
  {
    hide SessionRun, Iterate, Due, ReadValue, Readable, History, Trailing, Replied, Advertises, Broadcasts;
    var s := SessionRun(cfg, inputs[..k]);
    DropsExactlyWhen(cfg, inputs[..k], inputs[k]);
    assert Heard(cfg, broadcastId, s, inputs[k], log[k]);
    if Due(s, inputs[k]).Some? {
      FailedExactlyWhen(broadcastId, s, inputs[k], log[k].poll, log[k].ecu, Due(s, inputs[k]).value);
    }
  }

  /** Since the turn whose answer stands, no readable answer for the PID was read at all in answer to a request
      for it. */
  lemma NothingNewerRead(cfg: IceConfig, broadcastId: int, inputs: seq<Input>, log: seq<Traffic>, pid: byte, j: nat,
                         i: nat)
    requires AllHeard(cfg, broadcastId, inputs, log) && StandsSince(cfg, inputs, pid, j) && j < i < |inputs|
    ensures log[i].poll.asked == [RequestFrame(pid)] ==>
              forall f :: f in log[i].poll.read ==> !Readable(broadcastId, log[i].ecu, pid, f)
  {
    hide SessionRun, Due, ReadValue, Readable, Replied, Advertises, Broadcasts, Plausible;
    var s := SessionRun(cfg, inputs[..i]);
    assert Heard(cfg, broadcastId, s, inputs[i], log[i]);
    assert Retains(cfg, s, inputs[i], pid);
    if Due(s, inputs[i]).Some? && log[i].poll.asked == [RequestFrame(pid)] {
      var due := Due(s, inputs[i]).value;
      assert RequestFrame(pid).data[2] == pid && RequestFrame(due).data[2] == due;
      FailedExactlyWhen(broadcastId, s, inputs[i], log[i].poll, log[i].ecu, pid);
    }
  }

  // ---------------------------------------------------------------- honest ECUs

  lemma {:induction false} ReadPart(log: seq<Traffic>, d: nat) returns (before: seq<CanFrame>, after: seq<CanFrame>)
    requires d < |log|
    ensures AllRead(log) == before + log[d].walk.read + after
    ensures AllRead(log) == [] ==> log[d].poll.read == []
  {
    var last := |log| - 1;
    if d == last {
      before, after := AllRead(log[..last]), log[last].poll.read;
    } else {
      before, after := ReadPart(log[..last], d);
      after := after + (log[last].walk.read + log[last].poll.read);
    }
  }

  /** What an honest ECU advertised on the bus is what it supports: all that is reachable along its chain, or
      what is reachable before the block for which it sent no bitmap. */
  lemma FoundIsHonest(broadcastId: int, walk: Exchange, supports: map<nat, set<byte>>, ecu: nat, found: set<byte>)
      returns (parts: seq<seq<CanFrame>>, blocks: nat)
    requires HonestEcus(walk.read, supports) && Advertises(broadcastId, walk, ecu, Some(found))
    ensures walk.read == Flat(parts) && ecu in supports && 0 < blocks <= |parts|
    ensures forall p: byte :: p in found <==> Discoverable(supports[ecu], p) && p as int / 0x20 < blocks
    ensures if Reaches(supports[ecu], blocks)
            then |parts| == blocks + 1 && NoBitmap(broadcastId, ecu, 0x20 * blocks, parts[blocks])
            else forall p: byte :: p in found <==> Discoverable(supports[ecu], p)
  {
    hide HonestEcus, Discoverable, NextBlockAdvertised, NoBitmap, Flat, Reaches, BlockAnswered, Advertised;
    hide BlockRequests;
    var answers;
    parts, answers :| Walked(broadcastId, parts, ecu, answers) && |parts| <= 7
      && walk == Exchange(BlockRequests(|parts|), Flat(parts))
      && Some(found) == if answers == [] then None else Some(Advertised(answers));
    blocks := |answers|;
    HonestWalk(broadcastId, parts, ecu, answers, supports);
  }

  /** Over every run against honest ECUs, a PID the session believes advertised is one that the ECU found
      by the last successful discovery supports, reachable along its bitmap chain. */
  lemma SupportIsHonest(cfg: IceConfig, broadcastId: int, inputs: seq<Input>, log: seq<Traffic>,
                        supports: map<nat, set<byte>>, p: byte) returns (d: nat)
    requires AllHeard(cfg, broadcastId, inputs, log) && HonestEcus(AllRead(log), supports)
    requires p in SessionRun(cfg, inputs).supported
    ensures LastRediscovery(cfg, inputs, d) && log[d].ecu in supports && Discoverable(supports[log[d].ecu], p)
  {
    hide HonestEcus, Discoverable, Advertises, SessionRun, PollHeard, Broadcasts, Reaches, NoBitmap;
    d := KnownFromDiscovery(cfg, inputs);
    var before, after := ReadPart(log, d);
    HonestPart(before, log[d].walk.read, after, supports);
    assert Heard(cfg, broadcastId, SessionRun(cfg, inputs[..d]), inputs[d], log[d]);
    var parts, blocks := FoundIsHonest(broadcastId, log[d].walk, supports, log[d].ecu, inputs[d].found.value);
  }

  /** On a silent bus the session never believes in a vehicle, whatever the clock does. */
  lemma {:induction false} SilentBusFindsNothing(cfg: IceConfig, broadcastId: int, inputs: seq<Input>,
                                                 log: seq<Traffic>)
    requires AllHeard(cfg, broadcastId, inputs, log) && AllRead(log) == []
    ensures !SessionRun(cfg, inputs).discovered && SessionRun(cfg, inputs).supported == {}
    ensures forall k :: 0 <= k < |inputs| ==> inputs[k].found.None? && inputs[k].answer.None?
  {
    hide SessionRun, Heard;
    forall k | 0 <= k < |inputs|
      ensures inputs[k].found.None? && inputs[k].answer.None?
    {
      var before, after := ReadPart(log, k);
      assert log[k].walk.read == [];
      HeardNothing(cfg, broadcastId, SessionRun(cfg, inputs[..k]), inputs[k], log[k]);
    }
    if SessionRun(cfg, inputs).discovered || SessionRun(cfg, inputs).supported != {} {
      var d := KnownFromDiscovery(cfg, inputs);
      assert false;
    }
  }

  lemma HeardNothing(cfg: IceConfig, broadcastId: int, s: Session, in_: Input, t: Traffic)
    requires Heard(cfg, broadcastId, s, in_, t) && t.walk.read == [] && t.poll.read == []
    ensures in_.found.None? && in_.answer.None?
  {
    hide Due, Answers, Rediscovered, Watched, NextBlockAdvertised, Broadcasts, Advertised, Advertises;
    if in_.found.Some? {
      NothingAdvertised(broadcastId, t.walk, t.ecu, in_.found);
    }
  }

  lemma EmptyPart(parts: seq<seq<CanFrame>>, k: nat)
    requires k < |parts| && Flat(parts) == []
    ensures parts[k] == []
  {
    var before, after := PartOfFlat(parts, k);
  }

  lemma NothingAdvertised(broadcastId: int, walk: Exchange, ecu: nat, found: Option<set<byte>>)
    requires Advertises(broadcastId, walk, ecu, found) && walk.read == []
    ensures found.None?
  {
    hide NextBlockAdvertised, NoBitmap, Advertised, BlockRequests, FromEcu;
    var parts, answers :| Walked(broadcastId, parts, ecu, answers) && |parts| <= 7
      && walk == Exchange(BlockRequests(|parts|), Flat(parts))
      && found == if answers == [] then None else Some(Advertised(answers));
    if parts != [] {
      EmptyPart(parts, 0);
    }
  }
}
