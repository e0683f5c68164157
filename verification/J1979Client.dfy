/** How to talk to the vehicle: functional requests, demultiplexing of what comes back, sticking to
    the first ECU that answers, and the walk along the supported-PID bitmap chain. The bus and the
    clock belong to the environment: any frames may arrive, and every read of the clock or wait on
    the socket may take any time and may end without a frame. */
module J1979Client {
  import opened Contract
  import opened J1979
  import opened Options
  import opened Publisher

  /** The vehicle-side socket as the environment drives it. `pending` holds the frames that will be
      read, in order; `offered` the requests handed to it, `sent` those among them it took; `timeouts` counts
      the waits that ended without a frame. */
  class CanChannel {
    var now: Nanos
    var pending: seq<CanFrame>
    var sent: seq<CanFrame>
    ghost var offered: seq<CanFrame>
    ghost var timeouts: nat

    constructor (start: Nanos, pending: seq<CanFrame>)
      ensures now == start && this.pending == pending && sent == [] && offered == [] && timeouts == 0
    {
      now := start;
      this.pending := pending;
      sent, offered, timeouts := [], [], 0;
    }

    method ReadClock() returns (t: Nanos)
      modifies this`now
      ensures t == now >= old(now)
    {
      var delay :| delay >= 0;
      now := now + delay;
      t := now;
    }

    method Send(f: CanFrame) returns (ok: bool)
      modifies this`sent, this`offered
      ensures sent == if ok then old(sent) + [f] else old(sent)
      ensures offered == old(offered) + [f]
    {
      ok := *;
      offered := offered + [f];
      if ok {
        sent := sent + [f];
      }
    }

    method Receive() returns (f: Option<CanFrame>)
      modifies this`now, this`pending, this`timeouts
      ensures now >= old(now) && timeouts == old(timeouts) + if f.None? then 1 else 0
      ensures f.Some? ==> old(pending) != [] && f.value == old(pending)[0] && pending == old(pending)[1..]
      ensures f.None? ==> pending == old(pending)
    {
      var delay :| delay >= 0;
      now := now + delay;
      var arrived: bool := *;
      if arrived && pending != [] {
        f := Some(pending[0]);
        pending := pending[1..];
      } else {
        f := None;
        timeouts := timeouts + 1;
      }
    }
  }

  /** A telltale frame handed to the sink, and when. */
  datatype Seen = Seen(frame: CanFrame, at: Nanos)

  function FramesOf(seen: seq<Seen>): seq<CanFrame> {
    seq(|seen|, i requires 0 <= i < |seen| => seen[i].frame)
  }

  /** The frames among those read that carry the broadcast identifier, in order. */
  function Broadcasts(id: int, frames: seq<CanFrame>): seq<CanFrame> {
    if frames == [] then []
    else
      var last := frames[|frames| - 1];
      Broadcasts(id, frames[..|frames| - 1]) + (if last.id == id then [last] else [])
  }

  lemma {:induction false} BroadcastsConcat(id: int, a: seq<CanFrame>, b: seq<CanFrame>)
    ensures Broadcasts(id, a + b) == Broadcasts(id, a) + Broadcasts(id, b)
  {
    if b == [] {
      assert a + b == a;
    } else {
      assert (a + b)[..|a + b| - 1] == a + b[..|b| - 1];
      BroadcastsConcat(id, a, b[..|b| - 1]);
    }
  }

  /** The sink got exactly the broadcasts among the frames read, in order, while they were read. */
  ghost predicate Sunk(id: int, read: seq<CanFrame>, seen: seq<Seen>, from: Nanos, to: Nanos) {
    && FramesOf(seen) == Broadcasts(id, read)
    && forall i :: 0 <= i < |seen| ==> from <= seen[i].at <= to
  }

  lemma SunkOneMore(id: int, read: seq<CanFrame>, seen: seq<Seen>, from: Nanos, mid: Nanos, f: CanFrame, t: Nanos)
    requires Sunk(id, read, seen, from, mid) && from <= mid <= t
    ensures f.id == id ==> Sunk(id, read + [f], seen + [Seen(f, t)], from, t)
    ensures f.id != id ==> Sunk(id, read + [f], seen, from, t)
  {
    assert (read + [f])[..|read|] == read;
    assert FramesOf(seen + [Seen(f, t)]) == FramesOf(seen) + [f];
  }

  lemma SunkLater(id: int, read: seq<CanFrame>, seen: seq<Seen>, from: Nanos, mid: Nanos, to: Nanos)
    requires Sunk(id, read, seen, from, mid) && mid <= to
    ensures Sunk(id, read, seen, from, to)
  {
  }

  lemma SunkConcat(id: int, a: seq<CanFrame>, b: seq<CanFrame>, seenA: seq<Seen>, seenB: seq<Seen>,
                   from: Nanos, mid: Nanos, to: Nanos)
    requires from <= mid <= to && Sunk(id, a, seenA, from, mid) && Sunk(id, b, seenB, mid, to)
    ensures Sunk(id, a + b, seenA + seenB, from, to)
  {
    BroadcastsConcat(id, a, b);
    assert FramesOf(seenA + seenB) == FramesOf(seenA) + FramesOf(seenB);
  }

  /** Whether a frame read while waiting for `pid` is the answer. The configured broadcast identifier
      is taken out first; once an ECU is primary only its answers count. */
  predicate Answers(broadcastId: int, primary: nat, pid: byte, f: CanFrame) {
    && !(broadcastId >= 0 && f.id == broadcastId)
    && IsResponseId(f.id)
    && (var r := ParseSingleFrame(f.data, f.dlc); r.Some? && r.value.mode == 0x41 && r.value.pid == pid)
    && (primary == 0 || f.id == primary)
  }

  /** In terms of the standards: an answer is a positive mode 01 single frame for the PID, from one of the eight
      ECU identifiers - from the primary ECU, once there is one - and not on the broadcast identifier. */
  lemma AnswersExactlyWhen(broadcastId: int, primary: nat, pid: byte, f: CanFrame)
    ensures Answers(broadcastId, primary, pid, f) <==>
            && 0x7E8 <= f.id <= 0x7EF && f.id != broadcastId && (primary == 0 || f.id == primary)
            && exists payload: seq<byte> :: IsSingleFrame(f.data, f.dlc, Response(0x41, pid, payload))
  {
    hide IsSingleFrame, ParseSingleFrame;
    var r := ParseSingleFrame(f.data, f.dlc);
    if r.Some? {
      ParsesExactlySingleFrames(f.data, f.dlc, r.value);
    }
    forall payload: seq<byte>
      ensures IsSingleFrame(f.data, f.dlc, Response(0x41, pid, payload)) <==> r == Some(Response(0x41, pid, payload))
    {
      ParsesExactlySingleFrames(f.data, f.dlc, Response(0x41, pid, payload));
    }
    if r.Some? && r.value.mode == 0x41 && r.value.pid == pid {
      assert r == Some(Response(0x41, pid, r.value.payload));
    }
  }

  /** Position of the first answer among the frames read. */
  ghost predicate FirstAnswer(broadcastId: int, primary: nat, pid: byte, frames: seq<CanFrame>, k: int) {
    && 0 <= k < |frames| && Answers(broadcastId, primary, pid, frames[k])
    && forall j :: 0 <= j < k ==> !Answers(broadcastId, primary, pid, frames[j])
  }

  ghost predicate NoAnswer(broadcastId: int, primary: nat, pid: byte, frames: seq<CanFrame>) {
    forall j :: 0 <= j < |frames| ==> !Answers(broadcastId, primary, pid, frames[j])
  }

  lemma AnswerOrNot(broadcastId: int, primary: nat, pid: byte, frames: seq<CanFrame>, f: CanFrame)
    requires NoAnswer(broadcastId, primary, pid, frames)
    ensures Answers(broadcastId, primary, pid, f) ==> FirstAnswer(broadcastId, primary, pid, frames + [f], |frames|)
    ensures !Answers(broadcastId, primary, pid, f) ==> NoAnswer(broadcastId, primary, pid, frames + [f])
  {
    hide Answers;
  }

  /** What a request came to, in terms of the frames read for it: the first answer among them, and nothing
      was read after it; or no answer, and none of them was one. */
  ghost predicate Replied(broadcastId: int, primary: nat, pid: byte, frames: seq<CanFrame>, r: Option<Response>) {
    if r.None? then NoAnswer(broadcastId, primary, pid, frames)
    else
      && FirstAnswer(broadcastId, primary, pid, frames, |frames| - 1)
      && ParseSingleFrame(frames[|frames| - 1].data, frames[|frames| - 1].dlc) == r
  }

  // ---------------------------------------------------------------- the bitmap chain

  /** Every payload is long enough to be a bitmap. */
  predicate Wide(answers: seq<seq<byte>>) { forall k :: 0 <= k < |answers| ==> |answers[k]| >= 4 }

  /** The bitmaps of consecutive blocks, each but the last advertising the next; at most seven. */
  predicate IsWalk(answers: seq<seq<byte>>) {
    && |answers| <= 7 && Wide(answers)
    && (forall k :: 0 <= k < |answers| - 1 ==> NextBlockAdvertised(answers[k]))
  }

  /** The PIDs a walk advertises, the bitmap PIDs themselves left out. */
  function Advertised(answers: seq<seq<byte>>): set<byte>
    requires Wide(answers)
  {
    set p: byte | p % 0x20 != 0 && p / 0x20 < |answers| && BitmapBit(answers[p / 0x20], p % 0x20)
  }

  function BlockRequests(n: nat): seq<CanFrame>
    requires n <= 7
  {
    seq(n, k requires 0 <= k < n => RequestFrame(0x20 * k))
  }

  /** Since `before` the bitmaps of the blocks 0, 1, ... were asked for, one after the other, `n` of them. */
  predicate AskedBlocks(before: seq<CanFrame>, after: seq<CanFrame>, n: nat) {
    && n <= 7 && |after| == |before| + n && before <= after
    && forall k :: 0 <= k < n ==> AsksFor(after[|before| + k], 0x20 * k)
  }

  lemma BlocksAsked(before: seq<CanFrame>, n: nat)
    requires n <= 7
    ensures AskedBlocks(before, before + BlockRequests(n), n)
  {
    hide AsksFor;
  }

  /** The payload came from the given ECU in answer to `pid`. */
  ghost predicate FromEcu(frames: seq<CanFrame>, ecu: nat, pid: byte, payload: seq<byte>) {
    exists j :: 0 <= j < |frames| && frames[j].id == ecu
                && ParseSingleFrame(frames[j].data, frames[j].dlc) == Some(Response(0x41, pid, payload))
  }

  lemma FromEcuWithin(before: seq<CanFrame>, frames: seq<CanFrame>, after: seq<CanFrame>, ecu: nat, pid: byte,
                      payload: seq<byte>)
    requires FromEcu(frames, ecu, pid, payload)
    ensures FromEcu(before + frames + after, ecu, pid, payload)
  {
    var j :| 0 <= j < |frames| && frames[j].id == ecu
             && ParseSingleFrame(frames[j].data, frames[j].dlc) == Some(Response(0x41, pid, payload));
    assert (before + frames + after)[|before| + j] == frames[j];
  }

  lemma ReplyIsFromEcu(broadcastId: int, primary: nat, frames: seq<CanFrame>, r: Response, pid: byte)
    requires Replied(broadcastId, primary, pid, frames, Some(r))
    ensures frames != [] && IsResponseId(frames[|frames| - 1].id) && r.mode == 0x41 && r.pid == pid
    ensures FromEcu(frames, frames[|frames| - 1].id, pid, r.payload)
    ensures Answers(broadcastId, primary, pid, frames[|frames| - 1])
    ensures primary != 0 ==> frames[|frames| - 1].id == primary
  {
  }

  /** None of the frames is an answer long enough to be a bitmap. */
  ghost predicate NoBitmap(broadcastId: int, primary: nat, base: byte, frames: seq<CanFrame>) {
    forall f :: f in frames && Answers(broadcastId, primary, base, f) ==>
      |ParseSingleFrame(f.data, f.dlc).value.payload| < 4
  }

  /** Why a request brought nothing of use: it could not be sent, or the wait for an answer ended, or the answer was
      of no use. */
  ghost predicate GaveUp(refused: bool, timedOut: bool, broadcastId: int, primary: nat, pid: byte,
                         frames: seq<CanFrame>) {
    (refused && frames == []) || timedOut ||
    (frames != [] && Answers(broadcastId, primary, pid, frames[|frames| - 1]))
  }

  lemma NoBitmapRead(broadcastId: int, primary: nat, base: byte, frames: seq<CanFrame>, r: Option<Response>)
    requires Replied(broadcastId, primary, base, frames, r) && (r.Some? ==> |r.value.payload| < 4)
    ensures NoBitmap(broadcastId, primary, base, frames)
  {
    hide Answers;
  }

  function Flat(parts: seq<seq<CanFrame>>): seq<CanFrame> {
    if parts == [] then [] else Flat(parts[..|parts| - 1]) + parts[|parts| - 1]
  }

  lemma FlatOneMore(parts: seq<seq<CanFrame>>, more: seq<CanFrame>)
    ensures Flat(parts + [more]) == Flat(parts) + more
  {
    assert (parts + [more])[..|parts|] == parts;
  }

  /** The frames read for a block end with its bitmap, the first answer among them, sent by the given ECU. */
  ghost predicate BlockAnswered(broadcastId: int, primary: nat, block: nat, frames: seq<CanFrame>, ecu: nat,
                                payload: seq<byte>) {
    && block < 7 && |payload| >= 4
    && Replied(broadcastId, primary, 0x20 * block, frames, Some(Response(0x41, 0x20 * block, payload)))
    && frames[|frames| - 1].id == ecu
  }

  /** Part by part, the frames read for the blocks 0, 1, 2, ... end with the bitmap of that block: for block 0
      from whichever ECU was first to answer, for the others from that same ECU. */
  ghost predicate Climbs(broadcastId: int, parts: seq<seq<CanFrame>>, ecu: nat, answers: seq<seq<byte>>) {
    && |parts| == |answers| && IsWalk(answers) && (answers != [] ==> IsResponseId(ecu))
    && forall k :: 0 <= k < |answers| ==>
         BlockAnswered(broadcastId, if k == 0 then 0 else ecu, k, parts[k], ecu, answers[k])
  }

  /** The chain ends here by itself: there is no further block, or the last bitmap does not advertise it. */
  predicate Finished(answers: seq<seq<byte>>)
    requires Wide(answers)
  {
    |answers| == 7 || (answers != [] && !NextBlockAdvertised(answers[|answers| - 1]))
  }

  /** A whole walk: it goes on until the chain ends by itself, or until the frames read for a block that was
      asked for contain no bitmap from the ECU. */
  ghost predicate Walked(broadcastId: int, parts: seq<seq<CanFrame>>, ecu: nat, answers: seq<seq<byte>>) {
    && |answers| <= |parts| && Climbs(broadcastId, parts[..|answers|], ecu, answers)
    && if Finished(answers) then |parts| == |answers|
       else
         && |parts| == |answers| + 1 && |answers| < 7
         && NoBitmap(broadcastId, if answers == [] then 0 else ecu, 0x20 * |answers|, parts[|answers|])
  }

  lemma ClimbsOn(broadcastId: int, parts: seq<seq<CanFrame>>, ecu: nat, answers: seq<seq<byte>>, more: seq<CanFrame>,
                 payload: seq<byte>)
    requires Climbs(broadcastId, parts, ecu, answers) && !Finished(answers) && IsResponseId(ecu)
    requires |payload| >= 4
    requires BlockAnswered(broadcastId, if answers == [] then 0 else ecu, |answers|, more, ecu, payload)
    ensures Climbs(broadcastId, parts + [more], ecu, answers + [payload])
  {
    hide BlockAnswered, NextBlockAdvertised;
    var p, a := parts + [more], answers + [payload];
    assert forall k :: 0 <= k < |answers| ==> p[k] == parts[k] && a[k] == answers[k];
    assert forall k :: 0 <= k < |a| ==> BlockAnswered(broadcastId, if k == 0 then 0 else ecu, k, p[k], ecu, a[k]);
  }

  /** Who answers first does not matter to a walk that has not begun. */
  lemma NotYetClimbing(broadcastId: int, ecu: nat)
    ensures Climbs(broadcastId, [], ecu, [])
  {
  }

  lemma WalkStops(broadcastId: int, parts: seq<seq<CanFrame>>, ecu: nat, answers: seq<seq<byte>>, more: seq<CanFrame>)
    requires Climbs(broadcastId, parts, ecu, answers) && !Finished(answers)
    requires NoBitmap(broadcastId, if answers == [] then 0 else ecu, 0x20 * |answers|, more)
    ensures Walked(broadcastId, parts + [more], ecu, answers)
  {
    hide BlockAnswered, NextBlockAdvertised, NoBitmap;
    assert (parts + [more])[..|answers|] == parts;
  }

  lemma WalkFinishes(broadcastId: int, parts: seq<seq<CanFrame>>, ecu: nat, answers: seq<seq<byte>>)
    requires Climbs(broadcastId, parts, ecu, answers) && Finished(answers)
    ensures Walked(broadcastId, parts, ecu, answers)
  {
    hide BlockAnswered, NextBlockAdvertised;
    assert parts[..|answers|] == parts;
  }

  /** The payloads are one ECU's answers for the blocks 0, 1, 2, ... */
  ghost predicate AnsweredBy(frames: seq<CanFrame>, ecu: nat, answers: seq<seq<byte>>) {
    |answers| <= 7 && forall k :: 0 <= k < |answers| ==> FromEcu(frames, ecu, 0x20 * k, answers[k])
  }

  lemma {:induction false} PartOfFlat(parts: seq<seq<CanFrame>>, k: nat)
      returns (before: seq<CanFrame>, after: seq<CanFrame>)
    requires k < |parts|
    ensures Flat(parts) == before + parts[k] + after
  {
    var n := |parts| - 1;
    if k == n {
      before, after := Flat(parts[..n]), [];
    } else {
      before, after := PartOfFlat(parts[..n], k);
      after := after + parts[n];
    }
  }

  lemma WalkIsAnswered(broadcastId: int, parts: seq<seq<CanFrame>>, ecu: nat, answers: seq<seq<byte>>)
    requires Walked(broadcastId, parts, ecu, answers)
    ensures IsWalk(answers) && AnsweredBy(Flat(parts), ecu, answers)
  {
    hide Replied, FromEcu, NextBlockAdvertised, NoBitmap;
    forall k | 0 <= k < |answers|
      ensures FromEcu(Flat(parts), ecu, 0x20 * k, answers[k])
    {
      assert BlockAnswered(broadcastId, if k == 0 then 0 else ecu, k, parts[..|answers|][k], ecu, answers[k]);
      ReplyIsFromEcu(broadcastId, if k == 0 then 0 else ecu, parts[k], Response(0x41, 0x20 * k, answers[k]), 0x20 * k);
      var before, after := PartOfFlat(parts, k);
      FromEcuWithin(before, parts[k], after, ecu, 0x20 * k, answers[k]);
    }
  }

  /** PID p is advertised by the bitmap of the given block, and is not a bitmap PID itself. */
  predicate InBlock(payload: seq<byte>, block: nat, p: byte)
    requires |payload| >= 4
  {
    p % 0x20 != 0 && exists n :: 1 <= n <= 32 && BitmapBit(payload, n) && p as int == 0x20 * block + n
  }

  /** The bits of a block's bitmap name no PID outside the byte range. */
  lemma FromBlock(payload: seq<byte>, block: nat, base: byte, p: byte)
    requires |payload| >= 4 && block < 7 && base as int == 0x20 * block
    ensures p % 0x20 != 0 && (exists n :: 1 <= n <= 32 && BitmapBit(payload, n) && p == (base as int + n) % 0x100)
            <==> InBlock(payload, block, p)
  {
    hide BitmapBit;
  }

  lemma AdvertisedGrows(answers: seq<seq<byte>>, payload: seq<byte>, found: set<byte>)
    requires |answers| < 7 && Wide(answers) && |payload| >= 4
    requires forall p: byte :: p in found <==> (p in Advertised(answers) || InBlock(payload, |answers|, p))
    ensures found == Advertised(answers + [payload])
  {
    var more := answers + [payload];
    forall p: byte
      ensures p in found <==> p in Advertised(more)
    {
      if p / 0x20 == |answers| && p % 0x20 != 0 {
        assert p as int == 0x20 * |answers| + (p % 0x20) as int;
      }
    }
  }

  lemma NoRequestsYet()
    ensures BlockRequests(0) == [] && Advertised([]) == {} && Flat([]) == []
  {
  }

  lemma BlockRequestsGrow(n: nat)
    requires n < 7
    ensures BlockRequests(n) + [RequestFrame(0x20 * n)] == BlockRequests(n + 1)
  {
  }

  /** The channel and the supported set when a walk begins. */
  datatype WalkStart = WalkStart(now: Nanos, pending: seq<CanFrame>, sent: seq<CanFrame>, offered: seq<CanFrame>,
                                 timeouts: nat, supported: set<byte>)

  class Client {
    const channel: CanChannel
    const broadcastId: int
    var primaryEcu: nat
    var supported: set<byte>

    constructor (channel: CanChannel, broadcastId: int)
      ensures this.channel == channel && this.broadcastId == broadcastId
      ensures primaryEcu == 0 && supported == {}
    {
      this.channel := channel;
      this.broadcastId := broadcastId;
      primaryEcu := 0;
      supported := {};
    }

    /** Reads until the answer comes or the time is up. Broadcast frames go to the sink in order. */
    method Await(pid: byte) returns (r: Option<Response>, seen: seq<Seen>, ghost read: seq<CanFrame>)
      modifies this`primaryEcu, channel`now, channel`pending, channel`timeouts
      ensures channel.now >= old(channel.now)
      ensures channel.timeouts == old(channel.timeouts) + if r.None? then 1 else 0
      ensures old(channel.pending) == read + channel.pending
      ensures Replied(broadcastId, old(primaryEcu), pid, read, r)
      ensures r.None? ==> primaryEcu == old(primaryEcu)
      ensures r.Some? ==> read != [] && primaryEcu == read[|read| - 1].id
      ensures Sunk(broadcastId, read, seen, old(channel.now), channel.now)
    {
      r, seen, read := None, [], [];
      ghost var queue, from := channel.pending, channel.now;
      assert Sunk(broadcastId, read, seen, from, channel.now);
      assert NoAnswer(broadcastId, primaryEcu, pid, read);
      hide Sunk, ParseSingleFrame, FirstAnswer, NoAnswer;
      while true
        invariant channel.now >= from && primaryEcu == old(primaryEcu)
        invariant channel.timeouts == old(channel.timeouts)
        invariant queue == read + channel.pending
        invariant NoAnswer(broadcastId, primaryEcu, pid, read)
        invariant Sunk(broadcastId, read, seen, from, channel.now)
        decreases |channel.pending|
      {
        ghost var mid := channel.now;
        var f := channel.Receive();
        if f.None? {
          SunkLater(broadcastId, read, seen, from, mid, channel.now);
          return;
        }
        SunkOneMore(broadcastId, read, seen, from, mid, f.value, channel.now);
        AnswerOrNot(broadcastId, primaryEcu, pid, read, f.value);
        ghost var before := read;
        read := read + [f.value];
        assert queue == read + channel.pending;
        if broadcastId >= 0 && f.value.id == broadcastId {
          var t := channel.ReadClock();
          SunkOneMore(broadcastId, before, seen, from, mid, f.value, t);
          seen := seen + [Seen(f.value, t)];
          continue;
        }
        if !IsResponseId(f.value.id) {
          continue;
        }
        var p := ParseSingleFrame(f.value.data, f.value.dlc);
        if p.None? || p.value.mode != 0x41 || p.value.pid != pid {
          continue;
        }
        if primaryEcu == 0 {
          primaryEcu := f.value.id;
        } else if f.value.id != primaryEcu {
          continue;
        }
        r := p;
        return;
      }
    }

    /** One request. On success the last frame read is the first answer among those read; on failure
        none of them was one, and the primary ECU is unchanged. */
    method Request(pid: byte) returns (r: Option<Response>, seen: seq<Seen>, ghost read: seq<CanFrame>)
      modifies this`primaryEcu, channel
      ensures channel.now >= old(channel.now)
      ensures old(channel.pending) == read + channel.pending
      ensures channel.offered == old(channel.offered) + [RequestFrame(pid)]
      ensures AsksFor(channel.offered[|old(channel.offered)|], pid)
      ensures channel.sent == old(channel.sent) || channel.sent == old(channel.sent) + [RequestFrame(pid)]
      ensures Replied(broadcastId, old(primaryEcu), pid, read, r)
      ensures channel.sent == old(channel.sent) ==> r.None? && read == []
      ensures channel.timeouts ==
              old(channel.timeouts) + if r.None? && channel.sent != old(channel.sent) then 1 else 0
      ensures r.None? ==> primaryEcu == old(primaryEcu)
      ensures r.Some? ==>
                channel.sent == old(channel.sent) + [RequestFrame(pid)] && read != [] && primaryEcu == read[|read| - 1].id
      ensures Sunk(broadcastId, read, seen, old(channel.now), channel.now)
    {
      var req := BuildRequest(pid);
      var ok := channel.Send(req);
      if !ok {
        r, seen, read := None, [], [];
        return;
      }
      hide Sunk, Replied, RequestFrame;
      r, seen, read := Await(pid);
    }

    /** Collects into `found` the advertised PIDs that are not bitmap PIDs. */
    method Collect(found: set<byte>, pids: seq<byte>) returns (all: set<byte>)
      ensures forall p: byte :: p in all <==> p in found || (p in pids && p % 0x20 != 0)
    {
      all := found;
      for i := 0 to |pids|
        invariant forall p: byte :: p in all <==> p in found || (p in pids[..i] && p % 0x20 != 0)
      {
        if !IsSupportedPid(pids[i]) {
          all := all + {pids[i]};
        }
      }
      assert pids[..|pids|] == pids;
    }

    /** Asks for one block. An answer too short to be a bitmap counts as none. */
    method AskBlock(base: byte) returns (payload: Option<seq<byte>>, seen: seq<Seen>, ghost read: seq<CanFrame>)
      modifies this`primaryEcu, channel
      ensures channel.now >= old(channel.now)
      ensures old(channel.pending) == read + channel.pending
      ensures channel.offered == old(channel.offered) + [RequestFrame(base)]
      ensures channel.sent == old(channel.sent) || channel.sent == old(channel.sent) + [RequestFrame(base)]
      ensures payload.Some? ==>
                && channel.sent == old(channel.sent) + [RequestFrame(base)] && |payload.value| >= 4
                && Replied(broadcastId, old(primaryEcu), base, read, Some(Response(0x41, base, payload.value)))
                && IsResponseId(primaryEcu) && read[|read| - 1].id == primaryEcu
      ensures payload.None? ==> NoBitmap(broadcastId, old(primaryEcu), base, read)
      ensures payload.None? ==>
                GaveUp(channel.sent == old(channel.sent), channel.timeouts == old(channel.timeouts) + 1,
                       broadcastId, old(primaryEcu), base, read)
      ensures payload.Some? ==> channel.timeouts == old(channel.timeouts)
      ensures old(primaryEcu) != 0 ==> primaryEcu == old(primaryEcu)
      ensures Sunk(broadcastId, read, seen, old(channel.now), channel.now)
    {
      hide Sunk, Replied, NoBitmap, FromEcu, Answers;
      var r;
      r, seen, read := Request(base);
      payload := None;
      if r.Some? {
        ReplyIsFromEcu(broadcastId, old(primaryEcu), read, r.value, base);
        if |r.value.payload| >= 4 {
          payload := Some(r.value.payload);
          return;
        }
      }
      NoBitmapRead(broadcastId, old(primaryEcu), base, read, r);
    }

    /** The PIDs of one more answered block join those found so far. */
    method AddBlock(found: set<byte>, base: byte, payload: seq<byte>, ghost answers: seq<seq<byte>>)
        returns (all: set<byte>)
      requires |answers| < 7 && IsWalk(answers) && |payload| >= 4 && base as int == 0x20 * |answers|
      requires found == Advertised(answers)
      ensures all == Advertised(answers + [payload])
    {
      hide BitmapBit, Advertised, NextBlockAdvertised;
      var pids := SupportedPidsFrom(base, payload);
      all := Collect(found, pids);
      forall p: byte
        ensures p in pids && p % 0x20 != 0 <==> InBlock(payload, |answers|, p)
      {
        FromBlock(payload, |answers|, base, p);
      }
      AdvertisedGrows(answers, payload, all);
    }

    /** In the middle of a walk: what was asked, read, found and handed to the sink since it began. */
    ghost predicate Walking(at: WalkStart, parts: seq<seq<CanFrame>>, answers: seq<seq<byte>>, found: set<byte>,
                            seen: seq<Seen>)
      reads this, channel
    {
      && Climbs(broadcastId, parts, primaryEcu, answers) && (answers == [] ==> primaryEcu == 0)
      && found == Advertised(answers) && supported == at.supported && channel.timeouts == at.timeouts
      && channel.now >= at.now && at.pending == Flat(parts) + channel.pending
      && channel.sent == at.sent + BlockRequests(|answers|) && channel.offered == at.offered + BlockRequests(|answers|)
      && Sunk(broadcastId, Flat(parts), seen, at.now, channel.now)
    }

    /** The walk is over, and what was asked, read and handed to the sink. */
    ghost predicate Stopped(at: WalkStart, parts: seq<seq<CanFrame>>, answers: seq<seq<byte>>, seen: seq<Seen>)
      reads this, channel
    {
      && Walked(broadcastId, parts, primaryEcu, answers) && |parts| <= 7
      && channel.now >= at.now && at.pending == Flat(parts) + channel.pending
      && channel.offered == at.offered + BlockRequests(|parts|)
      && (channel.sent == at.sent + BlockRequests(|answers|) || channel.sent == at.sent + BlockRequests(|parts|))
      && (if Finished(answers) then channel.timeouts == at.timeouts
          else GaveUp(channel.sent == at.sent + BlockRequests(|answers|), channel.timeouts == at.timeouts + 1,
                      broadcastId, if answers == [] then 0 else primaryEcu, 0x20 * |answers|, parts[|answers|]))
      && Sunk(broadcastId, Flat(parts), seen, at.now, channel.now)
    }

    /** One block of the walk: asked for and, if the ECU answered, its PIDs added to those found. */
    method WalkBlock(base: byte, found: set<byte>, seen: seq<Seen>, ghost at: WalkStart,
                     ghost parts: seq<seq<CanFrame>>, ghost answers: seq<seq<byte>>)
        returns (payload: Option<seq<byte>>, found': set<byte>, seen': seq<Seen>, ghost parts': seq<seq<CanFrame>>)
      requires Walking(at, parts, answers, found, seen) && !Finished(answers) && base as int == 0x20 * |answers|
      modifies this`primaryEcu, channel
      ensures payload.Some? ==>
                && |payload.value| >= 4 && Walking(at, parts', answers + [payload.value], found', seen')
                && found' == Advertised(answers + [payload.value])
      ensures payload.None? ==> Stopped(at, parts', answers, seen') && found' == found
    {
      hide Sunk, Advertised, NextBlockAdvertised, Replied, NoBitmap, Flat, BlockRequests, RequestFrame, FromEcu;
      hide GaveUp;
      ghost var mid, queue := channel.now, channel.pending;
      ghost var more;
      payload, seen', more := AskBlock(base);
      found', parts' := found, parts + [more];
      FlatOneMore(parts, more);
      assert at.pending == Flat(parts') + channel.pending;
      SunkConcat(broadcastId, Flat(parts), more, seen, seen', at.now, mid, channel.now);
      seen' := seen + seen';
      BlockRequestsGrow(|answers|);
      if answers == [] {
        NotYetClimbing(broadcastId, primaryEcu);
      }
      if payload.Some? {
        ClimbsOn(broadcastId, parts, primaryEcu, answers, more, payload.value);
        found' := AddBlock(found, base, payload.value, answers);
      } else {
        WalkStops(broadcastId, parts, primaryEcu, answers, more);
      }
    }

    lemma WalkBegins(at: WalkStart)
      requires at == WalkStart(channel.now, channel.pending, channel.sent, channel.offered, channel.timeouts, supported)
      requires primaryEcu == 0
      ensures Walking(at, [], [], {}, []) && IsWalk([]) && !Finished([]) && Advertised([]) == {}
    {
      NoRequestsYet();
      NotYetClimbing(broadcastId, 0);
    }

    lemma WalkEnds(at: WalkStart, parts: seq<seq<CanFrame>>, answers: seq<seq<byte>>, found: set<byte>, seen: seq<Seen>)
      requires Walking(at, parts, answers, found, seen) && Finished(answers)
      ensures Stopped(at, parts, answers, seen) && found == Advertised(answers)
    {
      hide Sunk, Advertised, NextBlockAdvertised, Flat, BlockRequests, RequestFrame, BlockAnswered;
      WalkFinishes(broadcastId, parts, primaryEcu, answers);
    }

    lemma BlocksOffered(at: WalkStart, parts: seq<seq<CanFrame>>, answers: seq<seq<byte>>, seen: seq<Seen>)
      requires Stopped(at, parts, answers, seen)
      ensures AskedBlocks(at.offered, channel.offered, |parts|)
    {
      BlocksAsked(at.offered, |parts|);
    }

    /** Walks the bitmap chain. On success the supported set is what the first ECU to answer advertised
        in the blocks it answered, up to the first block not answered; on failure it is left alone. */
    method Discover()
        returns (ok: bool, seen: seq<Seen>, ghost parts: seq<seq<CanFrame>>, ghost answers: seq<seq<byte>>)
      modifies this, channel
      ensures Stopped(WalkStart(old(channel.now), old(channel.pending), old(channel.sent), old(channel.offered),
                                old(channel.timeouts), old(supported)), parts, answers, seen)
      ensures IsWalk(answers) && (ok <==> answers != [])
      ensures supported == if ok then Advertised(answers) else old(supported)
      ensures AskedBlocks(old(channel.offered), channel.offered, |parts|)
    {
      ok, seen, parts, answers := false, [], [], [];
      hide AskedBlocks, Walking, Walked, Advertised, NextBlockAdvertised, Sunk, GaveUp, Flat, BlockRequests;
      ghost var at := WalkStart(channel.now, channel.pending, channel.sent, channel.offered,
                                     channel.timeouts, supported);
      var found: set<byte> := {};
      primaryEcu := 0;
      var base: byte := 0;
      var block := 0;
      WalkBegins(at);
      while block < 7
        invariant 0 <= block <= 7 && |answers| == block && (block < 7 ==> base as int == 0x20 * block)
        invariant supported == at.supported && IsWalk(answers) && found == Advertised(answers)
        invariant Walking(at, parts, answers, found, seen) && (block < 7 ==> !Finished(answers))
      {
        var payload;
        payload, found, seen, parts := WalkBlock(base, found, seen, at, parts, answers);
        if payload.None? {
          BlocksOffered(at, parts, answers, seen);
          if block == 0 {
            return;
          }
          break;
        }
        answers := answers + [payload.value];
        block := block + 1;
        if !NextBlockAdvertised(payload.value) {
          break;
        }
        base := (base as int + 0x20) % 0x100;
      }
      if Finished(answers) {
        WalkEnds(at, parts, answers, found, seen);
        BlocksOffered(at, parts, answers, seen);
      }
      supported := found;
      ok := true;
    }

    /** One request, decoded. An undecodable answer is reported like no answer. */
    method Query(pid: byte)
        returns (v: Option<real>, answer: Option<Response>, seen: seq<Seen>, ghost read: seq<CanFrame>)
      modifies this`primaryEcu, channel
      ensures channel.now >= old(channel.now)
      ensures old(channel.pending) == read + channel.pending
      ensures channel.offered == old(channel.offered) + [RequestFrame(pid)]
      ensures AsksFor(channel.offered[|old(channel.offered)|], pid)
      ensures Replied(broadcastId, old(primaryEcu), pid, read, answer)
      ensures channel.sent == old(channel.sent) || channel.sent == old(channel.sent) + [RequestFrame(pid)]
      ensures channel.sent == old(channel.sent) ==> answer.None? && read == []
      ensures channel.timeouts ==
              old(channel.timeouts) + if answer.None? && channel.sent != old(channel.sent) then 1 else 0
      ensures primaryEcu == if answer.None? then old(primaryEcu) else read[|read| - 1].id
      ensures v == if answer.Some? then Decode(pid, answer.value.payload) else None
      ensures old(primaryEcu) != 0 ==> primaryEcu == old(primaryEcu)
      ensures Sunk(broadcastId, read, seen, old(channel.now), channel.now)
    {
      hide Sunk, Replied, FromEcu, Decode;
      answer, seen, read := Request(pid);
      v := None;
      if answer.Some? {
        ReplyIsFromEcu(broadcastId, old(primaryEcu), read, answer.value, pid);
        v := Decode(pid, answer.value.payload);
      }
    }

    /** Waits for one frame; only a broadcast is looked at. */
    method Idle() returns (seen: seq<Seen>, ghost read: seq<CanFrame>)
      modifies channel`now, channel`pending, channel`timeouts
      ensures channel.now >= old(channel.now)
      ensures channel.timeouts == old(channel.timeouts) + if read == [] then 1 else 0
      ensures |read| <= 1 && old(channel.pending) == read + channel.pending
      ensures Sunk(broadcastId, read, seen, old(channel.now), channel.now)
    {
      seen, read := [], [];
      var f := channel.Receive();
      if f.Some? {
        read := [f.value];
        assert read[..0] == [];
        if broadcastId >= 0 && f.value.id == broadcastId {
          var t := channel.ReadClock();
          seen := [Seen(f.value, t)];
        }
      }
    }
  }
}
