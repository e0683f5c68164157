/** Runs that show where the code parts from its documentation, and that the proved bounds are attained. */
module Departures {
  import opened BitMasks
  import opened Contract
  import opened EndToEnd
  import opened J1979
  import opened J1979Client
  import opened Mapping
  import opened Obd2Ice
  import opened Options
  import opened Poller
  import opened Provenance
  import opened Publisher
  import opened PublisherRuns
  import opened Session
  import opened SessionLaws
  import opened Vehicle
  import opened WireHonesty

  // ---------------------------------------------------------------- a vehicle with one PID

  lemma {:induction false} OneItem(q: nat, fastMs: int, n: nat)
    requires q < |WANTED| && n <= |WANTED|
    ensures ScheduleUpTo({WANTED[q].0}, fastMs, n) ==
            if n > q then [Item(WANTED[q].0, fastMs * WANTED[q].1, 0, -1)] else []
  {
    if n > 0 {
      OneItem(q, fastMs, n - 1);
      DistinctWanted(q, n - 1);
    }
  }

  lemma DistinctWanted(a: nat, b: nat)
    requires a < |WANTED| && b < |WANTED|
    ensures WANTED[a].0 == WANTED[b].0 <==> a == b
  {
  }

  /** A turn in which the clock reads `at` throughout, but for the host's stamp. */
  function Turn(at: Nanos, later: Nanos, stamp: Nanos, found: Option<set<byte>>, answer: Option<Response>): Input {
    Input(at, [], found, at, [], answer, later, later, later, later, stamp, stamp)
  }

  /** One request to the only PID: what each outcome does to the session. */
  lemma OnlyPid(s: Session, it: Item, in_: Input)
    requires s.items == [it] && it.due <= Ms(in_.nowAt) && in_.pollSeen == []
    ensures Due(s, in_) == Some(it.pid)
    ensures var asked := s.(items := [it.(due := Ms(in_.nowAt) + it.interval)], unanswered := s.unanswered + 1);
            var v := ReadValue(it.pid, in_);
            Poll(s, in_) ==
            if v.Some? then (if Plausible(it.pid, v.value) then Accepted(asked, it.pid, v.value, in_.answerAt)
                             else Dropped(asked, it.pid), false)
            else if s.unanswered + 1 >= 5 then (asked.(discovered := false), true) else (asked, false)
  {
    hide Decode, Plausible, Accepted, Dropped;
    assert s.items[..0] == [];
    assert s.items[0 := it.(due := Ms(in_.nowAt) + it.interval)] == [it.(due := Ms(in_.nowAt) + it.interval)];
  }

  lemma AnsweredOne(it: Item, now: int)
    ensures Answered([it], it.pid, now) == [it.(lastAnswer := now)]
  {
  }

  lemma TimelyGrows(inputs: seq<Input>, in_: Input)
    requires Timely(inputs) && in_.nowAt >= 0 && Clocked(in_, in_.nowAt, in_.rearmAt)
    requires inputs != [] ==> inputs[|inputs| - 1].rearmAt <= in_.nowAt
    ensures Timely(inputs + [in_])
  {
    hide Clocked;
  }

  // ---------------------------------------------------------------- five requests without an accepted answer

  const VOLTAGE := 4

  /** The session after `n` unanswered requests for the module voltage, its only PID. */
  function Failed(ice: IceConfig, n: nat): Session {
    Session(true, {PID_MODULE_VOLTAGE}, [Item(PID_MODULE_VOLTAGE, 20 * ice.fastMs, n * (20 * ice.fastMs), -1)], n,
            map[], 0, -1, if n == 0 then 0 else (n - 1) * (20 * ice.fastMs) + 50)
  }

  function RequestAt(ice: IceConfig, n: nat): Nanos { n * (20 * ice.fastMs) * MS }

  function FailingTurns(ice: IceConfig, n: nat): seq<Input> {
    if n == 0 then []
    else
      var at := RequestAt(ice, n - 1);
      FailingTurns(ice, n - 1) + [Turn(at, at, at, if n == 1 then Some({PID_MODULE_VOLTAGE}) else None, None)]
  }

  lemma FailOnce(ice: IceConfig, n: nat)
    requires ValidConfig(ice) && n < 4
    ensures var in_ := Turn(RequestAt(ice, n), RequestAt(ice, n), RequestAt(ice, n), None, None);
            PollTurn(ice, Failed(ice, n), in_).0 == Failed(ice, n + 1)
  {
    hide StateOf;
    var s, step := Failed(ice, n), 20 * ice.fastMs;
    var in_ := Turn(RequestAt(ice, n), RequestAt(ice, n), RequestAt(ice, n), None, None);
    Whole(n * step);
    OnlyPid(s, s.items[0], in_);
    assert (n + 1) * step == n * step + step;
    assert n > 0 ==> n * step == (n - 1) * step + step;
  }

  lemma Whole(ms: int)
    ensures Ms(ms * MS) == ms
  {
  }

  lemma FirstFailure(ice: IceConfig)
    requires ValidConfig(ice)
    ensures var in_ := Turn(0, 0, 0, Some({PID_MODULE_VOLTAGE}), None);
            Iterate(ice, FRESH_SESSION, in_).0 == Failed(ice, 1)
  {
    hide PollTurn, ScheduleUpTo;
    OneItem(VOLTAGE, ice.fastMs, |WANTED|);
    FailOnce(ice, 0);
    FoundDoesNotMatter(ice, Failed(ice, 0), 0, Some({PID_MODULE_VOLTAGE}));
    assert Rediscovered(ice, Watched(FRESH_SESSION, []), {PID_MODULE_VOLTAGE}) == Failed(ice, 0);
  }

  lemma {:induction false} FailingRun(ice: IceConfig, n: nat)
    requires ValidConfig(ice) && 0 < n <= 4
    ensures var turns := FailingTurns(ice, n);
            && |turns| == n && SessionRun(ice, turns) == Failed(ice, n)
            && Timely(turns) && turns[n - 1].rearmAt == RequestAt(ice, n - 1)
  {
    hide Iterate, PollTurn, SessionRun, Timely, Calls;
    var early, at := FailingTurns(ice, n - 1), RequestAt(ice, n - 1);
    var in_ := Turn(at, at, at, if n == 1 then Some({PID_MODULE_VOLTAGE}) else None, None);
    assert FailingTurns(ice, n) == early + [in_];
    RunGrows(ice, early, in_);
    if n == 1 {
      FirstFailure(ice);
      EmptyRun(ice, -1, 0);
      NoTurns();
    } else {
      FailingRun(ice, n - 1);
      FailOnce(ice, n - 1);
      PollsWhenFound(ice, Failed(ice, n - 1), in_);
    }
    TimelyGrows(early, in_);
  }

  lemma NoTurns()
    ensures Timely([])
  {
  }

  lemma PollsWhenFound(ice: IceConfig, s: Session, in_: Input)
    requires s.discovered
    ensures Iterate(ice, s, in_) == PollTurn(ice, s, in_)
  {
  }

  lemma FoundDoesNotMatter(ice: IceConfig, s: Session, at: Nanos, found: Option<set<byte>>)
    ensures PollTurn(ice, s, Turn(at, at, at, found, None)) == PollTurn(ice, s, Turn(at, at, at, None, None))
  {
    hide StateOf, Accepted, Dropped, Requested;
  }

  /** Five requests in a row without an accepted answer need not end the link: when the fifth brings a filler,
      the streak is five and the link is still up. */
  lemma FiveUnansweredKeepTheLink(ice: IceConfig) returns (inputs: seq<Input>)
    requires ValidConfig(ice)
    ensures |inputs| == 5 && Timely(inputs)
    ensures Trailing(History(ice, inputs)) == 5 && LinkAfter(false, Calls(ice, inputs)) == Some(true)
  {
    hide Calls, History, Tracks, SessionRun, Iterate, Timely, FailingTurns;
    FailingRun(ice, 4);
    var early, at := FailingTurns(ice, 4), RequestAt(ice, 4);
    var last := Turn(at, at, at, None, Some(Response(0x41, PID_MODULE_VOLTAGE, [0, 0])));
    inputs := early + [last];
    RunGrows(ice, early, last);
    TimelyGrows(early, last);
    Whole(4 * (20 * ice.fastMs));
    FillerFifth(ice, last);
    LinkProtocol(ice, inputs);
    TimelyFromZero(inputs);
    TracksAlways(ice, inputs);
    StreakIs(SessionRun(ice, inputs), History(ice, inputs));
  }

  lemma StreakIs(s: Session, log: seq<Outcome>)
    requires Tracks(s, log)
    ensures s.unanswered == Trailing(log)
  {
  }

  lemma FillerFifth(ice: IceConfig, in_: Input)
    requires ValidConfig(ice) && in_.answer == Some(Response(0x41, PID_MODULE_VOLTAGE, [0, 0])) && in_.pollSeen == []
    requires Ms(in_.nowAt) == 4 * (20 * ice.fastMs)
    ensures var s' := Iterate(ice, Failed(ice, 4), in_).0; s'.unanswered == 5 && s'.discovered
  {
    hide StateOf;
    OnlyPid(Failed(ice, 4), Failed(ice, 4).items[0], in_);
    assert Word16([0, 0]) == 0;
  }

  // ---------------------------------------------------------------- the age bound is attained

  /** Speed is found and answered at time zero; the next request fails and its turn ends a nanosecond short of
      one millisecond after three intervals, when the value is published. */
  function OldestSpeed(ice: IceConfig, delay: Nanos): seq<Input> {
    var at, later := 2 * ice.fastMs * MS, (3 * ice.fastMs + 1) * MS - 1;
    [Turn(0, 0, 0, Some({PID_SPEED}), Some(Response(0x41, PID_SPEED, [50]))),
     Turn(at, later, later + delay, None, None)]
  }

  function SpeedHeld(ice: IceConfig): Session {
    Session(true, {PID_SPEED}, [Item(PID_SPEED, ice.fastMs, ice.fastMs, 0)], 0, map[PID_SPEED := 50.0], 0, -1, 50)
  }

  lemma FirstTurn(ice: IceConfig)
    requires ValidConfig(ice)
    ensures var in_ := OldestSpeed(ice, 0)[0];
            Iterate(ice, FRESH_SESSION, in_) ==
            (SpeedHeld(ice), [SetLink(true, 0), Publish(StateOf(ice, SpeedHeld(ice).(nextPublish := 0), 0), 0, 0)])
  {
    hide StateOf, ScheduleUpTo;
    OneItem(0, ice.fastMs, |WANTED|);
    var s, in_ := Rediscovered(ice, Watched(FRESH_SESSION, []), {PID_SPEED}), OldestSpeed(ice, 0)[0];
    OnlyPid(s, Item(PID_SPEED, ice.fastMs, 0, -1), in_);
    assert ReadValue(PID_SPEED, in_) == Some(50.0);
    AnsweredOne(Item(PID_SPEED, ice.fastMs, ice.fastMs, -1), 0);
    assert Poll(s, in_) == (SpeedHeld(ice).(nextPublish := 0), false);
    var c := Publish(StateOf(ice, SpeedHeld(ice).(nextPublish := 0), 0), 0, 0);
    assert PollTurn(ice, s, in_) == (SpeedHeld(ice), [c]);
    assert [SetLink(true, 0)] + [c] == [SetLink(true, 0), c];
  }

  lemma SecondTurn(ice: IceConfig, delay: Nanos)
    requires ValidConfig(ice)
    ensures var in_ := OldestSpeed(ice, delay)[1];
            var s' := Iterate(ice, SpeedHeld(ice), in_).0;
            && Iterate(ice, SpeedHeld(ice), in_).1 ==
               [Publish(StateOf(ice, s', 3 * ice.fastMs), in_.sampledAt, in_.publishAt)]
            && Current(s', PID_SPEED, 3 * ice.fastMs) && s'.discovered
  {
    hide StateOf;
    var s, in_ := SpeedHeld(ice), OldestSpeed(ice, delay)[1];
    Whole(2 * ice.fastMs);
    assert Ms(in_.sampledAt) == 3 * ice.fastMs;
    OnlyPid(s, s.items[0], in_);
    StateUnseen(ice, Poll(s, in_).0, Ms(in_.rearmAt) + 50, 3 * ice.fastMs);
  }

  lemma TwoTurns(ice: IceConfig, a: Input, b: Input)
    ensures SessionRun(ice, [a]) == Iterate(ice, FRESH_SESSION, a).0
    ensures SessionRun(ice, [a, b]) == Iterate(ice, SessionRun(ice, [a]), b).0
    ensures Calls(ice, [a, b]) == Iterate(ice, FRESH_SESSION, a).1 + Iterate(ice, SessionRun(ice, [a]), b).1
  {
    hide Iterate;
    assert [] + [a] == [a] && [a] + [b] == [a, b];
    RunGrows(ice, [], a);
    RunGrows(ice, [a], b);
    assert [] + Iterate(ice, FRESH_SESSION, a).1 == Iterate(ice, FRESH_SESSION, a).1;
  }

  /** A value can be published as valid when it is older than its three intervals. */
  lemma ValidBeyondThreeIntervals(ice: IceConfig, delay: Nanos) returns (inputs: seq<Input>, c: HostCall)
    requires ValidConfig(ice) && delay >= 0
    ensures inputs == OldestSpeed(ice, delay) && Timely(inputs)
    ensures Calls(ice, inputs) ==
            [SetLink(true, 0), Publish(StateOf(ice, SpeedHeld(ice).(nextPublish := 0), 0), 0, 0), c]
    ensures c.Publish? && Set(c.state.valid, SIG_SPEED) && Set(c.state.capable, SIG_SPEED)
    ensures c.at == c.sampledAt + delay
    ensures Accepts(ice, FRESH_SESSION, inputs[0], PID_SPEED) && inputs[0].answerAt == 0
    ensures c.sampledAt - inputs[0].answerAt == (3 * ice.fastMs + 1) * MS - 1 > 3 * ice.fastMs * MS
  {
    hide StateOf, Iterate, Current;
    inputs := OldestSpeed(ice, delay);
    FirstTurn(ice);
    SecondTurn(ice, delay);
    TwoTurns(ice, inputs[0], inputs[1]);
    var s' := Iterate(ice, SpeedHeld(ice), inputs[1]).0;
    c := Publish(StateOf(ice, s', 3 * ice.fastMs), inputs[1].sampledAt, inputs[1].publishAt);
    PublishedBits(ice, s', 3 * ice.fastMs, SIG_SPEED);
    SpeedAccepted(ice);
  }

  lemma SpeedAccepted(ice: IceConfig)
    ensures Accepts(ice, FRESH_SESSION, OldestSpeed(ice, 0)[0], PID_SPEED)
  {
    OneItem(0, ice.fastMs, |WANTED|);
    var s := Rediscovered(ice, Watched(FRESH_SESSION, []), {PID_SPEED});
    OnlyPid(s, Item(PID_SPEED, ice.fastMs, 0, -1), OldestSpeed(ice, 0)[0]);
  }

  // ---------------------------------------------------------------- the same run, frame by frame

  const ECU := 0x7E8
  const SPEED_ONLY: seq<byte> := [0x00, 0x08, 0x00, 0x00]

  function BitmapFrame(): CanFrame { CanFrame(ECU, 8, [0x06, 0x41, 0x00, 0x00, 0x08, 0x00, 0x00, 0x00]) }

  function SpeedFrame(): CanFrame { CanFrame(ECU, 8, [0x03, 0x41, 0x0D, 50, 0x00, 0x00, 0x00, 0x00]) }

  function SpeedRequest(): CanFrame { RequestFrame(PID_SPEED) }

  /** The two frames one ECU sends in the first turn; it is silent in the second. */
  function SpeedTraffic(): seq<Traffic> {
    [Traffic(Exchange([RequestFrame(0)], [BitmapFrame()]), Exchange([SpeedRequest()], [SpeedFrame()]), ECU),
     Traffic(NOTHING_ASKED, Exchange([SpeedRequest()], []), ECU)]
  }

  lemma FramesParse()
    ensures ParseSingleFrame(BitmapFrame().data, 8) == Some(Response(0x41, 0x00, SPEED_ONLY))
    ensures ParseSingleFrame(SpeedFrame().data, 8) == Some(Response(0x41, PID_SPEED, [50]))
  {
    assert BitmapFrame().data[3..7] == SPEED_ONLY;
    assert SpeedFrame().data[3..4] == [50];
  }

  lemma OnlySpeedBit(n: nat)
    requires 1 <= n <= 32
    ensures BitmapBit(SPEED_ONLY, n) <==> n == 13
  {
    var i := 7 - (n - 1) % 8;
    ZeroHasNoBits(i);
    assert With(0, 3) == 8;
    SetWith(0, 3, i);
  }

  lemma SpeedAdvertised()
    ensures Advertised([SPEED_ONLY]) == {PID_SPEED}
  {
    hide BitmapBit;
    forall p: byte
      ensures p in Advertised([SPEED_ONLY]) <==> p == PID_SPEED
    {
      if p < 0x20 && p != 0 {
        OnlySpeedBit(p as int);
      }
    }
  }

  lemma SpeedWalk()
    ensures Advertises(-1, SpeedTraffic()[0].walk, ECU, Some({PID_SPEED}))
  {
    hide BitmapBit, ParseSingleFrame, Advertised, RequestFrame;
    FramesParse();
    SpeedAdvertised();
    var parts, answers := [[BitmapFrame()]], [SPEED_ONLY];
    assert parts[..1] == parts && parts[..0] == [] && Flat(parts) == [] + [BitmapFrame()];
    assert BlockAnswered(-1, 0, 0, parts[0], ECU, answers[0]);
    assert Walked(-1, parts, ECU, answers);
    assert SpeedTraffic()[0].walk == Exchange(BlockRequests(|parts|), Flat(parts));
  }

  lemma SpeedReply()
    ensures Replied(-1, ECU, PID_SPEED, [SpeedFrame()], Some(Response(0x41, PID_SPEED, [50])))
    ensures Replied(-1, ECU, PID_SPEED, [], None)
    ensures Broadcasts(-1, [BitmapFrame()] + [SpeedFrame()]) == [] && Broadcasts(-1, [] + []) == []
  {
    hide ParseSingleFrame;
    FramesParse();
    var read := [BitmapFrame()] + [SpeedFrame()];
    assert read[..1] == [BitmapFrame()] && [BitmapFrame()][..0] == [];
    assert Broadcasts(-1, [BitmapFrame()]) == [];
  }

  lemma FirstTurnHeard(ice: IceConfig)
    requires ValidConfig(ice)
    ensures Heard(ice, -1, FRESH_SESSION, OldestSpeed(ice, 0)[0], SpeedTraffic()[0])
  {
    hide Advertises, ParseSingleFrame, ScheduleUpTo, Due, Replied, RequestFrame, Broadcasts;
    OneItem(0, ice.fastMs, |WANTED|);
    var ready, in_ := Rediscovered(ice, Watched(FRESH_SESSION, []), {PID_SPEED}), OldestSpeed(ice, 0)[0];
    OnlyPid(ready, Item(PID_SPEED, ice.fastMs, 0, -1), in_);
    SpeedReply();
    SpeedWalk();
  }

  lemma SecondTurnHeard(ice: IceConfig, delay: Nanos)
    requires ValidConfig(ice)
    ensures Heard(ice, -1, SpeedHeld(ice), OldestSpeed(ice, delay)[1], SpeedTraffic()[1])
  {
    hide Advertises, Due, Replied, RequestFrame, Broadcasts;
    Whole(2 * ice.fastMs);
    OnlyPid(SpeedHeld(ice), SpeedHeld(ice).items[0], OldestSpeed(ice, delay)[1]);
    SpeedReply();
  }

  /** The run needs no more of the bus than these frames. */
  lemma SpeedHeard(ice: IceConfig, delay: Nanos)
    requires ValidConfig(ice)
    ensures AllHeard(ice, -1, OldestSpeed(ice, delay), SpeedTraffic())
  {
    hide Iterate, SessionRun, Heard, SpeedHeld;
    var inputs := OldestSpeed(ice, delay);
    assert inputs[..0] == [] && inputs[..1] == [inputs[0]];
    FirstTurn(ice);
    EmptyRun(ice, -1, 0);
    RunGrows(ice, [], inputs[0]);
    assert [] + [inputs[0]] == [inputs[0]];
    FirstTurnHeard(ice);
    SecondTurnHeard(ice, delay);
  }

  // ---------------------------------------------------------------- the end-to-end bound is attained

  lemma {:induction false} SendsHas(slots: seq<Slot>, f: Frames, now: Nanos, i: nat)
    requires i < |slots| && slots[i].due <= now && slots[i].id != ID_ASSIST
    ensures Emission(now, slots[i].id, FrameFor(f, slots[i].id)) in Sends(slots, f, now)
  {
    hide FrameFor;
    if i < |slots| - 1 {
      SendsHas(slots[..|slots| - 1], f, now, i);
    }
  }

  /** A run of store calls followed by one tick late enough for slot i. */
  lemma TickSends(cfg: Config, w: World, es: seq<Event>, at: Nanos, i: nat) returns (e: Emission)
    requires ValidSlots(w.pub.slots) && w.pub.armed && i < FRAME_COUNT && ORDER[i] != ID_ASSIST
    requires (forall k :: 0 <= k < |es| ==> !es[k].TickEv?) && w.pub.slots[i].due <= at
    ensures var p := Run(cfg, w, es);
            e == Emission(at, ORDER[i], FrameFor(FramesAt(cfg, p.store, at, p.pub.counter), ORDER[i]))
    ensures SentBy(cfg, w, es + [TickEv(at)], |es|, e)
  {
    hide FrameFor, FramesAt;
    assert (es + [TickEv(at)])[..|es|] == es;
    PublisherWaits(cfg, w, es);
    var p := Run(cfg, w, es);
    SendsHas(p.pub.slots, FramesAt(cfg, p.store, at, p.pub.counter), at, i);
    e := Emission(at, ORDER[i], FrameFor(FramesAt(cfg, p.store, at, p.pub.counter), ORDER[i]));
  }

  lemma {:induction false} PublisherWaits(cfg: Config, w: World, es: seq<Event>)
    requires ValidSlots(w.pub.slots) && forall k :: 0 <= k < |es| ==> !es[k].TickEv?
    ensures Run(cfg, w, es).pub == w.pub
  {
    hide Tick;
    if es != [] {
      PublisherWaits(cfg, w, es[..|es| - 1]);
    }
  }

  lemma TwoCalls(cfg: Config, w: World, a: Event, b: Event)
    requires ValidSlots(w.pub.slots) && a.LinkEv? && b.PublishEv?
    ensures Run(cfg, w, [a, b]).store == Published(Linked(w.store, a.present), b.state, b.at)
  {
    hide Tick;
    assert [a][..0] == [] && [a, b][..1] == [a];
    assert Run(cfg, w, [a]) == Step(cfg, w, a);
  }

  lemma ThreeCalls(cfg: Config, w: World, a: Event, b: Event, c: Event)
    requires ValidSlots(w.pub.slots) && a.LinkEv? && b.PublishEv? && c.PublishEv?
    ensures Run(cfg, w, [a, b, c]).store ==
            Published(Published(Linked(w.store, a.present), b.state, b.at), c.state, c.at)
  {
    hide Tick;
    assert [a, b, c][..2] == [a, b];
    TwoCalls(cfg, w, a, b);
  }

  lemma NoTicks(a: Event, b: Event, c: Event, at: Nanos)
    requires !a.TickEv? && !b.TickEv? && !c.TickEv?
    ensures HostEvents([a, b, c, TickEv(at)]) == [a, b, c]
  {
    assert [a][..0] == [] && [a, b][..1] == [a] && [a, b, c][..2] == [a, b];
    assert [a, b, c, TickEv(at)][..3] == [a, b, c];
    assert HostEvents([a]) == [a];
    assert HostEvents([a, b]) == [a, b];
    assert HostEvents([a, b, c]) == [a, b, c];
  }

  /** The end-to-end age bound cannot be improved: for every plugin timeout, poll period and stamping delay,
      and any publisher whose motion frame is due in time, there is a run in which a speed decodes as valid
      from a frame sent one nanosecond short of the bound after the only answer was accepted. The run meets
      every premise of the end-to-end theorem, down to the frames on the vehicle bus. */
  lemma {:induction false} AgeBoundIsAttained(cfg: Config, ice: IceConfig, delay: Nanos, w: World)
      returns (inputs: seq<Input>, es: seq<Event>, e: Emission)
    requires ValidConfig(ice) && delay >= 0 && cfg.timeout >= 0
    requires ValidSlots(w.pub.slots) && w.pub.armed && w.store == NOTHING_YET && w.pub.slots[2].due <= cfg.timeout
    ensures Timely(inputs) && ClockSorted(es) && Interleaves(es, Calls(ice, inputs)) && |inputs| == 2
    ensures |es| == 4 && SentBy(cfg, w, es, 3, e) && e.id == CarrierOf(SIG_SPEED) && DecodesValid(SIG_SPEED, e.data)
    ensures Accepts(ice, FRESH_SESSION, inputs[0], PID_SPEED) && inputs[1].answer.None? && Stamping(inputs[1]) == delay
    ensures AllHeard(ice, -1, inputs, SpeedTraffic())
    ensures e.at - inputs[0].answerAt == cfg.timeout + delay + (3 * ice.fastMs * TierOf(PID_SPEED) + 1) * MS - 1
  {
    hide StateOf, Calls, DecodesValid, FrameFor, FramesAt, SentBy, Run, Accepts, AllFresh, Set, HostEvents, AllHeard;
    hide SpeedTraffic, Clocked;
    var c;
    inputs, c := ValidBeyondThreeIntervals(ice, delay);
    SpeedHeard(ice, delay);
    var at := c.at + cfg.timeout;
    var calls := Calls(ice, inputs);
    var hosts := [ToEvent(calls[0]), ToEvent(calls[1]), ToEvent(calls[2])];
    es := hosts + [TickEv(at)];
    assert es == [hosts[0], hosts[1], hosts[2], TickEv(at)];
    NoTicks(hosts[0], hosts[1], hosts[2], at);
    ThreeCalls(cfg, w, hosts[0], hosts[1], hosts[2]);
    e := TickSends(cfg, w, hosts, at, 2);
    var p := Run(cfg, w, hosts);
    SpeedShows(cfg, p.store, at, p.pub.counter);
  }

  lemma SpeedShows(cfg: Config, snap: Snapshot, at: Nanos, counter: byte)
    requires Derive(snap, at, cfg.timeout).live && Set(snap.state.valid, SIG_SPEED) && Set(snap.state.capable, SIG_SPEED)
    ensures DecodesValid(SIG_SPEED, FrameFor(FramesAt(cfg, snap, at, counter), ID_MOTION))
  {
    hide DecodesValid, FrameFor, FramesFrom, AllFresh, Set;
    var d := Derive(snap, at, cfg.timeout);
    ValidOnWireExactlyWhen(snap.state, true, d.proxyState, counter, cfg.major, cfg.minor, SIG_SPEED);
  }

  /** A vehicle that announces its speed, and the speed is known. */
  const SPEED_KNOWN: VehicleState := BLANK.(capable := 1, valid := 1, speedKmh := 50.0)

  lemma SpeedIsKnown()
    ensures Set(SPEED_KNOWN.capable, SIG_SPEED) && AllFresh(SPEED_KNOWN)
  {
  }

  /** Stale signals are not needed for a degraded heartbeat: after a silence longer than the timeout it is
      sent although the signal announced by the last publish was valid. */
  lemma SilenceAloneDegrades(cfg: Config, w: World, at: Nanos) returns (es: seq<Event>, e: Emission)
    requires ValidSlots(w.pub.slots) && w.pub.armed && w.store == NOTHING_YET
    requires w.pub.slots[0].due <= at && 0 <= cfg.timeout < at
    ensures es == [LinkEv(true, 0), PublishEv(SPEED_KNOWN, 0), TickEv(at)]
    ensures Set(SPEED_KNOWN.capable, SIG_SPEED) && AllFresh(SPEED_KNOWN)
    ensures SentBy(cfg, w, es, 2, e) && e.data[3] == 2
  {
    hide FrameFor, SentBy, Run, FramesAt, AllFresh, Set;
    var hosts := [LinkEv(true, 0), PublishEv(SPEED_KNOWN, 0)];
    es := hosts + [TickEv(at)];
    SpeedIsKnown();
    TwoCalls(cfg, w, hosts[0], hosts[1]);
    e := TickSends(cfg, w, hosts, at, 0);
    var p := Run(cfg, w, hosts);
    StatusShowsDerived(cfg, p.store, at, p.pub.counter);
  }
}
