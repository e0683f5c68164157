/** Whole runs of the publisher against a store that a plugin thread keeps changing. The mutex
    makes publish, set_link and tick atomic, so a run is any sequence of those three events. */
module PublisherRuns {
  import opened BitMasks
  import opened Contract
  import opened Mapping
  import opened Options
  import opened Publisher
  import opened Schedule
  import opened Vehicle
  import opened WireHonesty

  datatype Event =
    | PublishEv(state: VehicleState, at: Nanos)
    | LinkEv(present: bool, at: Nanos)
    | TickEv(at: Nanos)

  datatype World = World(store: Snapshot, pub: PubState, trace: seq<Emission>)

  function Step(cfg: Config, w: World, e: Event): (w': World)
    requires ValidSlots(w.pub.slots)
    ensures ValidSlots(w'.pub.slots)
  {
    match e
    case PublishEv(s, at) => w.(store := Published(w.store, s, at))
    case LinkEv(present, at) => w.(store := Linked(w.store, present))
    case TickEv(at) =>
      var (pub, sent) := Tick(cfg, w.pub, w.store, at);
      World(w.store, pub, w.trace + sent)
  }

  function Run(cfg: Config, w: World, es: seq<Event>): (w': World)
    requires ValidSlots(w.pub.slots)
    ensures ValidSlots(w'.pub.slots)
  {
    if es == [] then w else Step(cfg, Run(cfg, w, es[..|es| - 1]), es[|es| - 1])
  }

  function Ticks(es: seq<Event>): seq<Nanos> {
    if es == [] then []
    else Ticks(es[..|es| - 1]) + (if es[|es| - 1].TickEv? then [es[|es| - 1].at] else [])
  }

  predicate ClockSorted(es: seq<Event>) {
    forall i, j :: 0 <= i <= j < |es| ==> es[i].at <= es[j].at
  }

  lemma {:induction false} TicksSorted(es: seq<Event>)
    requires ClockSorted(es)
    ensures Sorted(Ticks(es))
    ensures es != [] ==> forall k :: 0 <= k < |Ticks(es)| ==> Ticks(es)[k] <= es[|es| - 1].at
  {
    if es != [] {
      TicksSorted(es[..|es| - 1]);
    }
  }

  /** Every tick of the run comes at most `late` after the deadline the previous tick returned. */
  ghost predicate OnTime(cfg: Config, w: World, es: seq<Event>, late: Nanos)
    requires ValidSlots(w.pub.slots)
  {
    forall k :: 0 <= k < |es| && es[k].TickEv? ==> es[k].at <= MinDue(Run(cfg, w, es[..k]).pub.slots) + late
  }

  /** A publisher just armed at `a` with nothing sent. */
  predicate ArmedAt(w: World, a: Nanos) {
    && ValidSlots(w.pub.slots) && w.pub.armed && w.pub.counter == 0 && w.trace == []
    && forall i :: 0 <= i < FRAME_COUNT ==> w.pub.slots[i].due == a
  }

  // ---------------------------------------------------------------- what one identifier carried

  function Sent(trace: seq<Emission>, id: int): seq<Emission> {
    if trace == [] then []
    else Sent(trace[..|trace| - 1], id) + (if trace[|trace| - 1].id == id then [trace[|trace| - 1]] else [])
  }

  function Times(s: seq<Emission>): seq<Nanos> {
    seq(|s|, i requires 0 <= i < |s| => s[i].at)
  }

  lemma {:induction false} SentConcat(a: seq<Emission>, b: seq<Emission>, id: int)
    ensures Sent(a + b, id) == Sent(a, id) + Sent(b, id)
  {
    if b == [] {
      assert a + b == a;
    } else {
      assert (a + b)[..|a + b| - 1] == a + b[..|b| - 1];
      SentConcat(a, b[..|b| - 1], id);
    }
  }

  lemma {:induction false} SentMember(trace: seq<Emission>, id: int, k: nat)
    requires k < |Sent(trace, id)|
    ensures Sent(trace, id)[k] in trace && Sent(trace, id)[k].id == id
  {
    var early := trace[..|trace| - 1];
    if k < |Sent(early, id)| {
      SentMember(early, id, k);
    }
  }

  /** One tick sends at most one frame per identifier, the one its slot asks for. */
  lemma {:induction false} SendsOf(slots: seq<Slot>, f: Frames, now: Nanos, n: nat, i: nat)
    requires ValidSlots(slots) && n <= FRAME_COUNT && i < FRAME_COUNT
    ensures Sent(Sends(slots[..n], f, now), ORDER[i]) == if i < n then SendOf(slots[i], f, now) else []
  {
    hide FrameFor, SendOf, Sent;
    if n > 0 {
      SendsOf(slots, f, now, n - 1, i);
      SendsGrow(slots, f, now, n);
      SentConcat(Sends(slots[..n - 1], f, now), SendOf(slots[n - 1], f, now), ORDER[i]);
      SentOfSend(slots[n - 1], f, now, ORDER[i]);
      OrderDistinct(i, n - 1);
      hide Sends, ORDER;
    } else {
      NothingSent(ORDER[i]);
    }
  }

  lemma NothingSent(id: int)
    ensures Sent([], id) == []
  {
  }

  lemma SentOfSend(s: Slot, f: Frames, now: Nanos, id: int)
    ensures Sent(SendOf(s, f, now), id) == if s.id == id then SendOf(s, f, now) else []
  {
    hide FrameFor;
    var e := SendOf(s, f, now);
    if e != [] { assert e[..0] == []; }
  }

  lemma OrderDistinct(i: nat, j: nat)
    requires i < FRAME_COUNT && j < FRAME_COUNT
    ensures ORDER[i] == ORDER[j] <==> i == j
  {
  }

  /** The optional frame is announced in the state the store holds. */
  predicate AssistAnnounced(w: World) {
    Set(Capabilities(w.store.state.capable), CAP_ASSIST)
  }

  /** Slot i is published throughout the run: eight always are, the assist frame while announced. */
  ghost predicate AlwaysPublished(cfg: Config, w: World, es: seq<Event>, i: nat)
    requires ValidSlots(w.pub.slots)
  {
    i < 8 || forall k :: 0 <= k <= |es| ==> AssistAnnounced(Run(cfg, w, es[..k]))
  }

  /** One event seen from one slot: only a tick moves it, and then it fires and sends on its own. */
  lemma StepOfSlot(cfg: Config, w: World, e: Event, i: nat)
    requires ValidSlots(w.pub.slots) && w.pub.armed && i < FRAME_COUNT
    ensures var w', s := Step(cfg, w, e), w.pub.slots[i];
            && w'.pub.armed
            && w'.pub.slots[i] == (if e.TickEv? then Fire(s, e.at) else s)
            && Sent(w'.trace, ORDER[i]) == Sent(w.trace, ORDER[i])
                 + (if e.TickEv? then SendOf(s, FramesAt(cfg, w.store, e.at, w.pub.counter), e.at) else [])
  {
    hide FrameFor, FramesAt, Derive, Published, Linked;
    assert w.pub.slots[..FRAME_COUNT] == w.pub.slots;
    if e.TickEv? {
      SendsOf(w.pub.slots, FramesAt(cfg, w.store, e.at, w.pub.counter), e.at, FRAME_COUNT, i);
      SentConcat(w.trace, Tick(cfg, w.pub, w.store, e.at).1, ORDER[i]);
    }
  }

  /** However late a tick comes it sends each frame at most once. */
  lemma OncePerTick(cfg: Config, w: World, now: Nanos, i: nat)
    requires ValidSlots(w.pub.slots) && w.pub.armed && i < FRAME_COUNT
    ensures |Sent(Step(cfg, w, TickEv(now)).trace, ORDER[i])| <= |Sent(w.trace, ORDER[i])| + 1
  {
    hide FrameFor, FramesAt, Step;
    StepOfSlot(cfg, w, TickEv(now), i);
  }

  /** A published slot's share of a tick is one frame at its firing. */
  lemma PublishedSend(cfg: Config, w: World, now: Nanos, i: nat)
    requires ValidSlots(w.pub.slots) && i < FRAME_COUNT && (i < 8 || AssistAnnounced(w))
    ensures var s := w.pub.slots[i];
            Times(SendOf(s, FramesAt(cfg, w.store, now, w.pub.counter), now)) == if now < s.due then [] else [now]
  {
    hide FrameFor, Derive;
  }

  /** Each slot of the real schedule follows the single-slot schedule, whatever the plugin does. */
  lemma {:induction false} SlotFollowsSchedule(cfg: Config, w: World, es: seq<Event>, i: nat)
    requires ValidSlots(w.pub.slots) && w.pub.armed && i < FRAME_COUNT
    ensures var r, s := Run(cfg, w, es), w.pub.slots[i];
            r.pub.armed && r.pub.slots[i] == s.(due := DueAfter(s.due, s.cycle, Ticks(es)))
  {
    hide Step;
    if es != [] {
      var early, last := es[..|es| - 1], es[|es| - 1];
      SlotFollowsSchedule(cfg, w, early, i);
      StepOfSlot(cfg, Run(cfg, w, early), last, i);
      OneMoreTick(w.pub.slots[i].due, w.pub.slots[i].cycle, Ticks(early), last.at);
      assert Ticks(es) == if last.TickEv? then Ticks(early) + [last.at] else Ticks(early);
    }
  }

  /** The bus carries a published frame exactly at its slot's firings. */
  lemma {:induction false} SentAtFirings(cfg: Config, w: World, es: seq<Event>, i: nat)
    requires ValidSlots(w.pub.slots) && w.pub.armed && w.trace == [] && i < FRAME_COUNT
    requires AlwaysPublished(cfg, w, es, i)
    ensures var s := w.pub.slots[i];
            Times(Sent(Run(cfg, w, es).trace, ORDER[i])) == Firings(s.due, s.cycle, Ticks(es))
  {
    hide Step, FramesAt, SendOf, Firings, DueAfter, Sent;
    if es != [] {
      var early, last := es[..|es| - 1], es[|es| - 1];
      PublishedEarlier(cfg, w, es, i);
      SentAtFirings(cfg, w, early, i);
      SlotFollowsSchedule(cfg, w, early, i);
      var p := Run(cfg, w, early);
      StepTimes(cfg, p, last, i);
      OneMoreTick(w.pub.slots[i].due, w.pub.slots[i].cycle, Ticks(early), last.at);
      assert Ticks(es) == if last.TickEv? then Ticks(early) + [last.at] else Ticks(early);
    } else {
      NothingFires(w.pub.slots[i].due, w.pub.slots[i].cycle);
    }
  }

  lemma NothingFires(due: Nanos, cycle: Nanos)
    ensures Firings(due, cycle, []) == [] && forall id :: Sent([], id) == []
  {
  }

  lemma PublishedEarlier(cfg: Config, w: World, es: seq<Event>, i: nat)
    requires ValidSlots(w.pub.slots) && es != [] && AlwaysPublished(cfg, w, es, i)
    ensures AlwaysPublished(cfg, w, es[..|es| - 1], i)
    ensures i < 8 || AssistAnnounced(Run(cfg, w, es[..|es| - 1]))
  {
    hide Run, AssistAnnounced;
    var early := es[..|es| - 1];
    forall k | 0 <= k <= |early|
      ensures early[..k] == es[..k]
    {
    }
    assert es[..|early|] == early;
  }

  lemma StepTimes(cfg: Config, w: World, e: Event, i: nat)
    requires ValidSlots(w.pub.slots) && w.pub.armed && i < FRAME_COUNT && (i < 8 || AssistAnnounced(w))
    ensures Times(Sent(Step(cfg, w, e).trace, ORDER[i])) == Times(Sent(w.trace, ORDER[i]))
              + (if e.TickEv? && w.pub.slots[i].due <= e.at then [e.at] else [])
  {
    hide Step, FramesAt, SendOf, Sent;
    StepOfSlot(cfg, w, e, i);
    PublishedSend(cfg, w, e.at, i);
  }

  // ---------------------------------------------------------------- timing on the bus

  lemma {:induction false} OnTimeSlot(cfg: Config, w: World, es: seq<Event>, late: Nanos, i: nat)
    requires ValidSlots(w.pub.slots) && w.pub.armed && i < FRAME_COUNT && OnTime(cfg, w, es, late)
    ensures Punctual(w.pub.slots[i].due, w.pub.slots[i].cycle, Ticks(es), late)
  {
    hide Step;
    if es != [] {
      var early, last := es[..|es| - 1], es[|es| - 1];
      forall k | 0 <= k < |early|
        ensures early[..k] == es[..k]
      {
      }
      assert es[..|early|] == early;
      OnTimeSlot(cfg, w, early, late, i);
      SlotFollowsSchedule(cfg, w, early, i);
      assert Ticks(es) == if last.TickEv? then Ticks(early) + [last.at] else Ticks(early);
      if last.TickEv? {
        PunctualExtend(w.pub.slots[i].due, w.pub.slots[i].cycle, Ticks(early), last.at, late);
      }
    }
  }

  /** The contract's periods and staleness windows in milliseconds, in the order of its identifiers:
      status, identity, motion, electric drive, telltales, energy, trip, thermal, assist. */
  const PERIODS: seq<nat> := [100, 1000, 50, 50, 100, 500, 1000, 500, 200]
  const WINDOWS: seq<nat> := [500, 4000, 250, 250, 500, 2000, 4000, 2000, 800]

  function Period(i: nat): Nanos
    requires i < FRAME_COUNT
  {
    PERIODS[i] * 1_000_000
  }

  function Window(i: nat): Nanos
    requires i < FRAME_COUNT
  {
    WINDOWS[i] * 1_000_000
  }

  lemma SlotPeriod(slots: seq<Slot>, i: nat)
    requires ValidSlots(slots) && i < FRAME_COUNT
    ensures slots[i].cycle == Period(i) > 0 && Window(i) == StaleMs(ORDER[i]) * MS >= 4 * Period(i)
  {
  }

  /** Drift-free: with wake-ups less than a period late, transmission k of a frame leaves within
      the lateness of arming + k periods, and after a tick at T exactly floor((T - a) / period) + 1
      transmissions have left, over any interleaving with the plugin. */
  lemma {:induction false} TransmissionsOnGrid(cfg: Config, w: World, es: seq<Event>, a: Nanos, late: Nanos, i: nat)
    requires ArmedAt(w, a) && i < FRAME_COUNT && 0 <= late < Period(i)
    requires ClockSorted(es) && OnTime(cfg, w, es, late) && AlwaysPublished(cfg, w, es, i)
    ensures var t := Times(Sent(Run(cfg, w, es).trace, ORDER[i]));
            && NearGrid(t, a, Period(i), late)
            && (Ticks(es) != [] && a <= Ticks(es)[|Ticks(es)| - 1] ==>
                  |t| == (Ticks(es)[|Ticks(es)| - 1] - a) / Period(i) + 1)
  {
    hide Run, Period, OnTime, AlwaysPublished, ClockSorted, Sent, Firings, DueAfter, Punctual, Ticks, NearGrid;
    SlotPeriod(w.pub.slots, i);
    SentAtFirings(cfg, w, es, i);
    OnTimeSlot(cfg, w, es, late, i);
    OnGrid(a, Period(i), Ticks(es), late);
    TicksSorted(es);
    if Ticks(es) != [] && a <= Ticks(es)[|Ticks(es)| - 1] {
      FiringCount(a, Period(i), Ticks(es), late);
    }
  }

  /** No burst: however long the process was suspended, n consecutive transmissions of a frame
      span at least n - 2 periods. */
  lemma {:induction false} TransmissionsNeverBurst(cfg: Config, w: World, es: seq<Event>, i: nat, first: nat, n: nat)
    requires ValidSlots(w.pub.slots) && w.pub.armed && w.trace == [] && i < FRAME_COUNT
    requires AlwaysPublished(cfg, w, es, i) && n >= 2
    requires first + n <= |Sent(Run(cfg, w, es).trace, ORDER[i])|
    ensures var t := Times(Sent(Run(cfg, w, es).trace, ORDER[i]));
            t[first + n - 1] - t[first] >= (n - 2) * Period(i)
  {
    hide Run;
    SlotPeriod(w.pub.slots, i);
    SentAtFirings(cfg, w, es, i);
    NoBurst(w.pub.slots[i].due, Period(i), Ticks(es), first, n);
  }

  /** What each due time of a frame is, over any run with any tick times: on the grid fixed at arming, except
      that a transmission more than a period late starts a new one a period after itself. So a late
      transmission is never followed by another within a period, and every other one keeps the grid. */
  lemma {:induction false} LateTransmissionsStartAnew(cfg: Config, w: World, es: seq<Event>, i: nat)
      returns (d: seq<Nanos>)
    requires ValidSlots(w.pub.slots) && w.pub.armed && w.trace == [] && i < FRAME_COUNT
    requires AlwaysPublished(cfg, w, es, i)
    ensures var t := Times(Sent(Run(cfg, w, es).trace, ORDER[i]));
            && Resynced(t, d, Period(i)) && d[0] == w.pub.slots[i].due && d[|t|] == Run(cfg, w, es).pub.slots[i].due
            && (forall k :: 0 <= k < |t| - 1 && t[k] > d[k] + Period(i) ==> t[k + 1] - t[k] >= Period(i))
  {
    SlotPeriod(w.pub.slots, i);
    hide Run, Period, Firings, Dues, DueAfter, AlwaysPublished, Sent;
    SentAtFirings(cfg, w, es, i);
    SlotFollowsSchedule(cfg, w, es, i);
    LateStartsAnew(w.pub.slots[i].due, Period(i), Ticks(es));
    d := Dues(w.pub.slots[i].due, Period(i), Ticks(es));
  }

  /** While wake-ups are less than three periods late no published frame outlives its staleness
      window: consecutive transmissions are closer together than that, and the last one is younger than that
      up to the latest instant at which the next wake-up would be punctual. */
  lemma {:induction false} NeverStale(cfg: Config, w: World, es: seq<Event>, late: Nanos, i: nat)
    requires ValidSlots(w.pub.slots) && w.pub.armed && w.trace == [] && i < FRAME_COUNT
    requires 0 <= late < 3 * Period(i) && OnTime(cfg, w, es, late) && AlwaysPublished(cfg, w, es, i)
    ensures var t := Times(Sent(Run(cfg, w, es).trace, ORDER[i]));
            && (forall k :: 0 < k < |t| ==> t[k] - t[k - 1] < Window(i))
            && (t != [] ==> MinDue(Run(cfg, w, es).pub.slots) + late - t[|t| - 1] < Window(i))
  {
    SlotPeriod(w.pub.slots, i);
    hide Run, Period, Window, OnTime, AlwaysPublished, Sent, Firings, Dues, DueAfter, Punctual, Ticks, ValidSlots;
    SentAtFirings(cfg, w, es, i);
    OnTimeSlot(cfg, w, es, late, i);
    SlotFollowsSchedule(cfg, w, es, i);
    FiringGaps(w.pub.slots[i].due, Period(i), Ticks(es), late);
    DueSteps(w.pub.slots[i].due, Period(i), Ticks(es));
    assert MinDue(Run(cfg, w, es).pub.slots) <= Run(cfg, w, es).pub.slots[i].due;
  }

  // ---------------------------------------------------------------- one tick

  predicate Ascending(sent: seq<Emission>) {
    forall a, b :: 0 <= a < b < |sent| ==> sent[a].id < sent[b].id
  }

  /** The frames of a tick leave in ascending order of their identifiers. */
  lemma {:induction false} AscendingIds(slots: seq<Slot>, f: Frames, now: Nanos, n: nat)
    requires ValidSlots(slots) && n <= FRAME_COUNT
    ensures var sent := Sends(slots[..n], f, now);
            && Ascending(sent)
            && (forall a :: 0 <= a < |sent| ==> n > 0 && sent[a].id <= ORDER[n - 1])
  {
    hide FrameFor;
    if n > 0 {
      AscendingIds(slots, f, now, n - 1);
      SendsGrow(slots, f, now, n);
      if n > 1 { OrderAscends(n - 1); }
      hide Sends, ORDER;
    } else {
      NothingToSend(f, now);
    }
  }

  lemma OrderAscends(n: nat)
    requires 0 < n < FRAME_COUNT
    ensures ORDER[n - 1] < ORDER[n]
  {
  }

  /** The first tick of a publisher that was not armed yet sends every frame, in ascending order of identifiers
      (the assist frame only if announced), and makes each due again one period later. */
  lemma FirstTickSendsAll(cfg: Config, w: World, now: Nanos)
    requires ValidSlots(w.pub.slots) && !w.pub.armed
    ensures var (pub, sent) := Tick(cfg, w.pub, w.store, now);
            && pub.armed && (forall i :: 0 <= i < FRAME_COUNT ==> pub.slots[i].due == now + Period(i))
            && (forall i :: 0 <= i < FRAME_COUNT ==>
                  Times(Sent(sent, ORDER[i])) == if i < 8 || AssistAnnounced(w) then [now] else [])
            && Ascending(sent)
  {
    hide FrameFor, Derive, Sent, Sends, SendOf, AssistAnnounced, Ascending;
    var p := Armed(w.pub, now);
    var f := FramesAt(cfg, w.store, now, p.counter);
    assert p.slots[..FRAME_COUNT] == p.slots && p.slots[0].due == now;
    assert Tick(cfg, w.pub, w.store, now).1 == Sends(p.slots, f, now);
    AscendingIds(p.slots, f, now, FRAME_COUNT);
    forall i | 0 <= i < FRAME_COUNT
      ensures Fire(p.slots[i], now).due == now + Period(i)
      ensures Times(Sent(Sends(p.slots, f, now), ORDER[i])) == if i < 8 || AssistAnnounced(w) then [now] else []
    {
      SlotPeriod(p.slots, i);
      SendsOf(p.slots, f, now, FRAME_COUNT, i);
      FirstSend(cfg, w, p, now, i);
    }
  }

  lemma FirstSend(cfg: Config, w: World, p: PubState, now: Nanos, i: nat)
    requires ValidSlots(p.slots) && i < FRAME_COUNT && p.slots[i].due <= now
    ensures Times(SendOf(p.slots[i], FramesAt(cfg, w.store, now, p.counter), now)) ==
            if i < 8 || AssistAnnounced(w) then [now] else []
  {
    hide FrameFor, Derive;
  }

  // ---------------------------------------------------------------- where a frame came from

  lemma {:induction false} SendsMember(slots: seq<Slot>, f: Frames, now: Nanos, e: Emission)
    requires e in Sends(slots, f, now)
    ensures e.at == now && e.data == FrameFor(f, e.id)
    ensures e.id == ID_ASSIST ==> Set(f.status.capabilities, CAP_ASSIST)
    ensures exists i :: 0 <= i < |slots| && slots[i].id == e.id && slots[i].due <= now
  {
    hide FrameFor;
    var early := slots[..|slots| - 1];
    if e in Sends(early, f, now) {
      SendsMember(early, f, now, e);
    }
  }

  lemma TickEmission(cfg: Config, w: World, now: Nanos, e: Emission)
    requires ValidSlots(w.pub.slots) && w.pub.armed && e in Tick(cfg, w.pub, w.store, now).1
    ensures e.at == now && e.data == FrameFor(FramesAt(cfg, w.store, e.at, w.pub.counter), e.id)
    ensures e.id in ORDER && (e.id == ID_ASSIST ==> AssistAnnounced(w))
  {
    hide FrameFor, Derive, FireAll;
    SendsMember(w.pub.slots, FramesAt(cfg, w.store, now, w.pub.counter), now, e);
  }

  /** Frame e was sent by tick t of the run. */
  ghost predicate SentBy(cfg: Config, w: World, es: seq<Event>, t: nat, e: Emission)
    requires ValidSlots(w.pub.slots)
  {
    t < |es| && es[t].TickEv? && var p := Run(cfg, w, es[..t]); e in Tick(cfg, p.pub, p.store, es[t].at).1
  }

  /** A frame is built, at the tick that sends it, from the snapshot the store holds at that moment. */
  lemma BuiltAtItsTick(cfg: Config, w: World, es: seq<Event>, t: nat, e: Emission)
    requires ValidSlots(w.pub.slots) && w.pub.armed && SentBy(cfg, w, es, t, e)
    ensures t < |es| && es[t] == TickEv(e.at)
    ensures var p := Run(cfg, w, es[..t]);
            && e.data == FrameFor(FramesAt(cfg, p.store, e.at, p.pub.counter), e.id)
            && e.id in ORDER && (e.id == ID_ASSIST ==> AssistAnnounced(p))
  {
    hide FrameFor, FramesAt, Run, Tick;
    SlotFollowsSchedule(cfg, w, es[..t], 0);
    TickEmission(cfg, Run(cfg, w, es[..t]), es[t].at, e);
  }

  /** The bus carries exactly the frames some tick of the run sent. */
  lemma {:induction false} TraceIsWhatTicksSent(cfg: Config, w: World, es: seq<Event>, e: Emission)
    requires ValidSlots(w.pub.slots) && w.trace == []
    ensures e in Run(cfg, w, es).trace <==> exists t: nat :: SentBy(cfg, w, es, t, e)
  {
    hide Tick;
    if es != [] {
      var early, last := es[..|es| - 1], |es| - 1;
      TraceIsWhatTicksSent(cfg, w, early, e);
      forall t: nat | t < last
        ensures SentBy(cfg, w, es, t, e) <==> SentBy(cfg, w, early, t, e)
      {
        assert es[..t] == early[..t];
      }
      if es[last].TickEv? && e in Tick(cfg, Run(cfg, w, early).pub, Run(cfg, w, early).store, es[last].at).1 {
        assert SentBy(cfg, w, es, last, e);
      }
      if t: nat :| SentBy(cfg, w, early, t, e) {
        assert SentBy(cfg, w, es, t, e);
      }
      if t: nat :| SentBy(cfg, w, es, t, e) && t < last {
        assert SentBy(cfg, w, early, t, e);
      }
    }
  }

  /** Every frame on the bus was built, at a tick of the run, from the snapshot the store held at
      that moment. */
  lemma FrameOrigin(cfg: Config, w: World, es: seq<Event>, e: Emission) returns (k: nat)
    requires ValidSlots(w.pub.slots) && w.pub.armed && w.trace == [] && e in Run(cfg, w, es).trace
    ensures SentBy(cfg, w, es, k, e) && es[k] == TickEv(e.at)
    ensures var p := Run(cfg, w, es[..k]);
            && e.data == FrameFor(FramesAt(cfg, p.store, e.at, p.pub.counter), e.id)
            && e.id in ORDER && (e.id == ID_ASSIST ==> AssistAnnounced(p))
  {
    hide FrameFor, FramesAt, Run, SentBy;
    TraceIsWhatTicksSent(cfg, w, es, e);
    k :| SentBy(cfg, w, es, k, e);
    BuiltAtItsTick(cfg, w, es, k, e);
  }

  // ---------------------------------------------------------------- heartbeat

  /** The k-th status frame carries k modulo 256. */
  lemma {:induction false} CounterRolls(cfg: Config, w: World, es: seq<Event>)
    requires ValidSlots(w.pub.slots) && w.pub.armed && w.trace == [] && w.pub.counter == 0
    ensures var r := Run(cfg, w, es);
            var beats := Sent(r.trace, ID_STATUS);
            && r.pub.counter == |beats| % 0x100
            && forall k :: 0 <= k < |beats| ==> beats[k].data[2] == k % 0x100
  {
    hide Step, SendOf, Sent, FramesAt;
    if es != [] {
      var early, last := es[..|es| - 1], es[|es| - 1];
      CounterRolls(cfg, w, early);
      SlotFollowsSchedule(cfg, w, early, 0);
      StepOfSlot(cfg, Run(cfg, w, early), last, 0);
      BeatOfStep(cfg, Run(cfg, w, early), last);
      hide Run;
    } else {
      NothingSent(ID_STATUS);
    }
  }

  lemma BeatOfStep(cfg: Config, w: World, e: Event)
    requires ValidSlots(w.pub.slots) && w.pub.armed
    ensures var s, c := w.pub.slots[0], w.pub.counter;
            if e.TickEv? && s.due <= e.at then
              var sent := SendOf(s, FramesAt(cfg, w.store, e.at, c), e.at);
              && |sent| == 1 && sent[0].data[2] == c
              && Step(cfg, w, e).pub.counter == Next(c)
            else
              && Step(cfg, w, e).pub.counter == c
              && (e.TickEv? ==> SendOf(s, FramesAt(cfg, w.store, e.at, c), e.at) == [])
  {
    hide Sends, FireAll, Derive;
  }

  /** When the plugin has been silent since `since`, a heartbeat that does not say OK leaves within
      the plugin timeout, one heartbeat period and the wake-up lateness - whatever the link calls. */
  lemma {:induction false} SilenceIsReported(cfg: Config, w: World, es: seq<Event>, a: Nanos, late: Nanos, since: Nanos)
      returns (beat: Emission)
    requires ArmedAt(w, a) && late >= 0 && ClockSorted(es) && OnTime(cfg, w, es, late)
    requires w.store.everPublished ==> w.store.lastPublish <= since
    requires forall k :: 0 <= k < |es| && es[k].PublishEv? ==> es[k].at <= since
    requires a <= since + cfg.timeout + Period(0)
    requires Ticks(es) != [] && since + cfg.timeout + Period(0) <= Ticks(es)[|Ticks(es)| - 1]
    ensures beat in Run(cfg, w, es).trace && beat.id == ID_STATUS
    ensures since + cfg.timeout < beat.at <= since + cfg.timeout + Period(0) + late
    ensures beat.data[3] != 3
  {
    hide Step, FramesFrom, Derive, StatusBytes;
    SlotPeriod(w.pub.slots, 0);
    SentAtFirings(cfg, w, es, 0);
    OnTimeSlot(cfg, w, es, late, 0);
    TicksSorted(es);
    var n := FiresSoonAfter(a, Period(0), Ticks(es), late, since + cfg.timeout);
    var trace := Run(cfg, w, es).trace;
    beat := Sent(trace, ID_STATUS)[n];
    assert Times(Sent(trace, ID_STATUS))[n] == beat.at;
    SentMember(trace, ID_STATUS, n);
    var k := FrameOrigin(cfg, w, es, beat);
    var p := Run(cfg, w, es[..k]);
    LastPublishBound(cfg, w, es[..k], since);
    StatusShowsDerived(cfg, p.store, beat.at, p.pub.counter);
    SilentIsNotOk(p.store, beat.at, cfg.timeout);
  }

  lemma SilentIsNotOk(snap: Snapshot, now: Nanos, timeout: Nanos)
    requires snap.everPublished ==> snap.lastPublish + timeout < now
    ensures Derive(snap, now, timeout).proxyState != STATE_OK
  {
  }

  lemma StatusShowsDerived(cfg: Config, snap: Snapshot, now: Nanos, counter: byte)
    ensures FrameFor(FramesAt(cfg, snap, now, counter), ID_STATUS)[3] == Derive(snap, now, cfg.timeout).proxyState
  {
    hide Derive, MotionFrom, EDriveFrom, EnergyFrom, TripFrom, ThermalFrom, AssistFrom;
  }

  lemma {:induction false} LastPublishBound(cfg: Config, w: World, es: seq<Event>, since: Nanos)
    requires ValidSlots(w.pub.slots)
    requires w.store.everPublished ==> w.store.lastPublish <= since
    requires forall k :: 0 <= k < |es| && es[k].PublishEv? ==> es[k].at <= since
    ensures var r := Run(cfg, w, es).store; r.everPublished ==> r.lastPublish <= since
  {
    hide Tick;
    if es != [] {
      LastPublishBound(cfg, w, es[..|es| - 1], since);
    }
  }

  // ---------------------------------------------------------------- what the proxy state tells

  function LastLink(es: seq<Event>): Option<bool> {
    if es == [] then None
    else if es[|es| - 1].LinkEv? then Some(es[|es| - 1].present)
    else LastLink(es[..|es| - 1])
  }

  function LastPublished(es: seq<Event>): (p: Option<Event>)
    ensures p.Some? ==> p.value.PublishEv?
  {
    if es == [] then None
    else if es[|es| - 1].PublishEv? then Some(es[|es| - 1])
    else LastPublished(es[..|es| - 1])
  }

  lemma {:induction false} StoreIsHistory(cfg: Config, w: World, es: seq<Event>)
    requires ValidSlots(w.pub.slots) && w.store == NOTHING_YET
    ensures var d := Run(cfg, w, es).store;
            && LastLink(es) == (if d.linkKnown then Some(d.linkPresent) else None)
            && LastPublished(es) == (if d.everPublished then Some(PublishEv(d.state, d.lastPublish)) else None)
  {
    hide Tick;
    if es != [] {
      StoreIsHistory(cfg, w, es[..|es| - 1]);
    }
  }

  /** Before the first publish the store holds the blank state. */
  lemma {:induction false} UnpublishedIsBlank(cfg: Config, w: World, es: seq<Event>)
    requires ValidSlots(w.pub.slots) && w.store == NOTHING_YET && !Run(cfg, w, es).store.everPublished
    ensures Run(cfg, w, es).store.state == BLANK
  {
    hide Tick;
    if es != [] {
      UnpublishedIsBlank(cfg, w, es[..|es| - 1]);
    }
  }

  /** The last published state is at most the plugin timeout old and every advertised signal is valid. */
  predicate AllWell(es: seq<Event>, now: Nanos, timeout: Nanos) {
    var p := LastPublished(es);
    p.Some? && p.value.PublishEv? && now - p.value.at <= timeout
    && forall i :: 0 <= i < 32 && Set(p.value.state.capable, i) ==> Set(p.value.state.valid, i)
  }

  /** Each heartbeat reports the plugin's history up to its tick in byte 3: starting (0) exactly before the first
      link call, no vehicle (1) exactly when the last link call reported none, OK (3) exactly when the vehicle
      is present and all is well, degraded (2) otherwise. */
  lemma {:induction false} HeartbeatReportsHistory(cfg: Config, w: World, es: seq<Event>, e: Emission) returns (k: nat)
    requires ValidSlots(w.pub.slots) && w.pub.armed && w.trace == [] && w.store == NOTHING_YET
    requires e in Run(cfg, w, es).trace && e.id == ID_STATUS
    ensures k < |es| && es[k] == TickEv(e.at)
    ensures var st, link := e.data[3], LastLink(es[..k]);
            && (st == 0 <==> link == None)
            && (st == 1 <==> link == Some(false))
            && (st == 3 <==> link == Some(true) && AllWell(es[..k], e.at, cfg.timeout))
            && (st == 2 <==> link == Some(true) && !AllWell(es[..k], e.at, cfg.timeout))
  {
    hide Step, FramesFrom, FrameFor, FramesAt, UnpackStatus, Run, Set;
    k := FrameOrigin(cfg, w, es, e);
    var p := Run(cfg, w, es[..k]);
    StoreIsHistory(cfg, w, es[..k]);
    StatusShowsDerived(cfg, p.store, e.at, p.pub.counter);
  }

  // ---------------------------------------------------------------- sleeping until the deadline

  /** Once armed, a tick before the returned deadline changes nothing and sends nothing. */
  lemma EarlyTickIsNoOp(cfg: Config, p: PubState, snap: Snapshot, now: Nanos)
    requires ValidSlots(p.slots) && p.armed
    ensures now < MinDue(p.slots) <==> !AnyDue(p.slots, now)
    ensures now < MinDue(p.slots) ==> Tick(cfg, p, snap, now) == (p, [])
  {
  }

  /** The events of a run without the ticks that came before the current deadline. */
  function Effective(cfg: Config, w: World, es: seq<Event>): seq<Event>
    requires ValidSlots(w.pub.slots)
  {
    if es == [] then []
    else
      var early, last := es[..|es| - 1], es[|es| - 1];
      Effective(cfg, w, early)
      + (if last.TickEv? && last.at < MinDue(Run(cfg, w, early).pub.slots) then [] else [last])
  }

  /** Early ticks can be left out of any run, interleaved with the plugin as it may be, without
      changing the store, the schedule or a byte on the bus. */
  lemma {:induction false} EarlyTicksDoNotMatter(cfg: Config, w: World, es: seq<Event>)
    requires ValidSlots(w.pub.slots) && w.pub.armed
    ensures Run(cfg, w, Effective(cfg, w, es)) == Run(cfg, w, es)
  {
    hide Tick;
    if es != [] {
      var early, last := es[..|es| - 1], es[|es| - 1];
      EarlyTicksDoNotMatter(cfg, w, early);
      SlotFollowsSchedule(cfg, w, early, 0);
      var kept := Effective(cfg, w, early);
      if last.TickEv? && last.at < MinDue(Run(cfg, w, early).pub.slots) {
        EarlyTickIsNoOp(cfg, Run(cfg, w, early).pub, Run(cfg, w, early).store, last.at);
        assert Run(cfg, w, early).trace + [] == Run(cfg, w, early).trace;
        assert Effective(cfg, w, es) == kept;
      } else {
        assert (kept + [last])[..|kept|] == kept;
      }
    }
  }

  /** Ticking at every instant from `t` to `end`; `env(t)` is the store's content at instant t. */
  ghost function Dense(cfg: Config, p: PubState, t: Nanos, end: Nanos, env: Nanos -> Snapshot): (PubState, seq<Emission>)
    requires ValidSlots(p.slots)
    decreases end - t
  {
    if t > end then (p, [])
    else
      var (p1, sent) := Tick(cfg, p, env(t), t);
      var (p2, rest) := Dense(cfg, p1, t + 1, end, env);
      (p2, sent + rest)
  }

  /** Ticking only at the deadline the previous tick returned. */
  ghost function Sleeping(cfg: Config, p: PubState, end: Nanos, env: Nanos -> Snapshot): (PubState, seq<Emission>)
    requires ValidSlots(p.slots) && p.armed
    decreases end - MinDue(p.slots)
  {
    var t := MinDue(p.slots);
    if t > end then (p, [])
    else
      DeadlineMoves(cfg, p, env(t));
      var (p1, sent) := Tick(cfg, p, env(t), t);
      var (p2, rest) := Sleeping(cfg, p1, end, env);
      (p2, sent + rest)
  }

  /** A tick exactly at the deadline leaves nothing due at that instant. */
  lemma DeadlineMoves(cfg: Config, p: PubState, snap: Snapshot)
    requires ValidSlots(p.slots) && p.armed
    ensures var p' := Tick(cfg, p, snap, MinDue(p.slots)).0;
            ValidSlots(p'.slots) && p'.armed && MinDue(p'.slots) > MinDue(p.slots)
  {
    hide Derive, FramesAt, Sends;
    var t := MinDue(p.slots);
    EarlyTickIsNoOp(cfg, p, snap, t);
    var fired := FireAll(p.slots, t);
    forall i | 0 <= i < |fired|
      ensures fired[i].due > t
    {
      assert p.slots[i].cycle > 0 by { SlotPeriod(p.slots, i); }
    }
  }

  /** Sleeping until each returned deadline produces, byte for byte, what polling at every instant
      would have produced. */
  lemma {:induction false} SleepingRefinesPolling(cfg: Config, p: PubState, t: Nanos, end: Nanos, env: Nanos -> Snapshot)
    requires ValidSlots(p.slots) && p.armed && t <= MinDue(p.slots)
    ensures Dense(cfg, p, t, end, env) == Sleeping(cfg, p, end, env)
    decreases end - t
  {
    hide Tick, MinDue, ValidSlots;
    if t <= end {
      if t < MinDue(p.slots) {
        EarlyTickIsNoOp(cfg, p, env(t), t);
        SleepingRefinesPolling(cfg, p, t + 1, end, env);
        var rest := Dense(cfg, p, t + 1, end, env);
        assert [] + rest.1 == rest.1;
      } else {
        DeadlineMoves(cfg, p, env(t));
        SleepingRefinesPolling(cfg, Tick(cfg, p, env(t), t).0, t + 1, end, env);
      }
    }
  }
}
