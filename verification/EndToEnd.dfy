/** From the ECU's answer to the contract bus. The plugin thread and the publisher thread interleave
    freely; what a consumer decodes as valid is shown to be the last accepted answer, and recent. */
module EndToEnd {
  import opened BitMasks
  import opened CodecLaws
  import opened Contract
  import opened J1979
  import opened J1979Client
  import opened Mapping
  import opened Obd2Ice
  import opened Options
  import opened Poller
  import opened Provenance
  import opened Publisher
  import opened PublisherRuns
  import opened Session
  import opened SessionLaws
  import opened Vehicle
  import opened WireHonesty

  function ToEvent(c: HostCall): Event {
    match c
    case SetLink(present, at) => LinkEv(present, at)
    case Publish(s, _, at) => PublishEv(s, at)
  }

  /** The store's side of a run: everything but the ticks. */
  function HostEvents(es: seq<Event>): seq<Event> {
    if es == [] then []
    else HostEvents(es[..|es| - 1]) + (if es[|es| - 1].TickEv? then [] else [es[|es| - 1]])
  }

  /** The run's store calls are the first ones of the plugin's calls, in order, with any ticks between. */
  ghost predicate Interleaves(es: seq<Event>, calls: seq<HostCall>) {
    && |HostEvents(es)| <= |calls|
    && forall m :: 0 <= m < |HostEvents(es)| ==> HostEvents(es)[m] == ToEvent(calls[m])
  }

  lemma {:induction false} HostEventsPrefix(es: seq<Event>, k: nat)
    requires k <= |es|
    ensures |HostEvents(es[..k])| <= |HostEvents(es)|
    ensures HostEvents(es[..k]) == HostEvents(es)[..|HostEvents(es[..k])|]
    decreases |es| - k
  {
    if k == |es| {
      assert es[..k] == es;
    } else {
      HostEventsPrefix(es, k + 1);
      assert es[..k + 1][..k] == es[..k];
    }
  }

  /** Host event m is the last publish. */
  ghost predicate LastPublishIs(hs: seq<Event>, m: nat) {
    m < |hs| && hs[m].PublishEv? && forall j :: m < j < |hs| ==> !hs[j].PublishEv?
  }

  /** What the store holds is the last state published to it. */
  lemma {:induction false} StoreHoldsLast(cfg: Config, w: World, es: seq<Event>) returns (m: nat)
    requires ValidSlots(w.pub.slots) && !w.store.everPublished
    requires Run(cfg, w, es).store.everPublished
    ensures LastPublishIs(HostEvents(es), m)
    ensures var d := Run(cfg, w, es).store; HostEvents(es)[m] == PublishEv(d.state, d.lastPublish)
  {
    hide Tick;
    var early, last := es[..|es| - 1], es[|es| - 1];
    if last.PublishEv? {
      m := |HostEvents(early)|;
    } else {
      m := StoreHoldsLast(cfg, w, early);
    }
  }

  lemma {:induction false} HostEventAt(es: seq<Event>, m: nat) returns (i: nat)
    requires m < |HostEvents(es)|
    ensures i < |es| && es[i] == HostEvents(es)[m]
  {
    var early := es[..|es| - 1];
    if m < |HostEvents(early)| {
      i := HostEventAt(early, m);
    } else {
      i := |early|;
    }
  }

  // ---------------------------------------------------------------- where a published state came from

  lemma {:induction false} NextPublishUnseen(s: Session, t: int, now: int, n: nat)
    requires n <= |REPORTED|
    ensures ValidUpTo(s.(nextPublish := t), now, n) == ValidUpTo(s, now, n)
  {
    if n > 0 { NextPublishUnseen(s, t, now, n - 1); }
  }

  lemma StateUnseen(ice: IceConfig, s: Session, t: int, now: int)
    ensures StateOf(ice, s.(nextPublish := t), now) == StateOf(ice, s, now)
  {
    NextPublishUnseen(s, t, now, |REPORTED|);
  }

  /** Every published state is the session's state at the end of its turn, sampled at a time of that
      turn; a turn without a vehicle publishes no value. */
  lemma PublishedAtTurnEnd(ice: IceConfig, s: Session, in_: Input, c: HostCall)
    requires c in Iterate(ice, s, in_).1 && c.Publish?
    ensures var s' := Iterate(ice, s, in_).0;
            && c.state == StateOf(ice, s', Ms(c.sampledAt)) && c.at == in_.publishAt
            && (s'.values != map[] ==> c.sampledAt == in_.sampledAt)
  {
    hide StateOf, Poll, Watched, Rediscovered;
    if s.discovered {
      TurnPublish(ice, s, in_, c);
    } else if in_.found.Some? {
      TurnPublish(ice, Rediscovered(ice, Watched(s, in_.discoverySeen), in_.found.value), in_, c);
    }
  }

  lemma TurnPublish(ice: IceConfig, s: Session, in_: Input, c: HostCall)
    requires c in PollTurn(ice, s, in_).1 && c.Publish?
    ensures c.state == StateOf(ice, PollTurn(ice, s, in_).0, Ms(c.sampledAt))
    ensures c.at == in_.publishAt && c.sampledAt == in_.sampledAt
  {
    hide StateOf, Poll;
    StateUnseen(ice, Poll(s, in_).0, Ms(in_.rearmAt) + 50, Ms(in_.sampledAt));
  }

  lemma RunOfTurn(cfg: IceConfig, inputs: seq<Input>, k: nat)
    requires k < |inputs|
    ensures SessionRun(cfg, inputs[..k + 1]) == Iterate(cfg, SessionRun(cfg, inputs[..k]), inputs[k]).0
  {
    hide Iterate;
    assert inputs[..k + 1][..k] == inputs[..k];
  }

  /** Host call m was made during turn k. */
  ghost predicate MadeIn(ice: IceConfig, inputs: seq<Input>, m: nat, k: nat) {
    k < |inputs| && |Calls(ice, inputs[..k])| <= m < |Calls(ice, inputs[..k + 1])|
  }

  lemma {:induction false} CallOrigin(ice: IceConfig, inputs: seq<Input>, m: nat) returns (k: nat)
    requires m < |Calls(ice, inputs)|
    ensures MadeIn(ice, inputs, m, k)
    ensures Calls(ice, inputs)[m] in Iterate(ice, SessionRun(ice, inputs[..k]), inputs[k]).1
  {
    hide Iterate;
    var early := inputs[..|inputs| - 1];
    if m < |Calls(ice, early)| {
      k := CallOrigin(ice, early, m);
      assert early[..k] == inputs[..k] && early[..k + 1] == inputs[..k + 1];
    } else {
      k := |early|;
      assert inputs[..k] == early && inputs[..k + 1] == inputs;
    }
  }

  // ---------------------------------------------------------------- age and identity of a value

  /** The number a published state holds for a polled signal. */
  function FieldOf(s: VehicleState, sig: Signal): real {
    match sig
    case 0 => s.speedKmh
    case 1 => s.rpm
    case 12 => s.odometerKm
    case 13 => s.ambientC
    case 15 => s.coolantC
    case 16 => s.fuelPct
    case 17 => s.auxBatteryV
    case _ => 0.0
  }

  predicate AnswersFromZero(inputs: seq<Input>) {
    forall k :: 0 <= k < |inputs| ==> inputs[k].answerAt >= 0
  }

  /** What a standing answer puts into the published state. */
  predicate Carries(st: VehicleState, sig: Signal, v: real) {
    if sig == SIG_POWER_STATE then st.powerState == (if v > 0.0 then POWER_READY else POWER_ON)
    else FieldOf(st, sig) == v
  }

  /** A polled signal is published as valid exactly when an answer for its PID stands at the end of the turn
      and is at most three of the PID's intervals older than the sample, both in whole milliseconds; what is
      published is the decoded payload of that answer. No other signal is ever valid. */
  lemma PublishedExactlyWhenFresh(ice: IceConfig, inputs: seq<Input>, k: nat, c: HostCall, sig: Signal)
    requires ValidConfig(ice) && ClockFromZero(inputs) && AnswersFromZero(inputs) && k < |inputs|
    requires c in Iterate(ice, SessionRun(ice, inputs[..k]), inputs[k]).1 && c.Publish?
    ensures c.at == inputs[k].publishAt
    ensures Set(c.state.valid, sig) <==>
              PidOf(sig).Some? &&
              var a := Standing(History(ice, inputs[..k + 1]), PidOf(sig).value);
              a.Some? && Ms(c.sampledAt) - Ms(a.value.at) <= 3 * ice.fastMs * TierOf(PidOf(sig).value)
    ensures Set(c.state.valid, sig) ==>
              var a := Standing(History(ice, inputs[..k + 1]), PidOf(sig).value);
              && a.Some? && Decode(PidOf(sig).value, a.value.payload).Some?
              && Carries(c.state, sig, Decode(PidOf(sig).value, a.value.payload).value)
              && c.sampledAt == inputs[k].sampledAt
  {
    hide Iterate, Decode, StateOf, TierOf, Find, Tracks, SessionInv, Current, Standing, History, FieldOf, Carries;
    var upTo := inputs[..k + 1];
    assert upTo[..|upTo| - 1] == inputs[..k];
    InvAlways(ice, upTo);
    TracksAlways(ice, upTo);
    var s := SessionRun(ice, upTo);
    PublishedAtTurnEnd(ice, SessionRun(ice, inputs[..k]), inputs[k], c);
    PublishedBits(ice, s, Ms(c.sampledAt), sig);
    if PidOf(sig).Some? {
      var pid := PidOf(sig).value;
      if Standing(History(ice, upTo), pid).Some? {
        var j := StandingOrigin(ice, upTo, pid);
      }
      CurrentExactlyWhen(ice, s, History(ice, upTo), pid, Ms(c.sampledAt));
      if Current(s, pid, Ms(c.sampledAt)) {
        ValuesHeld(s, pid, Ms(c.sampledAt));
        FieldIsValue(ice, s, Ms(c.sampledAt), sig);
      }
    }
  }

  lemma ValuesHeld(s: Session, pid: byte, now: int)
    requires Current(s, pid, now)
    ensures pid in s.values && s.values != map[]
  {
  }

  lemma CurrentExactlyWhen(ice: IceConfig, s: Session, log: seq<Outcome>, pid: byte, now: int)
    requires SessionInv(ice, s) && Tracks(s, log)
    requires Standing(log, pid).Some? ==> Standing(log, pid).value.at >= 0
    ensures var a := Standing(log, pid);
            && (Current(s, pid, now) <==> a.Some? && now - Ms(a.value.at) <= 3 * ice.fastMs * TierOf(pid))
            && (Current(s, pid, now) ==> Decode(pid, a.value.payload) == Some(s.values[pid]))
  {
    hide Decode, TierOf, Find, Standing, Holds, Current, ValidItems;
    if Scheduled(s.items, pid) {
      IntervalAt(ice, s, pid);
    }
    CurrentWhenHeld(s, log, pid, now, ice.fastMs * TierOf(pid));
  }

  lemma CurrentWhenHeld(s: Session, log: seq<Outcome>, pid: byte, now: int, interval: int)
    requires Holds(s.values, s.items, log, pid) && (pid in s.values ==> pid in s.supported)
    requires Scheduled(s.items, pid) ==> s.items[Find(s.items, pid)].interval == interval
    requires Standing(log, pid).Some? ==> Standing(log, pid).value.at >= 0
    ensures var a := Standing(log, pid);
            && (Current(s, pid, now) <==> a.Some? && now - Ms(a.value.at) <= 3 * interval)
            && (Current(s, pid, now) ==> Decode(pid, a.value.payload) == Some(s.values[pid]))
  {
    hide Decode, Find, Standing;
  }

  lemma IntervalAt(ice: IceConfig, s: Session, pid: byte)
    requires SessionInv(ice, s) && Scheduled(s.items, pid)
    ensures s.items[Find(s.items, pid)].interval == ice.fastMs * TierOf(pid)
  {
    hide TierOf;
    assert s.items[Find(s.items, pid)] in s.items;
  }

  lemma FieldIsValue(ice: IceConfig, s: Session, now: int, sig: Signal)
    requires PidOf(sig).Some? && Current(s, PidOf(sig).value, now)
    ensures Carries(StateOf(ice, s, now), sig, s.values[PidOf(sig).value])
  {
    hide Current, ValidMask, CapableMask;
  }

  /** Exactly when the documented limit is met: a signal published as valid is younger than three of its
      intervals unless it is that many milliseconds old and the sample lies no earlier within its
      millisecond than the answer within its own. */
  lemma YoungerExactlyWhen(ice: IceConfig, inputs: seq<Input>, k: nat, c: HostCall, sig: Signal)
    requires ValidConfig(ice) && ClockFromZero(inputs) && AnswersFromZero(inputs) && k < |inputs|
    requires c in Iterate(ice, SessionRun(ice, inputs[..k]), inputs[k]).1 && c.Publish? && Set(c.state.valid, sig)
    ensures PidOf(sig).Some? && Standing(History(ice, inputs[..k + 1]), PidOf(sig).value).Some?
    ensures var a := Standing(History(ice, inputs[..k + 1]), PidOf(sig).value).value;
            var limit := 3 * ice.fastMs * TierOf(PidOf(sig).value);
            c.sampledAt - a.at < limit * MS <==> Ms(c.sampledAt) - Ms(a.at) < limit || c.sampledAt % MS < a.at % MS
  {
    hide Iterate, TierOf, Standing, History;
    PublishedExactlyWhenFresh(ice, inputs, k, c, sig);
    var a := Standing(History(ice, inputs[..k + 1]), PidOf(sig).value).value;
    AgeInParts(c.sampledAt, a.at, 3 * ice.fastMs * TierOf(PidOf(sig).value));
  }

  lemma AgeInParts(later: Nanos, earlier: Nanos, limit: int)
    requires Ms(later) - Ms(earlier) <= limit
    ensures later - earlier < limit * MS <==> Ms(later) - Ms(earlier) < limit || later % MS < earlier % MS
  {
  }

  /** How long a turn's sample waited for the host's stamp. */
  function Stamping(in_: Input): Nanos { in_.publishAt - in_.sampledAt }

  /** When tick t was served, the last state the store had been given was host call m, made in turn k. */
  ghost predicate ServedFrom(ice: IceConfig, inputs: seq<Input>, es: seq<Event>, t: nat, m: nat, k: nat) {
    t < |es| && LastPublishIs(HostEvents(es[..t]), m) && MadeIn(ice, inputs, m, k)
  }

  /** The publish behind a frame that shows live data, and the turn that made it. */
  lemma PublishBehind(cfg: Config, ice: IceConfig, inputs: seq<Input>, w: World, es: seq<Event>, t: nat)
      returns (m: nat, k: nat)
    requires ValidSlots(w.pub.slots) && w.store == NOTHING_YET && t < |es|
    requires Interleaves(es, Calls(ice, inputs)) && Run(cfg, w, es[..t]).store.everPublished
    ensures ServedFrom(ice, inputs, es, t, m, k) && m < |Calls(ice, inputs)|
    ensures var c := Calls(ice, inputs)[m];
            && c.Publish? && c in Iterate(ice, SessionRun(ice, inputs[..k]), inputs[k]).1
            && var d := Run(cfg, w, es[..t]).store; c.state == d.state && c.at == d.lastPublish
    ensures ClockSorted(es) ==> Calls(ice, inputs)[m].at <= es[t].at
  {
    hide Iterate, Calls, Run;
    m := StoreHoldsLast(cfg, w, es[..t]);
    HostEventsPrefix(es, t);
    assert ToEvent(Calls(ice, inputs)[m]) == HostEvents(es[..t])[m];
    k := CallOrigin(ice, inputs, m);
    var i := HostEventAt(es[..t], m);
    assert es[..t][i] == es[i];
  }

  /** End to end: take any run of the plugin, any interleaving of its host calls with the publisher's
      ticks, and any frame a tick sent. If a signal decodes as valid from it, then at the end of the turn that
      made the last publish before that tick an answer for the signal's PID stood; the frame was built from
      the decoded value of that answer, and the answer is younger than the plugin timeout plus three poll
      intervals (plus the stamping delay and one tick of the millisecond clock). */
  lemma ValidSignalIsRecent(cfg: Config, ice: IceConfig, inputs: seq<Input>,
                            w: World, es: seq<Event>, t: nat, e: Emission, sig: Signal)
      returns (m: nat, k: nat)
    requires ValidConfig(ice) && ClockFromZero(inputs) && AnswersFromZero(inputs)
    requires ValidSlots(w.pub.slots) && w.pub.armed && w.store == NOTHING_YET
    requires Interleaves(es, Calls(ice, inputs)) && SentBy(cfg, w, es, t, e)
    requires e.id == CarrierOf(sig) && DecodesValid(sig, e.data)
    ensures ServedFrom(ice, inputs, es, t, m, k) && PidOf(sig).Some?
    ensures var p, pid := Run(cfg, w, es[..t]), PidOf(sig).value;
            var a := Standing(History(ice, inputs[..k + 1]), pid);
            && a.Some? && Decode(pid, a.value.payload).Some?
            && e.at - a.value.at < cfg.timeout + Stamping(inputs[k]) + (3 * ice.fastMs * TierOf(pid) + 1) * MS
            && Derive(p.store, e.at, cfg.timeout).live
            && e.data == FrameFor(FramesAt(cfg, p.store, e.at, p.pub.counter), e.id)
            && Set(p.store.state.valid, sig) && Set(p.store.state.capable, sig)
            && Carries(p.store.state, sig, Decode(pid, a.value.payload).value)
    ensures ClockSorted(es) ==> inputs[k].publishAt <= e.at
  {
    hide DecodesValid, FramesFrom, FrameFor, Iterate, Decode, TierOf, AllFresh, Run, SentBy, Standing, History;
    hide Calls, Interleaves, ServedFrom, Carries;
    BuiltAtItsTick(cfg, w, es, t, e);
    var p := Run(cfg, w, es[..t]);
    var d := Derive(p.store, e.at, cfg.timeout);
    ValidOnWireExactlyWhen(p.store.state, d.live, d.proxyState, p.pub.counter, cfg.major, cfg.minor, sig);
    assert d.live && Set(p.store.state.valid, sig);
    m, k := PublishBehind(cfg, ice, inputs, w, es, t);
    ServedTurn(ice, inputs, es, t, m, k);
    var c := Calls(ice, inputs)[m];
    PublishedExactlyWhenFresh(ice, inputs, k, c, sig);
    var pid := PidOf(sig).value;
    var a := Standing(History(ice, inputs[..k + 1]), pid);
    MsRounds(c.sampledAt, a.value.at, 3 * ice.fastMs * TierOf(pid));
  }

  lemma ServedTurn(ice: IceConfig, inputs: seq<Input>, es: seq<Event>, t: nat, m: nat, k: nat)
    requires ServedFrom(ice, inputs, es, t, m, k)
    ensures k < |inputs| && t < |es|
  {
  }

  lemma MsRounds(later: Nanos, earlier: Nanos, span: int)
    requires Ms(later) - Ms(earlier) <= span
    ensures later - earlier < (span + 1) * MS
  {
  }

  // ---------------------------------------------------------------- ECU byte to contract byte

  /** How a consumer's reading of a frame relates to the payload the ECU sent: speed is the byte itself;
      the odometer word arrives bit for bit unless it is all ones, which becomes the largest code below
      SNA; the power state is "ready" (3) while the engine turns and "on" (2) otherwise; temperatures are exact
      up to 127 degrees and stick there; the scaled fields are within half a step, and rpm within half a
      revolution. */
  predicate Faithful(sig: Signal, p: seq<byte>, d: Frame)
    requires PidOf(sig).Some? && |p| >= PayloadLength(PidOf(sig).value)
  {
    match sig
    case 0 => UnpackMotion(d).speedKmh == p[0] as real
    case 1 => Nearest(Word16(p) as real / 4.0, UnpackMotion(d).rpm as real, 0.5)
    case 3 => UnpackMotion(d).powerState as int == if Word16(p) > 0 then 3 else 2
    case 12 => GetU32(d, 0) == if WordOf(p) == 0xFFFF_FFFF then 0xFFFF_FFFE else WordOf(p)
    case 13 => UnpackTrip(d).ambientC as int == if p[0] > 167 then 127 else p[0] as int - 40
    case 15 => UnpackThermal(d).coolantC as int == if p[0] > 167 then 127 else p[0] as int - 40
    case 16 => Nearest(p[0] as real * 100.0 / 255.0, UnpackThermal(d).fuelPct, 0.25)
    case _ => Nearest(Word16(p) as real / 1000.0, UnpackThermal(d).auxBatteryV, 0.005)
  }

  lemma SpeedExact(s: VehicleState, p: seq<byte>)
    requires Has(s, true, SIG_SPEED) && Decode(PID_SPEED, p) == Some(s.speedKmh)
    ensures UnpackMotion(MotionBytes(MotionFrom(s, true))).speedKmh == p[0] as real
  {
    MotionRead(MotionFrom(s, true));
    SpeedCode(p[0]);
  }

  lemma SpeedCode(b: byte)
    ensures Clamp(Round(b as real / 0.01), 0, 0xFFFE) == 100 * b as int
    ensures (100 * b as int) as real * 0.01 == b as real
  {
    assert b as real / 0.01 == (100 * b as int) as real;
    RoundInt(100 * b as int);
  }

  lemma RpmNear(s: VehicleState, p: seq<byte>)
    requires Has(s, true, SIG_RPM) && Decode(PID_RPM, p) == Some(s.rpm)
    ensures Nearest(Word16(p) as real / 4.0, UnpackMotion(MotionBytes(MotionFrom(s, true))).rpm as real, 0.5)
  {
    MotionRead(MotionFrom(s, true));
  }

  lemma PowerExact(s: VehicleState, p: seq<byte>)
    requires Has(s, true, SIG_POWER_STATE) && |p| >= 2
    requires Carries(s, SIG_POWER_STATE, Word16(p) as real / 4.0)
    ensures UnpackMotion(MotionBytes(MotionFrom(s, true))).powerState as int == if Word16(p) > 0 then 3 else 2
  {
    MotionRead(MotionFrom(s, true));
  }

  lemma OdometerExact(s: VehicleState, p: seq<byte>)
    requires Has(s, true, SIG_ODOMETER) && Decode(PID_ODOMETER, p) == Some(s.odometerKm)
    ensures GetU32(TripBytes(TripFrom(s, true)), 0) == if WordOf(p) == 0xFFFF_FFFF then 0xFFFF_FFFE else WordOf(p)
  {
    var w := WordOf(p);
    OdometerCode(w);
    GetLe32(EncU32(s.odometerKm, 0.1, true), TripBytes(TripFrom(s, true)), 0);
  }

  lemma OdometerCode(w: u32)
    ensures EncU32(w as real / 10.0, 0.1, true) == if w == 0xFFFF_FFFF then 0xFFFF_FFFE else w
  {
    assert (w as real / 10.0) / 0.1 == w as real;
    RoundInt(w);
  }

  lemma DegreesCode(b: byte)
    ensures EncI8(b as real - 40.0, 1.0, true) as int == if b > 167 then 127 else b as int - 40
  {
    assert (b as real - 40.0) / 1.0 == (b as int - 40) as real;
    RoundInt(b as int - 40);
  }

  lemma AmbientExact(s: VehicleState, p: seq<byte>)
    requires Has(s, true, SIG_AMBIENT_TEMP) && Decode(PID_AMBIENT_TEMP, p) == Some(s.ambientC)
    ensures UnpackTrip(TripBytes(TripFrom(s, true))).ambientC as int == if p[0] > 167 then 127 else p[0] as int - 40
  {
    hide EncI8, UnpackTrip, TripBytes;
    TripRead(TripFrom(s, true));
    DegreesCode(p[0]);
  }

  lemma CoolantExact(s: VehicleState, p: seq<byte>)
    requires Has(s, true, SIG_COOLANT_TEMP) && Decode(PID_COOLANT_TEMP, p) == Some(s.coolantC)
    ensures UnpackThermal(ThermalBytes(ThermalFrom(s, true))).coolantC as int ==
            if p[0] > 167 then 127 else p[0] as int - 40
  {
    hide EncI8, UnpackThermal, ThermalBytes;
    ThermalRead(ThermalFrom(s, true));
    DegreesCode(p[0]);
  }

  lemma FuelNear(s: VehicleState, p: seq<byte>)
    requires Has(s, true, SIG_FUEL_LEVEL) && Decode(PID_FUEL_LEVEL, p) == Some(s.fuelPct)
    ensures Nearest(p[0] as real * 100.0 / 255.0, UnpackThermal(ThermalBytes(ThermalFrom(s, true))).fuelPct, 0.25)
  {
    hide UnpackThermal, ThermalBytes, Clamp, Round;
    ThermalRead(ThermalFrom(s, true));
    CodeError(s.fuelPct, 0.5, 0, 200);
  }

  lemma VoltsNear(s: VehicleState, p: seq<byte>)
    requires Has(s, true, SIG_AUX_BATTERY) && Decode(PID_MODULE_VOLTAGE, p) == Some(s.auxBatteryV)
    ensures Nearest(Word16(p) as real / 1000.0, UnpackThermal(ThermalBytes(ThermalFrom(s, true))).auxBatteryV, 0.005)
  {
    hide UnpackThermal, ThermalBytes, Clamp, Round;
    ThermalRead(ThermalFrom(s, true));
    CodeError(s.auxBatteryV, 0.01, 0, 0xFFFE);
  }

  lemma FaithfulOnWire(s: VehicleState, f: Frames, sig: Signal, p: seq<byte>)
    requires PidOf(sig).Some? && Has(s, true, sig)
    requires Decode(PidOf(sig).value, p).Some? && Carries(s, sig, Decode(PidOf(sig).value, p).value)
    requires f.motion == MotionFrom(s, true) && f.trip == TripFrom(s, true) && f.thermal == ThermalFrom(s, true)
    ensures Faithful(sig, p, FrameFor(f, CarrierOf(sig)))
  {
    hide UnpackMotion, UnpackTrip, UnpackThermal, MotionBytes, TripBytes, ThermalBytes, GetU32, Word16, WordOf;
    hide MotionFrom, TripFrom, ThermalFrom, Has;
    match sig
    case 0 => SpeedExact(s, p);
    case 1 => RpmNear(s, p);
    case 3 => PowerExact(s, p);
    case 12 => OdometerExact(s, p);
    case 13 => AmbientExact(s, p);
    case 15 => CoolantExact(s, p);
    case 16 => FuelNear(s, p);
    case _ => VoltsNear(s, p);
  }

  lemma HasMeans(s: VehicleState, sig: Signal)
    requires Set(s.valid, sig) && Set(s.capable, sig)
    ensures Has(s, true, sig)
  {
  }

  /** The clock readings of a run put every answer after time zero and before what is published later. */
  lemma AnswerBeforePublish(inputs: seq<Input>, j: nat, k: nat)
    requires Timely(inputs) && j <= k < |inputs|
    ensures 0 <= inputs[j].answerAt <= inputs[k].publishAt
  {
    TurnsInOrder(inputs, j, k);
  }

  lemma {:induction false} TurnsInOrder(inputs: seq<Input>, j: nat, k: nat)
    requires Timely(inputs) && j <= k < |inputs|
    ensures j < k ==> inputs[j].rearmAt <= inputs[k].nowAt
  {
    if j < k {
      TurnsInOrder(inputs, j, k - 1);
    }
  }

  lemma TimelyFromZero(inputs: seq<Input>)
    requires Timely(inputs)
    ensures ClockFromZero(inputs) && AnswersFromZero(inputs)
  {
  }

  /** The whole path at once, for any recorded run of the plugin (as `Plugin.Run` produces it), any
      interleaving with the publisher and any frame sent by any tick. A polled signal that decodes as valid
      was read from the bus in turn j, as the first answer of the ECU found by the last discovery d to a
      request for the signal's PID; up to the turn k of the last publish before the frame no later request for
      the PID brought a readable answer; the consumer's number is faithful to that payload; and its age is
      below the bound - and not negative, where the publish was stamped before the tick read its clock. */
  lemma EcuToConsumer(cfg: Config, ice: IceConfig, broadcastId: int, inputs: seq<Input>, log: seq<Traffic>,
                      w: World, es: seq<Event>, t: nat, e: Emission, sig: Signal)
      returns (m: nat, k: nat, j: nat, d: nat)
    requires ValidConfig(ice) && Timely(inputs)
    requires AllHeard(ice, broadcastId, inputs, log)
    requires ValidSlots(w.pub.slots) && w.pub.armed && w.store == NOTHING_YET
    requires Interleaves(es, Calls(ice, inputs)) && SentBy(cfg, w, es, t, e)
    requires e.id == CarrierOf(sig) && DecodesValid(sig, e.data)
    ensures ServedFrom(ice, inputs, es, t, m, k) && PidOf(sig).Some?
    ensures d <= j <= k
    ensures StandsSince(ice, inputs[..k + 1], PidOf(sig).value, j) && LastRediscovery(ice, inputs[..k + 1], d)
    ensures Advertises(broadcastId, log[d].walk, log[j].ecu, inputs[d].found)
    ensures inputs[j].answer.Some? && log[j].poll.asked == [RequestFrame(PidOf(sig).value)]
    ensures Replied(broadcastId, log[j].ecu, PidOf(sig).value, log[j].poll.read, inputs[j].answer)
    ensures forall i, f | j < i <= k && f in log[i].poll.read && log[i].poll.asked == [RequestFrame(PidOf(sig).value)] ::
              !Readable(broadcastId, log[i].ecu, PidOf(sig).value, f)
    ensures var pid, payload := PidOf(sig).value, inputs[j].answer.value.payload;
            && |payload| >= PayloadLength(pid) && Faithful(sig, payload, e.data)
            && e.at - inputs[j].answerAt < cfg.timeout + Stamping(inputs[k]) + (3 * ice.fastMs * TierOf(pid) + 1) * MS
            && (ClockSorted(es) ==> inputs[j].answerAt <= e.at)
  {
    hide DecodesValid, FrameFor, TierOf, Faithful, Standing, History, Run, Interleaves, SentBy, ServedFrom;
    hide MotionFrom, EDriveFrom, EnergyFrom, TripFrom, ThermalFrom, AssistFrom, Has, Calls, StandsSince, AllHeard;
    hide LastRediscovery, Advertises, Replied, Readable, Derive, Clocked, RequestFrame;
    TimelyFromZero(inputs);
    m, k := ValidSignalIsRecent(cfg, ice, inputs, w, es, t, e, sig);
    ServedTurn(ice, inputs, es, t, m, k);
    var p, pid, upTo := Run(cfg, w, es[..t]), PidOf(sig).value, inputs[..k + 1];
    j := StandingOrigin(ice, upTo, pid);
    StandingTurn(ice, upTo, pid, j);
    HeardUpTo(ice, broadcastId, inputs, log, k + 1);
    d := AnswerIsTheEcus(ice, broadcastId, upTo, log[..k + 1], pid, j);
    forall i | j < i <= k
      ensures log[i].poll.asked == [RequestFrame(pid)] ==>
                forall f :: f in log[i].poll.read ==> !Readable(broadcastId, log[i].ecu, pid, f)
    {
      NothingNewerRead(ice, broadcastId, upTo, log[..k + 1], pid, j, i);
    }
    AnswerBeforePublish(inputs, j, k);
    HasMeans(p.store.state, sig);
    FaithfulOnWire(p.store.state, FramesAt(cfg, p.store, e.at, p.pub.counter), sig, inputs[j].answer.value.payload);
  }

  lemma StandingTurn(ice: IceConfig, inputs: seq<Input>, pid: byte, j: nat)
    requires StandsSince(ice, inputs, pid, j)
    ensures j < |inputs|
  {
  }

  lemma HeardUpTo(ice: IceConfig, broadcastId: int, inputs: seq<Input>, log: seq<Traffic>, n: nat)
    requires AllHeard(ice, broadcastId, inputs, log) && n <= |inputs|
    ensures n <= |log| && AllHeard(ice, broadcastId, inputs[..n], log[..n])
  {
    hide Heard, SessionRun;
    assert forall k :: 0 <= k < n ==> inputs[..n][..k] == inputs[..k];
  }
}
