/** What a consumer may conclude from any frame of any run, in terms of the plugin's calls before it: from the
    history of link and publish calls to the bytes on the bus. */
module Consumer {
  import opened BitMasks
  import opened CodecLaws
  import opened Contract
  import opened EndToEnd
  import opened Mapping
  import opened Options
  import opened Publisher
  import opened PublisherRuns
  import opened Session
  import opened SessionLaws
  import opened Vehicle
  import opened WireHonesty
  import WireTable
  import WireValues

  /** The plugin is in touch with the vehicle: its last link call said the vehicle is there, and the state it
      published last is at most the plugin timeout old. */
  predicate InTouch(es: seq<Event>, now: Nanos, timeout: Nanos) {
    LastLink(es) == Some(true) && LastPublished(es).Some? && now - LastPublished(es).value.at <= timeout
  }

  /** The state published last, all blank before the first publish. */
  function LastState(es: seq<Event>): VehicleState {
    var p := LastPublished(es);
    if p.Some? then p.value.state else BLANK
  }

  /** What the frame shows is the state published last, with live data exactly while the plugin is in touch. */
  lemma BuiltFromHistory(cfg: Config, w: World, es: seq<Event>, t: nat, e: Emission)
      returns (state: byte, counter: byte)
    requires ValidSlots(w.pub.slots) && w.pub.armed && w.store == NOTHING_YET && SentBy(cfg, w, es, t, e)
    ensures t < |es| && es[t] == TickEv(e.at)
    ensures var s := LastState(es[..t]);
            e.data == FrameFor(FramesFrom(s, InTouch(es[..t], e.at, cfg.timeout), state, counter, cfg.major, cfg.minor),
                               e.id)
  {
    hide FrameFor, FramesFrom, Run, SentBy;
    BuiltAtItsTick(cfg, w, es, t, e);
    var p := Run(cfg, w, es[..t]);
    StoreIsHistory(cfg, w, es[..t]);
    if !p.store.everPublished { UnpublishedIsBlank(cfg, w, es[..t]); }
    state, counter := Derive(p.store, e.at, cfg.timeout).proxyState, p.pub.counter;
  }

  /** A carrier frame shows a signal as available exactly when the plugin was in touch with the vehicle at that
      tick and the state published last marks the signal valid and capable, with a value in the ABI's range
      - whatever the other signals of that state are. The number read is then that state's, within half a
      step, read off the bytes by the layout table. */
  lemma ShownExactlyWhen(cfg: Config, w: World, es: seq<Event>, t: nat, e: Emission, sig: Signal)
    requires ValidSlots(w.pub.slots) && w.pub.armed && w.store == NOTHING_YET && SentBy(cfg, w, es, t, e)
    requires e.id == CarrierOf(sig)
    ensures t < |es| && es[t] == TickEv(e.at)
    ensures DecodesValid(sig, e.data) <==>
              && LastLink(es[..t]) == Some(true)
              && var p := LastPublished(es[..t]);
                 && p.Some? && e.at - p.value.at <= cfg.timeout
                 && Set(p.value.state.valid, sig) && Set(p.value.state.capable, sig) && InAbiRange(p.value.state, sig)
    ensures WireTable.Code(sig, e.data) != WireTable.NotAvailable(sig) <==> DecodesValid(sig, e.data)
    ensures DecodesValid(sig, e.data) ==>
              && WireValues.Near(sig, WireValues.Published(LastState(es[..t]), sig), WireValues.Reading(sig, e.data))
              && WireValues.Reading(sig, e.data) == WireTable.Code(sig, e.data) as real * WireTable.PlaceOf(sig).step
  {
    hide FrameFor, FramesFrom, SentBy, DecodesValid, Set, InAbiRange;
    hide WireValues.Near, WireValues.Published, WireValues.Reading;
    var state, counter := BuiltFromHistory(cfg, w, es, t, e);
    var s, live := LastState(es[..t]), InTouch(es[..t], e.at, cfg.timeout);
    ValidOnWireExactlyWhen(s, live, state, counter, cfg.major, cfg.minor, sig);
    WireTable.ReadByTable(sig, e.data);
    if DecodesValid(sig, e.data) {
      WireValues.ValueOnWire(s, live, state, counter, cfg.major, cfg.minor, sig);
    }
  }

  /** A telltale frame carries the assigned lamps of the state published last, byte by byte, exactly while the
      plugin is in touch with the vehicle, and is dark otherwise. */
  lemma LampsShownExactlyWhen(cfg: Config, w: World, es: seq<Event>, t: nat, e: Emission)
    requires ValidSlots(w.pub.slots) && w.pub.armed && w.store == NOTHING_YET && SentBy(cfg, w, es, t, e)
    requires e.id == 0x420
    ensures t < |es| && es[t] == TickEv(e.at)
    ensures forall i :: 4 <= i < 8 ==> e.data[i] == 0
    ensures var p := LastPublished(es[..t]);
            WireTable.LittleEndian(e.data[..4]) ==
            if LastLink(es[..t]) == Some(true) && p.Some? && e.at - p.value.at <= cfg.timeout
            then p.value.state.lamps % 0x10_0000 else 0
  {
    hide SentBy, Le32, GetU32;
    hide MotionFrom, EDriveFrom, EnergyFrom, TripFrom, ThermalFrom, AssistFrom, Capabilities;
    var state, counter := BuiltFromHistory(cfg, w, es, t, e);
    WireTable.FourBytes(e.data, 0);
    var s, live := LastState(es[..t]), InTouch(es[..t], e.at, cfg.timeout);
    GetLe32(if live then s.lamps % TT_LIMIT else 0, e.data, 0);
  }

  /** The status frame, byte by byte: contract version 1.1, a counter, the proxy state, and the translation of the
      capabilities published last. */
  lemma StatusBytesOnBus(cfg: Config, w: World, es: seq<Event>, t: nat, e: Emission)
    requires ValidSlots(w.pub.slots) && w.pub.armed && w.store == NOTHING_YET && SentBy(cfg, w, es, t, e)
    requires e.id == 0x400
    ensures t < |es| && es[t] == TickEv(e.at)
    ensures e.data[0] == 1 && e.data[1] == 1
    ensures WireTable.LittleEndian(e.data[4..]) == Capabilities(LastState(es[..t]).capable)
  {
    hide SentBy, Le32, GetU32, Capabilities;
    hide MotionFrom, EDriveFrom, EnergyFrom, TripFrom, ThermalFrom, AssistFrom;
    var state, counter := BuiltFromHistory(cfg, w, es, t, e);
    var caps := Capabilities(LastState(es[..t]).capable);
    CapabilitiesBounded(LastState(es[..t]).capable);
    WireTable.FourBytes(e.data, 4);
    assert e.data[4..] == e.data[4..4 + 4];
    GetLe32(caps, e.data, 4);
  }

  /** The identity frame, byte by byte, live or not: drivetrain and source as the state published last names
      them, 0 for a value the contract does not know; the plugin's version; the vehicle's identifier. */
  lemma IdentityBytesOnBus(cfg: Config, w: World, es: seq<Event>, t: nat, e: Emission)
    requires ValidSlots(w.pub.slots) && w.pub.armed && w.store == NOTHING_YET && SentBy(cfg, w, es, t, e)
    requires e.id == 0x401
    ensures t < |es| && es[t] == TickEv(e.at)
    ensures var s := LastState(es[..t]);
            && e.data[0] as int == (if s.drivetrain in {1, 2, 3, 4, 5} then s.drivetrain else 0)
            && e.data[1] as int == (if s.source in {1, 2, 3} then s.source else 0)
            && e.data[2] == cfg.major && e.data[3] == cfg.minor
            && WireTable.LittleEndian(e.data[4..]) == s.vehicleId
  {
    hide SentBy, Le32, GetU32, Capabilities;
    hide MotionFrom, EDriveFrom, EnergyFrom, TripFrom, ThermalFrom, AssistFrom;
    var state, counter := BuiltFromHistory(cfg, w, es, t, e);
    WireTable.FourBytes(e.data, 4);
    assert e.data[4..] == e.data[4..4 + 4];
    GetLe32(LastState(es[..t]).vehicleId, e.data, 4);
  }

  // ---------------------------------------------------------------- from the ECU's answers

  /** What is behind a polled signal: the PID, and for how many fast periods its answer counts. */
  datatype Polled = Polled(pid: byte, periods: nat)

  function PolledFor(sig: Signal): Option<Polled> {
    match sig
    case 0 => Some(Polled(0x0D, 3))
    case 1 => Some(Polled(0x0C, 3))
    case 3 => Some(Polled(0x0C, 3))
    case 12 => Some(Polled(0xA6, 60))
    case 13 => Some(Polled(0x46, 60))
    case 15 => Some(Polled(0x05, 15))
    case 16 => Some(Polled(0x2F, 60))
    case 17 => Some(Polled(0x42, 60))
    case _ => None
  }

  lemma PolledTable(sig: Signal)
    ensures PidOf(sig) == if PolledFor(sig).None? then None else Some(PolledFor(sig).value.pid)
    ensures PolledFor(sig).Some? ==> PolledFor(sig).value.periods == 3 * TierOf(PolledFor(sig).value.pid)
  {
  }

  /** The answer for the signal's PID stands at the end of turn k and is young enough at the given sample. */
  predicate FreshAnswer(ice: IceConfig, inputs: seq<Input>, k: nat, sig: Signal, sampledAt: Nanos)
    requires k < |inputs|
  {
    PolledFor(sig).Some? &&
    var q := PolledFor(sig).value;
    var a := Standing(History(ice, inputs[..k + 1]), q.pid);
    a.Some? && Ms(sampledAt) - Ms(a.value.at) <= q.periods * ice.fastMs
  }

  /** End to end, in both directions: any run of the plugin, any interleaving with the publisher, any frame. A
      signal is available in it exactly when the last link call said the vehicle is there, the last publish is
      at most the plugin timeout old, and an answer for the signal's PID stood at the end of that
      publish's turn, at most three of the PID's intervals old when the state was sampled. */
  lemma VisibleExactlyWhen(cfg: Config, ice: IceConfig, inputs: seq<Input>, w: World, es: seq<Event>, t: nat,
                           e: Emission, sig: Signal) returns (m: nat, k: nat)
    requires ValidConfig(ice) && ClockFromZero(inputs) && AnswersFromZero(inputs)
    requires ValidSlots(w.pub.slots) && w.pub.armed && w.store == NOTHING_YET
    requires Interleaves(es, Calls(ice, inputs)) && SentBy(cfg, w, es, t, e) && e.id == CarrierOf(sig)
    ensures t < |es|
    ensures LastPublished(es[..t]).None? ==> !DecodesValid(sig, e.data)
    ensures LastPublished(es[..t]).Some? ==>
              && ServedFrom(ice, inputs, es, t, m, k) && k < |inputs| && m < |Calls(ice, inputs)|
              && var c := Calls(ice, inputs)[m];
                 && c.Publish?
                 && (DecodesValid(sig, e.data) <==>
                       && LastLink(es[..t]) == Some(true) && e.at - c.at <= cfg.timeout
                       && FreshAnswer(ice, inputs, k, sig, c.sampledAt))
  {
    hide DecodesValid, Set, Run, SentBy, Interleaves, Calls, ServedFrom, Iterate, Standing, History;
    hide WireValues.Near, WireValues.Published, WireValues.Reading, PolledFor, PidOf, TierOf, Carries;
    ShownExactlyWhen(cfg, w, es, t, e, sig);
    StoreIsHistory(cfg, w, es[..t]);
    m, k := 0, 0;
    if LastPublished(es[..t]).Some? {
      m, k := PublishBehind(cfg, ice, inputs, w, es, t);
      ServedTurn(ice, inputs, es, t, m, k);
      var c := Calls(ice, inputs)[m];
      PublishedExactlyWhenFresh(ice, inputs, k, c, sig);
      PublishedInRange(ice, inputs, k, c, sig);
      PolledTable(sig);
    }
  }

  /** What a session publishes as valid is also capable and in range. */
  lemma PublishedInRange(ice: IceConfig, inputs: seq<Input>, k: nat, c: HostCall, sig: Signal)
    requires k < |inputs| && c in Iterate(ice, SessionRun(ice, inputs[..k]), inputs[k]).1 && c.Publish?
    ensures Set(c.state.valid, sig) ==> Set(c.state.capable, sig)
    ensures InAbiRange(c.state, sig)
  {
    hide Iterate, CapableMask, ValidMask, Value, Current, Set, SessionRun;
    var s := SessionRun(ice, inputs[..k]);
    PublishedAtTurnEnd(ice, s, inputs[k], c);
    PublishedBits(ice, Iterate(ice, s, inputs[k]).0, Ms(c.sampledAt), sig);
  }

  /** Before the plugin's first publish every identity frame carries the plugin's version and nothing else; from then
      on it a combustion vehicle, the plugin's source and its vehicle identifier, whether the vehicle is
      there or not. */
  lemma IdentityIsThePlugins(cfg: Config, ice: IceConfig, inputs: seq<Input>, w: World, es: seq<Event>, t: nat,
                             e: Emission)
    requires ValidSlots(w.pub.slots) && w.pub.armed && w.store == NOTHING_YET
    requires Interleaves(es, Calls(ice, inputs)) && SentBy(cfg, w, es, t, e) && e.id == 0x401
    ensures t < |es|
    ensures e.data[2] == cfg.major && e.data[3] == cfg.minor
    ensures LastPublished(es[..t]).None? ==>
              e.data[0] == 0 && e.data[1] == 0 && WireTable.LittleEndian(e.data[4..]) == 0
    ensures LastPublished(es[..t]).Some? ==>
              && e.data[0] == 1 && e.data[1] as int == (if ice.source in {1, 2, 3} then ice.source else 0)
              && WireTable.LittleEndian(e.data[4..]) == ice.vehicleId
  {
    hide Run, SentBy, Interleaves, Calls, ServedFrom, Iterate, StateOf, SessionRun, WireTable.LittleEndian;
    IdentityBytesOnBus(cfg, w, es, t, e);
    StoreIsHistory(cfg, w, es[..t]);
    if LastPublished(es[..t]).Some? {
      var m, k := PublishBehind(cfg, ice, inputs, w, es, t);
      ServedTurn(ice, inputs, es, t, m, k);
      var c := Calls(ice, inputs)[m];
      PublishedAtTurnEnd(ice, SessionRun(ice, inputs[..k]), inputs[k], c);
      StateNames(ice, Iterate(ice, SessionRun(ice, inputs[..k]), inputs[k]).0, Ms(c.sampledAt));
    }
  }

  /** Nothing is invented: in a state the session publishes, the field of every signal that is not marked valid is
      zero, and only polled signals are ever marked. */
  lemma NothingInvented(ice: IceConfig, s: Session, now: int, sig: Signal)
    ensures !Set(StateOf(ice, s, now).valid, sig) ==> WireValues.Published(StateOf(ice, s, now), sig) == 0.0
    ensures Set(StateOf(ice, s, now).valid, sig) ==> sig in {0, 1, 3, 12, 13, 15, 16, 17}
  {
    hide CapableMask, ValidMask, Current, Set;
    PublishedBits(ice, s, now, sig);
  }

  lemma StateNames(ice: IceConfig, s: Session, now: int)
    ensures var st := StateOf(ice, s, now);
            st.drivetrain == 1 && st.source == ice.source && st.vehicleId == ice.vehicleId
  {
    hide CapableMask, ValidMask, Value, Current;
  }
}
