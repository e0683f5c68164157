/** Capabilities: from the bitmaps an ECU sends to the capability bits a consumer reads. */
module Announcements {
  import opened BitMasks
  import opened CodecLaws
  import opened Contract
  import opened Discovery
  import opened EndToEnd
  import opened Mapping
  import opened Provenance
  import opened Publisher
  import opened PublisherRuns
  import opened Session
  import opened SessionLaws
  import opened Vehicle

  /** The capability bitmap of a heartbeat is the translation of the stored state's, live or not. */
  lemma HeartbeatCapabilities(cfg: Config, w: World, es: seq<Event>, t: nat, e: Emission)
    requires ValidSlots(w.pub.slots) && w.pub.armed && SentBy(cfg, w, es, t, e) && e.id == ID_STATUS
    ensures t < |es| && UnpackStatus(e.data).capabilities == Capabilities(Run(cfg, w, es[..t]).store.state.capable)
  {
    hide Run, SentBy, Capabilities, StatusBytes, UnpackStatus, Derive;
    hide MotionFrom, EDriveFrom, EnergyFrom, TripFrom, ThermalFrom, AssistFrom;
    BuiltAtItsTick(cfg, w, es, t, e);
    var p := Run(cfg, w, es[..t]);
    StatusRead(FramesAt(cfg, p.store, e.at, p.pub.counter).status);
    CapabilitiesBounded(p.store.state.capable);
  }

  lemma BlankHasNothing(sig: Signal)
    ensures !Set(BLANK.capable, sig)
  {
    ZeroHasNoBits(sig);
  }

  /** A heartbeat announces a polled signal exactly when the plugin has published and, at the end of the turn
      of its last publish before the heartbeat, believed the vehicle to answer the signal's PID. */
  lemma AnnouncedExactlyWhen(cfg: Config, ice: IceConfig, inputs: seq<Input>, w: World, es: seq<Event>, t: nat,
                             e: Emission, sig: Signal) returns (m: nat, k: nat)
    requires ValidSlots(w.pub.slots) && w.pub.armed && w.store == NOTHING_YET
    requires Interleaves(es, Calls(ice, inputs)) && SentBy(cfg, w, es, t, e) && e.id == ID_STATUS
    requires PidOf(sig).Some?
    ensures t < |es|
    ensures Run(cfg, w, es[..t]).store.everPublished ==>
              && ServedFrom(ice, inputs, es, t, m, k) && k < |inputs|
              && (Set(UnpackStatus(e.data).capabilities, CapabilityOf(sig)) <==>
                    PidOf(sig).value in SessionRun(ice, inputs[..k + 1]).supported)
    ensures !Run(cfg, w, es[..t]).store.everPublished ==> !Set(UnpackStatus(e.data).capabilities, CapabilityOf(sig))
  {
    hide Run, SentBy, SessionRun, Calls, Iterate, ServedFrom, Interleaves, Capabilities, UnpackStatus, StateOf, Set;
    HeartbeatCapabilities(cfg, w, es, t, e);
    var d := Run(cfg, w, es[..t]).store;
    SoleSource(d.state.capable, sig);
    m, k := 0, 0;
    if d.everPublished {
      m, k := PublishBehind(cfg, ice, inputs, w, es, t);
      ServedTurn(ice, inputs, es, t, m, k);
      var c := Calls(ice, inputs)[m];
      RunOfTurn(ice, inputs, k);
      PublishedAtTurnEnd(ice, SessionRun(ice, inputs[..k]), inputs[k], c);
      PublishedBits(ice, SessionRun(ice, inputs[..k + 1]), Ms(c.sampledAt), sig);
    } else {
      UnpublishedIsBlank(cfg, w, es[..t]);
      BlankHasNothing(sig);
    }
  }

  /** Against honest ECUs a heartbeat never announces a signal the vehicle does not have: the PID behind it is
      supported, and reachable along its bitmap chain, by the ECU that answered the last successful
      discovery before the publish behind the heartbeat. */
  lemma AnnouncedIsSupported(cfg: Config, ice: IceConfig, broadcastId: int, inputs: seq<Input>, log: seq<Traffic>,
                             supports: map<nat, set<byte>>, w: World, es: seq<Event>, t: nat, e: Emission, sig: Signal)
      returns (m: nat, k: nat, d: nat)
    requires AllHeard(ice, broadcastId, inputs, log) && HonestEcus(AllRead(log), supports)
    requires ValidSlots(w.pub.slots) && w.pub.armed && w.store == NOTHING_YET
    requires Interleaves(es, Calls(ice, inputs)) && SentBy(cfg, w, es, t, e) && e.id == ID_STATUS
    requires PidOf(sig).Some? && Set(UnpackStatus(e.data).capabilities, CapabilityOf(sig))
    ensures ServedFrom(ice, inputs, es, t, m, k) && LastRediscovery(ice, inputs[..k + 1], d)
    ensures log[d].ecu in supports && Discoverable(supports[log[d].ecu], PidOf(sig).value)
  {
    hide Run, SentBy, SessionRun, Calls, ServedFrom, Interleaves, UnpackStatus, Set, HonestEcus, Discoverable, AllHeard;
    m, k := AnnouncedExactlyWhen(cfg, ice, inputs, w, es, t, e, sig);
    ServedTurn(ice, inputs, es, t, m, k);
    HeardUpTo(ice, broadcastId, inputs, log, k + 1);
    ReadUpTo(log, k + 1);
    var rest := AllRead(log)[|AllRead(log[..k + 1])|..];
    assert [] + AllRead(log[..k + 1]) + rest == AllRead(log);
    HonestPart([], AllRead(log[..k + 1]), rest, supports);
    d := SupportIsHonest(ice, broadcastId, inputs[..k + 1], log[..k + 1], supports, PidOf(sig).value);
  }

  lemma {:induction false} ReadUpTo(log: seq<Traffic>, n: nat)
    requires n <= |log|
    ensures AllRead(log[..n]) <= AllRead(log)
    decreases |log| - n
  {
    if n == |log| {
      assert log[..n] == log;
    } else {
      ReadUpTo(log, n + 1);
      assert log[..n + 1][..n] == log[..n];
    }
  }
}
