/** The publish schedule: nine slots with their own periods, a resync rule for a publisher that
    fell behind, a rolling counter in the heartbeat, and the proxy state derived from what the
    plugin last told the store. The classes update their fields in place; each method is proved
    to perform one step of the functions below, which the run-level theorems reason about. */
module Publisher {
  import opened BitMasks
  import opened Contract
  import opened Mapping
  import opened Vehicle
  import opened WireHonesty

  type Nanos = int
  const MS := 1_000_000

  // ---------------------------------------------------------------- state store

  datatype Snapshot = Snapshot(state: VehicleState, everPublished: bool, linkKnown: bool, linkPresent: bool,
                               lastPublish: Nanos)

  const NOTHING_YET := Snapshot(BLANK, false, false, false, 0)

  function Published(d: Snapshot, s: VehicleState, now: Nanos): Snapshot {
    d.(state := s, everPublished := true, lastPublish := now)
  }

  function Linked(d: Snapshot, present: bool): Snapshot {
    d.(linkKnown := true, linkPresent := present)
  }

  class StateStore {
    var data: Snapshot

    constructor ()
      ensures data == NOTHING_YET
    {
      data := NOTHING_YET;
    }

    method Publish(s: VehicleState, now: Nanos)
      modifies this
      ensures data == Published(old(data), s, now)
    {
      data := data.(state := s);
      data := data.(everPublished := true, lastPublish := now);
    }

    method SetLink(present: bool, now: Nanos)
      modifies this
      ensures data == Linked(old(data), present)
    {
      data := data.(linkKnown := true);
      data := data.(linkPresent := present);
    }
  }

  // ---------------------------------------------------------------- proxy state

  datatype Derived = Derived(proxyState: byte, live: bool)

  /** Every advertised signal currently holds a measurement: (valid & capable) == capable. */
  predicate AllFresh(s: VehicleState) {
    forall i :: 0 <= i < 32 && Set(s.capable, i) ==> Set(s.valid, i)
  }

  function Derive(snap: Snapshot, now: Nanos, timeout: Nanos): Derived {
    if !snap.linkKnown then Derived(STATE_STARTING, false)
    else if !snap.linkPresent then Derived(STATE_NO_VEHICLE, false)
    else if !snap.everPublished || now - snap.lastPublish > timeout then Derived(STATE_DEGRADED, false)
    else Derived(if AllFresh(snap.state) then STATE_OK else STATE_DEGRADED, true)
  }

  // ---------------------------------------------------------------- slots

  const ORDER: seq<int> := [ID_STATUS, ID_IDENTITY, ID_MOTION, ID_EDRIVE, ID_TELLTALES, ID_ENERGY, ID_TRIP,
                            ID_THERMAL, ID_ASSIST]

  datatype Slot = Slot(id: int, cycle: Nanos, due: Nanos)
  datatype Emission = Emission(at: Nanos, id: int, data: Frame)
  datatype Config = Config(timeout: Nanos, major: byte, minor: byte)
  datatype PubState = PubState(slots: seq<Slot>, counter: byte, lastState: byte, armed: bool)

  predicate ValidSlots(slots: seq<Slot>) {
    && |slots| == FRAME_COUNT
    && forall i :: 0 <= i < FRAME_COUNT ==> slots[i].id == ORDER[i] && slots[i].cycle == CycleMs(ORDER[i]) * MS
  }

  /** When a slot that is sent at `now` becomes due again. A publisher that fell behind by more
      than a period restarts the schedule from `now` instead of catching up. */
  function NextDue(due: Nanos, cycle: Nanos, now: Nanos): Nanos {
    if due + cycle < now then now + cycle else due + cycle
  }

  function Fire(s: Slot, now: Nanos): Slot {
    if now < s.due then s else s.(due := NextDue(s.due, s.cycle, now))
  }

  function FireAll(slots: seq<Slot>, now: Nanos): (r: seq<Slot>)
    ensures |r| == |slots|
  {
    seq(|slots|, i requires 0 <= i < |slots| => Fire(slots[i], now))
  }

  /** The slots part-way through the send loop: the first `n` have been served. */
  function Served(slots: seq<Slot>, n: nat, now: Nanos): (r: seq<Slot>)
    ensures |r| == |slots|
  {
    seq(|slots|, i requires 0 <= i < |slots| => if i < n then Fire(slots[i], now) else slots[i])
  }

  lemma ServedLaws(slots: seq<Slot>, now: Nanos)
    requires ValidSlots(slots)
    ensures Served(slots, 0, now) == slots && Served(slots, FRAME_COUNT, now) == FireAll(slots, now)
    ensures forall n :: 0 <= n < FRAME_COUNT ==> Served(slots, n, now)[n] == slots[n]
    ensures forall n :: 0 <= n < FRAME_COUNT ==>
              Served(slots, n, now)[n := Fire(slots[n], now)] == Served(slots, n + 1, now)
    ensures forall n :: 0 <= n <= FRAME_COUNT ==> ValidSlots(Served(slots, n, now))
  {
  }

  /** What a slot puts on the bus: nothing before it is due, and never the optional assist frame
      unless the capability bitmap announces it. */
  function SendOf(s: Slot, f: Frames, now: Nanos): seq<Emission> {
    if now < s.due then []
    else if s.id == ID_ASSIST && !Set(f.status.capabilities, CAP_ASSIST) then []
    else [Emission(now, s.id, FrameFor(f, s.id))]
  }

  function Sends(slots: seq<Slot>, f: Frames, now: Nanos): seq<Emission> {
    if slots == [] then [] else Sends(slots[..|slots| - 1], f, now) + SendOf(slots[|slots| - 1], f, now)
  }

  lemma NothingToSend(f: Frames, now: Nanos)
    ensures Sends([], f, now) == []
  {
  }

  lemma SendsGrow(slots: seq<Slot>, f: Frames, now: Nanos, n: nat)
    requires 0 < n <= |slots|
    ensures Sends(slots[..n], f, now) == Sends(slots[..n - 1], f, now) + SendOf(slots[n - 1], f, now)
  {
    hide SendOf;
    assert slots[..n][..n - 1] == slots[..n - 1];
  }

  predicate AnyDue(slots: seq<Slot>, now: Nanos) {
    exists i :: 0 <= i < |slots| && slots[i].due <= now
  }

  /** The rolling heartbeat counter, 0-255. */
  function Next(counter: byte): byte { (counter as int + 1) % 0x100 }

  function MinDue(slots: seq<Slot>): (m: Nanos)
    requires |slots| > 0
    ensures forall i :: 0 <= i < |slots| ==> m <= slots[i].due
    ensures exists i :: 0 <= i < |slots| && m == slots[i].due
  {
    if |slots| == 1 then slots[0].due
    else
      var rest := MinDue(slots[..|slots| - 1]);
      if slots[|slots| - 1].due < rest then slots[|slots| - 1].due else rest
  }

  function Armed(p: PubState, now: Nanos): PubState {
    p.(slots := seq(|p.slots|, i requires 0 <= i < |p.slots| => p.slots[i].(due := now)), armed := true)
  }

  function FramesAt(cfg: Config, snap: Snapshot, now: Nanos, counter: byte): Frames {
    var d := Derive(snap, now, cfg.timeout);
    FramesFrom(snap.state, d.live, d.proxyState, counter, cfg.major, cfg.minor)
  }

  /** One tick of an armed publisher. */
  function TickArmed(cfg: Config, p: PubState, snap: Snapshot, now: Nanos): (PubState, seq<Emission>)
    requires ValidSlots(p.slots)
  {
    if !AnyDue(p.slots, now) then (p, [])
    else (PubState(FireAll(p.slots, now),
                   if p.slots[0].due <= now then Next(p.counter) else p.counter,
                   Derive(snap, now, cfg.timeout).proxyState,
                   p.armed),
          Sends(p.slots, FramesAt(cfg, snap, now, p.counter), now))
  }

  function Tick(cfg: Config, p: PubState, snap: Snapshot, now: Nanos): (PubState, seq<Emission>)
    requires ValidSlots(p.slots)
  {
    TickArmed(cfg, if p.armed then p else Armed(p, now), snap, now)
  }

  // ---------------------------------------------------------------- the publisher object

  class Publisher {
    const store: StateStore
    const cfg: Config
    const slots: array<Slot>
    var counter: byte
    var lastState: byte
    var armed: bool
    /** Everything handed to the bus so far. */
    ghost var trace: seq<Emission>

    ghost predicate Valid()
      reads this, slots
    {
      ValidSlots(slots[..])
    }

    ghost function State(): PubState
      reads this, slots
    {
      PubState(slots[..], counter, lastState, armed)
    }

    constructor (store: StateStore, cfg: Config)
      ensures Valid() && fresh(slots) && this.store == store && this.cfg == cfg && trace == []
      ensures counter == 0 && lastState == 0 && !armed
      ensures forall i :: 0 <= i < slots.Length ==> slots[i].due == 0
    {
      this.store := store;
      this.cfg := cfg;
      slots := new Slot[FRAME_COUNT](i => Slot(0, 0, 0));
      counter, lastState, armed, trace := 0, 0, false, [];
      new;
      for i := 0 to FRAME_COUNT
        invariant forall k :: 0 <= k < i ==>
                    slots[k].id == ORDER[k] && slots[k].cycle == CycleMs(ORDER[k]) * MS && slots[k].due == 0
        invariant counter == 0 && lastState == 0 && !armed && trace == []
      {
        slots[i] := Slot(ORDER[i], CycleMs(ORDER[i]) * MS, 0);
      }
    }

    method Arm(now: Nanos)
      requires Valid()
      modifies this`armed, slots
      ensures Valid()
      ensures State() == Armed(old(State()), now)
    {
      for i := 0 to slots.Length
        invariant forall k :: 0 <= k < i ==> slots[k] == old(slots[k]).(due := now)
        invariant forall k :: i <= k < slots.Length ==> slots[k] == old(slots[k])
      {
        slots[i] := slots[i].(due := now);
      }
      armed := true;
    }

    method SendFrame(idx: nat, f: Frames, now: Nanos)
      requires Valid() && idx < FRAME_COUNT && slots[idx].due <= now
      modifies this`trace
      ensures trace == old(trace) + SendOf(slots[idx], f, now)
    {
      assert slots[..][idx] == slots[idx];
      var d := new byte[8];
      match slots[idx].id {
        case 0x400 => PackStatus(f.status, d);
        case 0x401 => PackIdentity(f.identity, d);
        case 0x410 => PackMotion(f.motion, d);
        case 0x411 => PackEDrive(f.edrive, d);
        case 0x420 => PackTelltales(f.telltales, d);
        case 0x430 => PackEnergy(f.energy, d);
        case 0x431 => PackTrip(f.trip, d);
        case 0x440 => PackThermal(f.thermal, d);
        case _ =>
          if !Set(f.status.capabilities, CAP_ASSIST) {
            return;
          }
          PackAssist(f.assist, d);
      }
      trace := trace + [Emission(now, slots[idx].id, d[..])];
    }

    method DueNow(now: Nanos) returns (anyDue: bool)
      requires Valid()
      ensures anyDue == AnyDue(slots[..], now)
    {
      anyDue := false;
      var i := 0;
      while i < slots.Length && !anyDue
        invariant 0 <= i <= slots.Length
        invariant anyDue ==> AnyDue(slots[..], now)
        invariant !anyDue ==> forall k :: 0 <= k < i ==> now < slots[..][k].due
      {
        assert slots[..][i] == slots[i];
        anyDue := now >= slots[i].due;
        i := i + 1;
      }
    }

    method EarliestDue() returns (next: Nanos)
      requires Valid()
      ensures next == MinDue(slots[..])
    {
      next := slots[0].due;
      var i := 0;
      while i < slots.Length
        invariant 0 <= i <= slots.Length
        invariant i == 0 ==> next == slots[0].due
        invariant i > 0 ==> next == MinDue(slots[..i])
      {
        assert slots[..i + 1][..i] == slots[..i];
        if slots[i].due < next {
          next := slots[i].due;
        }
        i := i + 1;
      }
      assert slots[..slots.Length] == slots[..];
    }

    /** The body of the send loop for one slot: count, send, reschedule, resync. */
    method ServeSlot(i: nat, f: Frames, now: Nanos)
      requires Valid() && i < FRAME_COUNT
      modifies this`counter, this`trace, slots
      ensures slots[..] == old(slots[..])[i := Fire(old(slots[i]), now)]
      ensures trace == old(trace) + SendOf(old(slots[i]), f, now)
      ensures counter == if old(slots[i]).due <= now && i == 0 then Next(old(counter)) else old(counter)
    {
      hide FrameFor;
      assert slots[..][i] == slots[i];
      if now < slots[i].due {
        return;
      }
      if slots[i].id == ID_STATUS {
        counter := Next(counter);
      }
      SendFrame(i, f, now);
      slots[i] := slots[i].(due := slots[i].due + slots[i].cycle);
      if slots[i].due < now {
        slots[i] := slots[i].(due := now + slots[i].cycle);
      }
    }

    method ServeAll(f: Frames, now: Nanos)
      requires Valid()
      modifies this`counter, this`trace, slots
      ensures slots[..] == FireAll(old(slots[..]), now)
      ensures trace == old(trace) + Sends(old(slots[..]), f, now)
      ensures counter == if old(slots[..])[0].due <= now then Next(old(counter)) else old(counter)
    {
      hide FrameFor, SendOf, Next, Served, FireAll, Fire, Sends;
      ghost var was := slots[..];
      ServedLaws(was, now);
      NothingToSend(f, now);
      var i := 0;
      while i < FRAME_COUNT
        invariant 0 <= i <= FRAME_COUNT
        invariant slots[..] == Served(was, i, now)
        invariant trace == old(trace) + Sends(was[..i], f, now)
        invariant counter == if i > 0 && was[0].due <= now then Next(old(counter)) else old(counter)
      {
        SendsGrow(was, f, now, i + 1);
        ServeSlot(i, f, now);
        i := i + 1;
      }
      assert was[..FRAME_COUNT] == was;
    }

    method SendDue(now: Nanos)
      requires Valid() && AnyDue(slots[..], now)
      modifies this, slots
      ensures Valid() && armed == old(armed)
      ensures State() == TickArmed(cfg, old(State()), store.data, now).0
      ensures trace == old(trace) + TickArmed(cfg, old(State()), store.data, now).1
    {
      hide FramesFrom, Derive, Sends, Next;
      var snap := store.data;
      var derived := Derive(snap, now, cfg.timeout);
      if derived.proxyState != lastState {
        lastState := derived.proxyState;
      }
      var f := FramesFrom(snap.state, derived.live, derived.proxyState, counter, cfg.major, cfg.minor);
      ServeAll(f, now);
    }

    /** Sends every frame due at `now`; returns the next deadline. */
    method TickAt(now: Nanos) returns (next: Nanos)
      requires Valid()
      modifies this, slots
      ensures Valid()
      ensures State() == Tick(cfg, old(State()), store.data, now).0
      ensures trace == old(trace) + Tick(cfg, old(State()), store.data, now).1
      ensures next == MinDue(slots[..])
    {
      hide FramesFrom, FrameFor, Derive, Sends, FireAll;
      if !armed {
        Arm(now);
      }
      var anyDue := DueNow(now);
      if anyDue {
        SendDue(now);
      }
      next := EarliestDue();
    }
  }
}
