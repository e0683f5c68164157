/** The obd2-ice session as a transition function. One transition is one turn of the plugin's loop;
    what the vehicle does and what the clock reads during the turn are its inputs. */
module Session {
  import opened BitMasks
  import opened Contract
  import opened J1979
  import opened J1979Client
  import opened Options
  import opened Poller
  import opened Publisher
  import opened Vehicle

  datatype IceConfig = IceConfig(fastMs: int, source: int, vehicleId: Mask)

  predicate ValidConfig(cfg: IceConfig) { 20 <= cfg.fastMs <= 5000 }

  /** The millisecond clock is the nanosecond clock, rounded down. */
  function Ms(t: Nanos): int { t / MS }

  /** Poll tiers: each wanted PID and its interval as a multiple of the fast tier. */
  const WANTED: seq<(byte, int)> := [(PID_SPEED, 1), (PID_RPM, 1), (PID_COOLANT_TEMP, 5), (PID_FUEL_LEVEL, 20),
                                     (PID_MODULE_VOLTAGE, 20), (PID_AMBIENT_TEMP, 20), (PID_ODOMETER, 20)]

  function TierOf(pid: byte): nat {
    match pid
    case 0x0D => 1
    case 0x0C => 1
    case 0x05 => 5
    case 0x2F => 20
    case 0x42 => 20
    case 0x46 => 20
    case 0xA6 => 20
    case _ => 0
  }

  predicate Wanted(pid: byte) { TierOf(pid) > 0 }

  function ScheduleUpTo(supported: set<byte>, fastMs: int, n: nat): seq<Item>
    requires n <= |WANTED|
  {
    if n == 0 then []
    else
      var rest := ScheduleUpTo(supported, fastMs, n - 1);
      if WANTED[n - 1].0 in supported then Added(rest, WANTED[n - 1].0, fastMs * WANTED[n - 1].1) else rest
  }

  /** The signals a PID feeds, in the order the source reports them. */
  const REPORTED: seq<(byte, Signal)> :=
    [(PID_SPEED, SIG_SPEED), (PID_RPM, SIG_RPM), (PID_COOLANT_TEMP, SIG_COOLANT_TEMP),
     (PID_FUEL_LEVEL, SIG_FUEL_LEVEL), (PID_MODULE_VOLTAGE, SIG_AUX_BATTERY),
     (PID_AMBIENT_TEMP, SIG_AMBIENT_TEMP), (PID_ODOMETER, SIG_ODOMETER)]

  datatype Session = Session(discovered: bool, supported: set<byte>, items: seq<Item>, unanswered: nat,
                             values: map<byte, real>, lamps: Mask, lampsSeenMs: int, nextPublish: int)

  const FRESH_SESSION := Session(false, {}, [], 0, map[], 0, -1, 0)

  /** False for the two known fillers: a module voltage below 6 V, an ambient temperature of -40. */
  predicate Plausible(pid: byte, v: real) {
    !(pid == PID_MODULE_VOLTAGE && v < 6.0) && !(pid == PID_AMBIENT_TEMP && v <= -40.0)
  }

  // ---------------------------------------------------------------- what is published

  /** The PID is advertised and its stored value is still fresh. */
  predicate Current(s: Session, pid: byte, now: int) {
    pid in s.supported && pid in s.values && Fresh(s.items, pid, now)
  }

  function CapableUpTo(supported: set<byte>, n: nat): (m: nat)
    requires n <= |REPORTED|
    ensures m < Pow2(23)
  {
    if n == 0 then 0
    else
      var rest := CapableUpTo(supported, n - 1);
      var (pid, sig) := REPORTED[n - 1];
      if pid in supported then WithBelow(rest, sig, 23); With(rest, sig) else rest
  }

  function ValidUpTo(s: Session, now: int, n: nat): (m: nat)
    requires n <= |REPORTED|
    ensures m < Pow2(23)
  {
    if n == 0 then 0
    else
      var rest := ValidUpTo(s, now, n - 1);
      var (pid, sig) := REPORTED[n - 1];
      if Current(s, pid, now) then WithBelow(rest, sig, 23); With(rest, sig) else rest
  }

  lemma MasksFit()
    ensures Pow2(23) < 0x1_0000_0000
  {
    assert Pow2(19) == 2 * Pow2(18) && Pow2(23) == 32 * Pow2(18);
    PowersUsed();
  }

  /** The power state rides on rpm: capable with it, valid with it. */
  function CapableMask(supported: set<byte>): Mask {
    MasksFit();
    var m := CapableUpTo(supported, |REPORTED|);
    if PID_RPM in supported then WithBelow(m, SIG_POWER_STATE, 23); With(m, SIG_POWER_STATE) else m
  }

  function ValidMask(s: Session, now: int): Mask {
    MasksFit();
    var m := ValidUpTo(s, now, |REPORTED|);
    if Current(s, PID_RPM, now) then WithBelow(m, SIG_POWER_STATE, 23); With(m, SIG_POWER_STATE) else m
  }

  function Value(s: Session, pid: byte, now: int): real {
    if Current(s, pid, now) then s.values[pid] else 0.0
  }

  function StateOf(cfg: IceConfig, s: Session, now: int): VehicleState {
    BLANK.(capable := CapableMask(s.supported), valid := ValidMask(s, now),
           drivetrain := DRIVETRAIN_ICE, source := cfg.source, vehicleId := cfg.vehicleId,
           speedKmh := Value(s, PID_SPEED, now), rpm := Value(s, PID_RPM, now),
           powerState := if !Current(s, PID_RPM, now) then 0
                         else if s.values[PID_RPM] > 0.0 then POWER_READY else POWER_ON,
           coolantC := Value(s, PID_COOLANT_TEMP, now), fuelPct := Value(s, PID_FUEL_LEVEL, now),
           auxBatteryV := Value(s, PID_MODULE_VOLTAGE, now), ambientC := Value(s, PID_AMBIENT_TEMP, now),
           odometerKm := Value(s, PID_ODOMETER, now),
           lamps := if s.lampsSeenMs >= 0 && now - s.lampsSeenMs <= 500 then s.lamps else 0)
  }

  // ---------------------------------------------------------------- one turn of the loop

  datatype Input = Input(nowAt: Nanos,
                         discoverySeen: seq<Seen>, found: Option<set<byte>>, linkAt: Nanos,
                         pollSeen: seq<Seen>, answer: Option<Response>, answerAt: Nanos, lostAt: Nanos,
                         checkAt: Nanos, sampledAt: Nanos, publishAt: Nanos, rearmAt: Nanos)

  datatype HostCall = SetLink(present: bool, at: Nanos) | Publish(state: VehicleState, sampledAt: Nanos, at: Nanos)

  /** A lamp frame shorter than two bytes is ignored; one shorter than four carries 16 lamps. */
  function OnTelltales(s: Session, seen: Seen): Session {
    var d := seen.frame.data;
    if seen.frame.dlc < 2 then s
    else
      var low := d[0] as int + 0x100 * d[1] as int;
      var high := if seen.frame.dlc >= 4 then 0x1_0000 * d[2] as int + 0x100_0000 * d[3] as int else 0;
      s.(lamps := low + high, lampsSeenMs := Ms(seen.at))
  }

  function Watched(s: Session, seen: seq<Seen>): Session {
    if seen == [] then s else OnTelltales(Watched(s, seen[..|seen| - 1]), seen[|seen| - 1])
  }

  function Rediscovered(cfg: IceConfig, s: Session, found: set<byte>): Session {
    s.(discovered := true, supported := found, items := ScheduleUpTo(found, cfg.fastMs, |WANTED|), unanswered := 0,
       values := map[])
  }

  function Dropped(s: Session, pid: byte): Session {
    s.(supported := s.supported - {pid}, items := Removed(s.items, pid), values := s.values - {pid})
  }

  function Accepted(s: Session, pid: byte, v: real, at: Nanos): Session {
    s.(values := s.values[pid := v], items := Answered(s.items, pid, Ms(at)), unanswered := 0)
  }

  /** The PID requested at the given time, if one is due. */
  function DueAt(items: seq<Item>, nowAt: Nanos): Option<byte> {
    var b := Best(items, Ms(nowAt), |items|);
    if b.None? then None else Some(items[b.value].pid)
  }

  function Due(s: Session, in_: Input): Option<byte> { DueAt(s.items, in_.nowAt) }

  function ReadValue(pid: byte, in_: Input): Option<real> {
    if in_.answer.None? then None else Decode(pid, in_.answer.value.payload)
  }

  /** The request or idle wait of one turn; the flag says the vehicle was given up. */
  function Poll(s: Session, in_: Input): (Session, bool) {
    match Due(s, in_)
    case None => (Watched(s, in_.pollSeen), false)
    case Some(pid) =>
      var asked := Watched(s.(items := Requested(s.items, pid, Ms(in_.nowAt)), unanswered := s.unanswered + 1),
                           in_.pollSeen);
      match ReadValue(pid, in_)
      case Some(v) => (if Plausible(pid, v) then Accepted(asked, pid, v, in_.answerAt) else Dropped(asked, pid), false)
      case None => if asked.unanswered >= 5 then (asked.(discovered := false), true) else (asked, false)
  }

  function MaybePublish(cfg: IceConfig, s: Session, in_: Input): (Session, seq<HostCall>) {
    if Ms(in_.checkAt) >= s.nextPublish then
      (s.(nextPublish := Ms(in_.rearmAt) + 50),
       [Publish(StateOf(cfg, s, Ms(in_.sampledAt)), in_.sampledAt, in_.publishAt)])
    else (s, [])
  }

  function PollTurn(cfg: IceConfig, s: Session, in_: Input): (Session, seq<HostCall>) {
    var (polled, lost) := Poll(s, in_);
    if lost then (polled, [SetLink(false, in_.lostAt)]) else MaybePublish(cfg, polled, in_)
  }

  function Iterate(cfg: IceConfig, s: Session, in_: Input): (Session, seq<HostCall>) {
    if s.discovered then PollTurn(cfg, s, in_)
    else
      var w := Watched(s, in_.discoverySeen);
      if in_.found.None? then
        var blind := w.(values := map[]);
        (blind, [SetLink(false, in_.linkAt), Publish(StateOf(cfg, blind, Ms(in_.nowAt)), in_.nowAt, in_.publishAt)])
      else
        var (s', calls) := PollTurn(cfg, Rediscovered(cfg, w, in_.found.value), in_);
        (s', [SetLink(true, in_.linkAt)] + calls)
  }

  function SessionRun(cfg: IceConfig, inputs: seq<Input>): Session {
    if inputs == [] then FRESH_SESSION
    else Iterate(cfg, SessionRun(cfg, inputs[..|inputs| - 1]), inputs[|inputs| - 1]).0
  }

  /** Everything the plugin told the host, in order. */
  function Calls(cfg: IceConfig, inputs: seq<Input>): seq<HostCall> {
    if inputs == [] then []
    else
      var early := inputs[..|inputs| - 1];
      Calls(cfg, early) + Iterate(cfg, SessionRun(cfg, early), inputs[|inputs| - 1]).1
  }

  // ---------------------------------------------------------------- what the bus brought

  /** What was asked of the bus and what was read from it meanwhile. */
  datatype Exchange = Exchange(asked: seq<CanFrame>, read: seq<CanFrame>)

  const NOTHING_ASKED := Exchange([], [])

  /** What the bus did during a turn: the walk along the bitmap chain, the request or idle wait, and the
      ECU listened to at the end. */
  datatype Traffic = Traffic(walk: Exchange, poll: Exchange, ecu: nat)

  /** The state the turn polls from, if it polls. */
  function Ready(cfg: IceConfig, s: Session, in_: Input): Option<Session> {
    if s.discovered then Some(s)
    else if in_.found.None? then None
    else Some(Rediscovered(cfg, Watched(s, in_.discoverySeen), in_.found.value))
  }

  /** The telltale frames the turn hands to the session, in order. */
  function SeenIn(s: Session, in_: Input): seq<Seen> {
    if s.discovered then in_.pollSeen
    else if in_.found.None? then in_.discoverySeen
    else in_.discoverySeen + in_.pollSeen
  }

  /** The PIDs are what the first ECU to answer advertised, block after block up to the first block it did
      not answer; there are none exactly when no ECU answered for block 0. */
  ghost predicate Advertises(broadcastId: int, walk: Exchange, ecu: nat, found: Option<set<byte>>) {
    exists parts, answers ::
      && Walked(broadcastId, parts, ecu, answers) && |parts| <= 7
      && walk == Exchange(BlockRequests(|parts|), Flat(parts))
      && found == if answers == [] then None else Some(Advertised(answers))
  }

  /** The PID due was asked for, once, and the answer recorded is the first one of the ECU among the frames
      read - none, if none of them was one; with nothing due nothing was asked. */
  ghost predicate PollHeard(broadcastId: int, s: Session, in_: Input, poll: Exchange, ecu: nat) {
    match Due(s, in_)
    case None => in_.answer.None? && poll.asked == [] && |poll.read| <= 1
    case Some(pid) => poll.asked == [RequestFrame(pid)] && Replied(broadcastId, ecu, pid, poll.read, in_.answer)
  }

  /** What the turn records about the bus is exactly what the bus brought: the outcome of the walk, if the
      vehicle had to be found; the outcome of the request, if there was a vehicle to ask; and every broadcast
      read, in order. */
  ghost predicate Heard(cfg: IceConfig, broadcastId: int, s: Session, in_: Input, t: Traffic) {
    && (if s.discovered then in_.found.None? && t.walk == NOTHING_ASKED
        else Advertises(broadcastId, t.walk, t.ecu, in_.found))
    && (match Ready(cfg, s, in_)
        case None => in_.answer.None? && t.poll == NOTHING_ASKED
        case Some(ready) => IsResponseId(t.ecu) && PollHeard(broadcastId, ready, in_, t.poll, t.ecu))
    && FramesOf(SeenIn(s, in_)) == Broadcasts(broadcastId, t.walk.read + t.poll.read)
  }

  function AllRead(log: seq<Traffic>): seq<CanFrame> {
    if log == [] then []
    else AllRead(log[..|log| - 1]) + (log[|log| - 1].walk.read + log[|log| - 1].poll.read)
  }

  function AllAsked(log: seq<Traffic>): seq<CanFrame> {
    if log == [] then []
    else AllAsked(log[..|log| - 1]) + (log[|log| - 1].walk.asked + log[|log| - 1].poll.asked)
  }

  /** Every turn of a run recorded what the bus brought, and the ECU changes only on rediscovery. */
  ghost predicate AllHeard(cfg: IceConfig, broadcastId: int, inputs: seq<Input>, log: seq<Traffic>) {
    && |log| == |inputs|
    && (forall k :: 0 <= k < |inputs| ==> Heard(cfg, broadcastId, SessionRun(cfg, inputs[..k]), inputs[k], log[k]))
    && (forall k :: 0 < k < |inputs| && SessionRun(cfg, inputs[..k]).discovered ==> log[k].ecu == log[k - 1].ecu)
  }
}
