/** What a consumer of the nine frames may conclude about the vehicle. The statements are about
    the composition mapping -> pack -> unpack: a signal decodes as valid exactly when the data
    was live and the plugin declared it valid and capable. */
module WireHonesty {
  import opened BitMasks
  import opened Contract
  import opened CodecLaws
  import opened Mapping
  import opened Vehicle

  /** The eight bytes a frame identifier carries. */
  function FrameFor(f: Frames, id: int): Frame {
    match id
    case 0x400 => StatusBytes(f.status)
    case 0x401 => IdentityBytes(f.identity)
    case 0x410 => MotionBytes(f.motion)
    case 0x411 => EDriveBytes(f.edrive)
    case 0x420 => TelltalesBytes(f.telltales)
    case 0x430 => EnergyBytes(f.energy)
    case 0x431 => TripBytes(f.trip)
    case 0x440 => ThermalBytes(f.thermal)
    case _ => AssistBytes(f.assist)
  }

  /** The frame that carries a signal. */
  function CarrierOf(sig: Signal): int {
    if sig < 4 then ID_MOTION else if sig < 7 then ID_EDRIVE else if sig < 12 then ID_ENERGY
    else if sig < 15 then ID_TRIP else if sig < 18 then ID_THERMAL else ID_ASSIST
  }

  predicate MotionShows(sig: Signal, r: Motion) {
    match sig
    case 0 => r.speedValid
    case 1 => r.rpmValid
    case 2 => r.gearValid
    case _ => r.powerStateValid
  }

  predicate EDriveShows(sig: Signal, r: EDrive) {
    match sig
    case 4 => r.motorPowerValid
    case 5 => r.packVoltageValid
    case _ => r.packCurrentValid
  }

  predicate EnergyShows(sig: Signal, r: Energy) {
    match sig
    case 7 => r.socValid
    case 8 => r.sohValid
    case 9 => r.rangeValid
    case 10 => r.consumptionValid
    case _ => r.chargingStateValid
  }

  predicate TripShows(sig: Signal, r: Trip) {
    match sig
    case 12 => r.odometerValid
    case 13 => r.ambientValid
    case _ => r.cabinValid
  }

  predicate ThermalShows(sig: Signal, r: Thermal) {
    match sig
    case 15 => r.coolantValid
    case 16 => r.fuelValid
    case _ => r.auxBatteryValid
  }

  predicate AssistShows(sig: Signal, r: Assist) {
    match sig
    case 18 => r.ecoScoreValid
    case 19 => r.speedLimitValid
    case 20 => r.collisionRiskValid
    case 21 => r.laneStateValid
    case _ => r.leadGapValid
  }

  /** Whether a consumer that receives `d` on the signal's carrier sees the signal as available. */
  predicate DecodesValid(sig: Signal, d: Frame) {
    if sig < 4 then MotionShows(sig, UnpackMotion(d))
    else if sig < 7 then EDriveShows(sig, UnpackEDrive(d))
    else if sig < 12 then EnergyShows(sig, UnpackEnergy(d))
    else if sig < 15 then TripShows(sig, UnpackTrip(d))
    else if sig < 18 then ThermalShows(sig, UnpackThermal(d))
    else AssistShows(sig, UnpackAssist(d))
  }

  /** Three enumerations are also suppressed when the plugin's value is outside the ABI range. */
  predicate InAbiRange(s: VehicleState, sig: Signal) {
    && (sig == SIG_GEAR ==> 0 <= s.gear <= 4)
    && (sig == SIG_POWER_STATE ==> 0 <= s.powerState <= 3)
    && (sig == SIG_CHARGING_STATE ==> 0 <= s.chargingState <= 3)
  }

  /** The signal's carrier frame as the publisher would send it. */
  function OnWire(s: VehicleState, live: bool, st: byte, ctr: byte, major: byte, minor: byte, sig: Signal): Frame {
    FrameFor(FramesFrom(s, live, st, ctr, major, minor), CarrierOf(sig))
  }

  lemma MotionHonest(s: VehicleState, live: bool, sig: Signal)
    requires sig < 4
    ensures MotionShows(sig, UnpackMotion(MotionBytes(MotionFrom(s, live)))) <==> Has(s, live, sig) && InAbiRange(s, sig)
  {
    MotionRead(MotionFrom(s, live));
  }

  lemma EDriveHonest(s: VehicleState, live: bool, sig: Signal)
    requires 4 <= sig < 7
    ensures EDriveShows(sig, UnpackEDrive(EDriveBytes(EDriveFrom(s, live)))) <==> Has(s, live, sig)
  {
    EDriveRead(EDriveFrom(s, live));
  }

  lemma EnergyHonest(s: VehicleState, live: bool, sig: Signal)
    requires 7 <= sig < 12
    ensures EnergyShows(sig, UnpackEnergy(EnergyBytes(EnergyFrom(s, live)))) <==> Has(s, live, sig) && InAbiRange(s, sig)
  {
    EnergyRead(EnergyFrom(s, live));
  }

  lemma TripHonest(s: VehicleState, live: bool, sig: Signal)
    requires 12 <= sig < 15
    ensures TripShows(sig, UnpackTrip(TripBytes(TripFrom(s, live)))) <==> Has(s, live, sig)
  {
    TripRead(TripFrom(s, live));
  }

  lemma ThermalHonest(s: VehicleState, live: bool, sig: Signal)
    requires 15 <= sig < 18
    ensures ThermalShows(sig, UnpackThermal(ThermalBytes(ThermalFrom(s, live)))) <==> Has(s, live, sig)
  {
    ThermalRead(ThermalFrom(s, live));
  }

  lemma AssistHonest(s: VehicleState, live: bool, sig: Signal)
    requires 18 <= sig
    ensures AssistShows(sig, UnpackAssist(AssistBytes(AssistFrom(s, live)))) <==> Has(s, live, sig)
  {
    AssistRead(AssistFrom(s, live));
  }

  lemma ValidOnWireExactlyWhen(s: VehicleState, live: bool, st: byte, ctr: byte, major: byte, minor: byte, sig: Signal)
    ensures DecodesValid(sig, OnWire(s, live, st, ctr, major, minor, sig)) <==>
            live && Set(s.valid, sig) && Set(s.capable, sig) && InAbiRange(s, sig)
  {
    hide UnpackMotion, UnpackEDrive, UnpackEnergy, UnpackTrip, UnpackThermal, UnpackAssist;
    hide MotionBytes, EDriveBytes, EnergyBytes, TripBytes, ThermalBytes, AssistBytes;
    hide MotionShows, EDriveShows, EnergyShows, TripShows, ThermalShows, AssistShows;
    hide MotionFrom, EDriveFrom, EnergyFrom, TripFrom, ThermalFrom, AssistFrom, Capabilities, Set;
    if sig < 4 { MotionHonest(s, live, sig); }
    else if sig < 7 { EDriveHonest(s, live, sig); }
    else if sig < 12 { EnergyHonest(s, live, sig); }
    else if sig < 15 { TripHonest(s, live, sig); }
    else if sig < 18 { ThermalHonest(s, live, sig); }
    else { AssistHonest(s, live, sig); }
  }

  /** With the data not live every signal reads "not available". */
  lemma NotLiveHidesEverySignal(s: VehicleState, st: byte, ctr: byte, major: byte, minor: byte, sig: Signal)
    ensures !DecodesValid(sig, OnWire(s, false, st, ctr, major, minor, sig))
  {
    hide DecodesValid, OnWire;
    ValidOnWireExactlyWhen(s, false, st, ctr, major, minor, sig);
  }

  /** Losing liveness darkens every lamp but leaves the capability bitmap and the identity frame
      what they are with live data, so a consumer's layout holds. */
  lemma NotLiveKeepsLayout(s: VehicleState, live: bool, st: byte, ctr: byte, major: byte, minor: byte)
    ensures var f := FramesFrom(s, live, st, ctr, major, minor);
            && UnpackTelltales(TelltalesBytes(f.telltales)).bits == (if live then s.lamps % TT_LIMIT else 0)
            && UnpackStatus(StatusBytes(f.status)).capabilities == Capabilities(s.capable)
            && UnpackIdentity(IdentityBytes(f.identity)) ==
                 Identity(DrivetrainFrom(s.drivetrain), SourceKindFrom(s.source), major, minor, s.vehicleId)
  {
    hide TelltalesBytes, StatusBytes, IdentityBytes, UnpackTelltales, UnpackStatus, UnpackIdentity, Capabilities;
    hide MotionFrom, EDriveFrom, EnergyFrom, TripFrom, ThermalFrom, AssistFrom;
    var f := FramesFrom(s, live, st, ctr, major, minor);
    TelltalesRead(f.telltales);
    StatusRead(f.status);
    IdentityRead(f.identity);
    CapabilitiesBounded(s.capable);
  }

  /** A signal seen as valid is always announced in the status frame built from the same state;
      for a driver-assist signal that is the bit that lets its frame be published at all. */
  lemma ValidImpliesAnnounced(s: VehicleState, live: bool, st: byte, ctr: byte, major: byte, minor: byte, sig: Signal)
    requires DecodesValid(sig, OnWire(s, live, st, ctr, major, minor, sig))
    ensures var status := FramesFrom(s, live, st, ctr, major, minor).status;
            && Set(UnpackStatus(StatusBytes(status)).capabilities, CapabilityOf(sig))
            && (CarrierOf(sig) == ID_ASSIST ==> Set(status.capabilities, CAP_ASSIST))
  {
    hide DecodesValid, OnWire, StatusBytes, UnpackStatus, Capabilities, Set;
    ValidOnWireExactlyWhen(s, live, st, ctr, major, minor, sig);
    SignalAnnounced(s.capable, sig);
    CapabilitiesBounded(s.capable);
    StatusRead(FramesFrom(s, live, st, ctr, major, minor).status);
  }

  lemma SignalAnnounced(capable: Mask, sig: Signal)
    requires Set(capable, sig)
    ensures Set(Capabilities(capable), CapabilityOf(sig))
    ensures CarrierOf(sig) == ID_ASSIST ==> CapabilityOf(sig) == CAP_ASSIST
  {
    CapabilityExactlyWhen(capable, SIG_COUNT, CapabilityOf(sig));
  }
}
