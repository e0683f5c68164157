/** How close the number a consumer decodes is to the number the plugin published, for every signal. */
module WireValues {
  import opened CodecLaws
  import opened Contract
  import opened Mapping
  import opened Vehicle
  import opened WireHonesty

  /** The plugin's number for a signal. */
  function Published(s: VehicleState, sig: Signal): real {
    match sig
    case 0 => s.speedKmh
    case 1 => s.rpm
    case 2 => s.gear as real
    case 3 => s.powerState as real
    case 4 => s.motorPowerKw
    case 5 => s.packVoltageV
    case 6 => s.packCurrentA
    case 7 => s.socPct
    case 8 => s.sohPct
    case 9 => s.rangeKm
    case 10 => s.consumptionWhKm
    case 11 => s.chargingState as real
    case 12 => s.odometerKm
    case 13 => s.ambientC
    case 14 => s.cabinC
    case 15 => s.coolantC
    case 16 => s.fuelPct
    case 17 => s.auxBatteryV
    case 18 => s.ecoScore as real
    case 19 => s.speedLimitKmh as real
    case 20 => s.collisionRisk as real
    case 21 => s.laneState as real
    case _ => s.leadGapM
  }

  /** The consumer's number, read from the signal's carrier frame. */
  function Reading(sig: Signal, d: Frame): real {
    if sig < 4 then ReadMotion(sig, UnpackMotion(d))
    else if sig < 7 then ReadEDrive(sig, UnpackEDrive(d))
    else if sig < 12 then ReadEnergy(sig, UnpackEnergy(d))
    else if sig < 15 then ReadTrip(sig, UnpackTrip(d))
    else if sig < 18 then ReadThermal(sig, UnpackThermal(d))
    else ReadAssist(sig, UnpackAssist(d))
  }

  function ReadMotion(sig: Signal, r: Motion): real {
    match sig
    case 0 => r.speedKmh
    case 1 => r.rpm as real
    case 2 => r.gear as real
    case _ => r.powerState as real
  }

  function ReadEDrive(sig: Signal, r: EDrive): real {
    match sig
    case 4 => r.motorPowerKw
    case 5 => r.packVoltageV
    case _ => r.packCurrentA
  }

  function ReadEnergy(sig: Signal, r: Energy): real {
    match sig
    case 7 => r.socPct
    case 8 => r.sohPct
    case 9 => r.rangeKm as real
    case 10 => r.consumptionWhKm as real
    case _ => r.chargingState as real
  }

  function ReadTrip(sig: Signal, r: Trip): real {
    match sig
    case 12 => r.odometerKm
    case 13 => r.ambientC as real
    case _ => r.cabinC as real
  }

  function ReadThermal(sig: Signal, r: Thermal): real {
    match sig
    case 15 => r.coolantC as real
    case 16 => r.fuelPct
    case _ => r.auxBatteryV
  }

  function ReadAssist(sig: Signal, r: Assist): real {
    match sig
    case 18 => r.ecoScore as real
    case 19 => r.speedLimitKmh as real
    case 20 => r.collisionRisk as real
    case 21 => r.laneState as real
    case _ => r.leadGapM
  }

  /** Lowest and highest value the wire can carry, and half a wire step (0 where codes are exact). */
  datatype Scale = Scale(lo: real, hi: real, half: real)

  function ScaleOf(sig: Signal): Scale {
    match sig
    case 0 => Scale(0.0, 655.34, 0.005)
    case 1 => Scale(0.0, 65534.0, 0.5)
    case 2 => Scale(0.0, 4.0, 0.0)
    case 3 => Scale(0.0, 3.0, 0.0)
    case 4 => Scale(-3276.7, 3276.7, 0.05)
    case 5 => Scale(0.0, 6553.4, 0.05)
    case 6 => Scale(-3276.7, 3276.7, 0.05)
    case 7 => Scale(0.0, 100.0, 0.25)
    case 8 => Scale(0.0, 100.0, 0.25)
    case 9 => Scale(0.0, 65534.0, 0.5)
    case 10 => Scale(-32767.0, 32767.0, 0.5)
    case 11 => Scale(0.0, 3.0, 0.0)
    case 12 => Scale(0.0, 429496729.4, 0.05)
    case 13 => Scale(-127.0, 127.0, 0.5)
    case 14 => Scale(-127.0, 127.0, 0.5)
    case 15 => Scale(-127.0, 127.0, 0.5)
    case 16 => Scale(0.0, 100.0, 0.25)
    case 17 => Scale(0.0, 655.34, 0.005)
    case 18 => Scale(0.0, 100.0, 0.0)
    case 19 => Scale(0.0, 254.0, 0.0)
    case 20 => Scale(0.0, 3.0, 0.0)
    case 21 => Scale(0.0, 15.0, 0.0)
    case _ => Scale(0.0, 6553.4, 0.05)
  }

  /** The reading is nearest to a value in range, and sticks at the nearer end otherwise - except
      that a collision risk outside its range reads as none, and of a lane state only the low four bits are
      carried. */
  predicate Near(sig: Signal, value: real, reading: real) {
    var k := ScaleOf(sig);
    && (k.lo <= value <= k.hi ==> Nearest(value, reading, k.half))
    && (value < k.lo || value > k.hi ==>
          reading == if sig == SIG_COLLISION_RISK then 0.0
                     else if sig == SIG_LANE_STATE then (value.Floor % 16) as real
                     else if value < k.lo then k.lo else k.hi)
  }

  // ---------------------------------------------------------------- code by code

  /** The scaled fields: place the code in the range, round, clamp. */
  lemma StepNear(sig: Signal, v: real, lsb: real, lo: int, hi: int)
    requires lsb > 0.0 && lo <= hi && !(sig in {SIG_COLLISION_RISK, SIG_LANE_STATE})
    requires ScaleOf(sig).lo == lo as real * lsb && ScaleOf(sig).hi == hi as real * lsb
    requires ScaleOf(sig).half == 0.5 * lsb
    ensures Near(sig, v, Clamp(Round(v / lsb), lo, hi) as real * lsb)
  {
    hide Clamp, Round, Nearest;
    CodeSaturates(v, lsb, lo, hi);
    if lo as real * lsb <= v <= hi as real * lsb {
      CodeError(v, lsb, lo, hi);
    }
  }

  lemma HundredthsNear(sig: Signal, v: real)
    requires sig in {SIG_SPEED, SIG_AUX_BATTERY}
    ensures Near(sig, v, Clamp(Round(v / 0.01), 0, 0xFFFE) as real * 0.01)
  {
    hide Near, Clamp, Round;
    assert ScaleOf(sig) == Scale(0.0, 655.34, 0.005);
    StepNear(sig, v, 0.01, 0, 0xFFFE);
  }

  lemma TenthsNear(sig: Signal, v: real)
    requires sig in {SIG_PACK_VOLTAGE, SIG_LEAD_GAP}
    ensures Near(sig, v, Clamp(Round(v / 0.1), 0, 0xFFFE) as real * 0.1)
  {
    hide Near, Clamp, Round;
    assert ScaleOf(sig) == Scale(0.0, 6553.4, 0.05);
    StepNear(sig, v, 0.1, 0, 0xFFFE);
  }

  lemma SignedTenthsNear(sig: Signal, v: real)
    requires sig in {SIG_MOTOR_POWER, SIG_PACK_CURRENT}
    ensures Near(sig, v, Clamp(Round(v / 0.1), -32767, 32767) as real * 0.1)
  {
    hide Near, Clamp, Round;
    assert ScaleOf(sig) == Scale(-3276.7, 3276.7, 0.05);
    StepNear(sig, v, 0.1, -32767, 32767);
  }

  lemma LongTenthsNear(v: real)
    ensures Near(SIG_ODOMETER, v, Clamp(Round(v / 0.1), 0, 0xFFFF_FFFE) as real * 0.1)
  {
    hide Near, Clamp, Round;
    assert ScaleOf(SIG_ODOMETER) == Scale(0.0, 429496729.4, 0.05);
    StepNear(SIG_ODOMETER, v, 0.1, 0, 0xFFFF_FFFE);
  }

  lemma HalvesNear(sig: Signal, v: real)
    requires sig in {SIG_SOC, SIG_SOH, SIG_FUEL_LEVEL}
    ensures Near(sig, v, Clamp(Round(v / 0.5), 0, 200) as real * 0.5)
  {
    hide Near, Clamp, Round;
    assert ScaleOf(sig) == Scale(0.0, 100.0, 0.25);
    StepNear(sig, v, 0.5, 0, 200);
  }

  lemma DegreesNear(sig: Signal, v: real)
    requires sig in {SIG_AMBIENT_TEMP, SIG_CABIN_TEMP, SIG_COOLANT_TEMP}
    ensures EncI8(v, 1.0, true) > -128 && Near(sig, v, EncI8(v, 1.0, true) as real)
  {
    assert ScaleOf(sig) == Scale(-127.0, 127.0, 0.5);
    hide Near, Round, ScaleOf;
    StepNear(sig, v, 1.0, -127, 127);
    var code := Clamp(Round(v / 1.0), -127, 127);
    TimesOne(code);
    assert EncI8(v, 1.0, true) == code;
  }

  lemma TimesOne(code: int)
    ensures code as real * 1.0 == code as real
  {
  }

  lemma WholeNear(sig: Signal, v: real)
    requires sig in {SIG_RPM, SIG_RANGE}
    ensures WholeU16(v) < 0xFFFF && Near(sig, v, WholeU16(v) as real)
  {
  }

  lemma ConsumptionNear(v: real)
    ensures var c := if v > 32767.0 then 32767.0 else if v < -32767.0 then -32767.0 else v;
            -32767 <= Round(c) <= 32767 && Near(SIG_CONSUMPTION, v, Round(c) as real)
  {
    var c := if v > 32767.0 then 32767.0 else if v < -32767.0 then -32767.0 else v;
    RoundIsNearest(c);
  }

  /** The three enumerations that are shown only in range. */
  lemma CodeNear(sig: Signal, code: int)
    requires sig in {SIG_GEAR, SIG_POWER_STATE, SIG_CHARGING_STATE} && 0 <= code <= if sig == SIG_GEAR then 4 else 3
    ensures Near(sig, code as real, code as real)
  {
  }

  // ---------------------------------------------------------------- frame by frame

  lemma MotionNear(s: VehicleState, sig: Signal)
    requires sig < 4 && MotionShows(sig, UnpackMotion(MotionBytes(MotionFrom(s, true))))
    ensures Near(sig, Published(s, sig), ReadMotion(sig, UnpackMotion(MotionBytes(MotionFrom(s, true)))))
  {
    hide Near, MotionBytes, UnpackMotion, Clamp, Round, WholeU16;
    MotionRead(MotionFrom(s, true));
    match sig
    case 0 => HundredthsNear(sig, s.speedKmh);
    case 1 => WholeNear(sig, s.rpm);
    case 2 => CodeNear(sig, s.gear);
    case _ => CodeNear(sig, s.powerState);
  }

  lemma EDriveNear(s: VehicleState, sig: Signal)
    requires 4 <= sig < 7 && EDriveShows(sig, UnpackEDrive(EDriveBytes(EDriveFrom(s, true))))
    ensures Near(sig, Published(s, sig), ReadEDrive(sig, UnpackEDrive(EDriveBytes(EDriveFrom(s, true)))))
  {
    hide Near, EDriveBytes, UnpackEDrive, Clamp, Round;
    EDriveRead(EDriveFrom(s, true));
    match sig
    case 4 => SignedTenthsNear(sig, s.motorPowerKw);
    case 5 => TenthsNear(sig, s.packVoltageV);
    case _ => SignedTenthsNear(sig, s.packCurrentA);
  }

  lemma EnergyNear(s: VehicleState, sig: Signal)
    requires 7 <= sig < 12 && EnergyShows(sig, UnpackEnergy(EnergyBytes(EnergyFrom(s, true))))
    ensures Near(sig, Published(s, sig), ReadEnergy(sig, UnpackEnergy(EnergyBytes(EnergyFrom(s, true)))))
  {
    hide Near, EnergyBytes, UnpackEnergy, Clamp, Round, WholeU16;
    EnergyRead(EnergyFrom(s, true));
    match sig
    case 7 => HalvesNear(sig, s.socPct);
    case 8 => HalvesNear(sig, s.sohPct);
    case 9 => WholeNear(sig, s.rangeKm);
    case 10 => ConsumptionNear(s.consumptionWhKm);
    case _ => CodeNear(sig, s.chargingState);
  }

  lemma TripNear(s: VehicleState, sig: Signal)
    requires 12 <= sig < 15 && TripShows(sig, UnpackTrip(TripBytes(TripFrom(s, true))))
    ensures Near(sig, Published(s, sig), ReadTrip(sig, UnpackTrip(TripBytes(TripFrom(s, true)))))
  {
    hide Near, TripBytes, UnpackTrip, EncI8, EncU32, Clamp, Round;
    TripRead(TripFrom(s, true));
    match sig
    case 12 => LongTenthsNear(s.odometerKm);
    case 13 => DegreesNear(sig, s.ambientC);
    case _ => DegreesNear(sig, s.cabinC);
  }

  lemma ThermalNear(s: VehicleState, sig: Signal)
    requires 15 <= sig < 18 && ThermalShows(sig, UnpackThermal(ThermalBytes(ThermalFrom(s, true))))
    ensures Near(sig, Published(s, sig), ReadThermal(sig, UnpackThermal(ThermalBytes(ThermalFrom(s, true)))))
  {
    hide Near, ThermalBytes, UnpackThermal, EncI8, Clamp, Round;
    ThermalRead(ThermalFrom(s, true));
    match sig
    case 15 => DegreesNear(sig, s.coolantC);
    case 16 => HalvesNear(sig, s.fuelPct);
    case _ => HundredthsNear(sig, s.auxBatteryV);
  }

  lemma GapNear(s: VehicleState)
    requires AssistShows(SIG_LEAD_GAP, UnpackAssist(AssistBytes(AssistFrom(s, true))))
    ensures Near(SIG_LEAD_GAP, s.leadGapM, UnpackAssist(AssistBytes(AssistFrom(s, true))).leadGapM)
  {
    hide Near, AssistBytes, UnpackAssist, Clamp, Round;
    AssistRead(AssistFrom(s, true));
    TenthsNear(SIG_LEAD_GAP, s.leadGapM);
  }

  /** The whole-number assist fields as a consumer reads them. */
  lemma AssistCodes(s: VehicleState, sig: Signal)
    requires 18 <= sig < 22 && AssistShows(sig, UnpackAssist(AssistBytes(AssistFrom(s, true))))
    ensures var r := UnpackAssist(AssistBytes(AssistFrom(s, true)));
            match sig
            case 18 => r.ecoScore as int == Clamp(s.ecoScore, 0, 100)
            case 19 => r.speedLimitKmh as int == Clamp(s.speedLimitKmh, 0, 254)
            case 20 => r.collisionRisk == CollisionRiskFrom(s.collisionRisk)
            case _ => r.laneState as int == s.laneState % 16
  {
    hide AssistBytes, UnpackAssist, EncU16, Round;
    AssistRead(AssistFrom(s, true));
  }

  lemma AssistNear(s: VehicleState, sig: Signal)
    requires 18 <= sig && AssistShows(sig, UnpackAssist(AssistBytes(AssistFrom(s, true))))
    ensures Near(sig, Published(s, sig), ReadAssist(sig, UnpackAssist(AssistBytes(AssistFrom(s, true)))))
  {
    hide AssistBytes, UnpackAssist, AssistFrom, AssistShows;
    if sig == SIG_LEAD_GAP {
      GapNear(s);
    } else {
      AssistCodes(s, sig);
    }
  }

  /** Whatever a signal decodes to when it decodes as valid, it is the plugin's number rounded to a wire
      step, clamped into the range the wire can carry: for all 23 signals, through mapping, pack and
      unpack. */
  lemma ValueOnWire(s: VehicleState, live: bool, st: byte, ctr: byte, major: byte, minor: byte, sig: Signal)
    requires DecodesValid(sig, OnWire(s, live, st, ctr, major, minor, sig))
    ensures Near(sig, Published(s, sig), Reading(sig, OnWire(s, live, st, ctr, major, minor, sig)))
  {
    ValidOnWireExactlyWhen(s, live, st, ctr, major, minor, sig);
    hide UnpackMotion, UnpackEDrive, UnpackEnergy, UnpackTrip, UnpackThermal, UnpackAssist;
    hide MotionBytes, EDriveBytes, EnergyBytes, TripBytes, ThermalBytes, AssistBytes;
    hide MotionShows, EDriveShows, EnergyShows, TripShows, ThermalShows, AssistShows, Near, Published;
    hide ReadMotion, ReadEDrive, ReadEnergy, ReadTrip, ReadThermal, ReadAssist;
    hide MotionFrom, EDriveFrom, EnergyFrom, TripFrom, ThermalFrom, AssistFrom, Capabilities;
    if sig < 4 { MotionNear(s, sig); }
    else if sig < 7 { EDriveNear(s, sig); }
    else if sig < 12 { EnergyNear(s, sig); }
    else if sig < 15 { TripNear(s, sig); }
    else if sig < 18 { ThermalNear(s, sig); }
    else { AssistNear(s, sig); }
  }
}
