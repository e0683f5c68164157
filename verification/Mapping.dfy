/** Where the plugin's vocabulary meets the wire contract: bit sets are translated bit by bit,
    enumerations are range-checked, and a signal reaches the wire as valid only when the
    data is live, the plugin marked it valid, and the vehicle is capable of it. */
module Mapping {
  import opened BitMasks
  import opened Contract
  import opened Vehicle

  /** Position of a signal's bit in the capability bitmap. Pack voltage and current share one,
      and so do the five driver-assist signals. */
  function CapabilityOf(sig: Signal): (bit: nat)
    ensures bit < 18
  {
    match sig
    case 0 => 0
    case 1 => 1
    case 2 => 2
    case 3 => 16
    case 4 => 3
    case 5 => 4
    case 6 => 4
    case 7 => 5
    case 8 => 13
    case 9 => 6
    case 10 => 7
    case 11 => 14
    case 12 => 8
    case 13 => 9
    case 14 => 15
    case 15 => 10
    case 16 => 11
    case 17 => 12
    case _ => CAP_ASSIST
  }

  /** The capability bits of the first `n` signals present in `capable`. */
  function CapabilitiesUpTo(capable: Mask, n: nat): (caps: nat)
    requires n <= SIG_COUNT
    ensures caps < Pow2(18)
  {
    if n == 0 then 0
    else
      var rest := CapabilitiesUpTo(capable, n - 1);
      if Set(capable, n - 1) then
        WithBelow(rest, CapabilityOf(n - 1), 18);
        With(rest, CapabilityOf(n - 1))
      else rest
  }

  function Capabilities(capable: Mask): (caps: Mask) {
    PowersUsed();
    CapabilitiesUpTo(capable, SIG_COUNT)
  }

  method CapabilitiesFrom(capable: Mask) returns (caps: Mask)
    ensures caps == Capabilities(capable)
  {
    hide Set, With, CapabilityOf;
    PowersUsed();
    caps := 0;
    var i := 0;
    while i < SIG_COUNT
      invariant 0 <= i <= SIG_COUNT
      invariant caps == CapabilitiesUpTo(capable, i)
    {
      if Set(capable, i) {
        WithBelow(caps, CapabilityOf(i), 18);
        caps := With(caps, CapabilityOf(i));
      }
      i := i + 1;
    }
  }

  /** A capability bit is published exactly when some signal that maps to it is in the mask. */
  lemma {:induction false} CapabilityExactlyWhen(capable: Mask, n: nat, bit: nat)
    requires n <= SIG_COUNT
    ensures Set(CapabilitiesUpTo(capable, n), bit) <==>
            exists sig: Signal :: sig < n && CapabilityOf(sig) == bit && Set(capable, sig)
  {
    if n == 0 {
      ZeroHasNoBits(bit);
    } else {
      CapabilityExactlyWhen(capable, n - 1, bit);
      SetWith(CapabilitiesUpTo(capable, n - 1), CapabilityOf(n - 1), bit);
    }
  }

  /** What each capability bit of the contract tells a consumer about the plugin's signals. */
  lemma CapabilityMeaning(m: Mask)
    ensures Set(Capabilities(m), 0) <==> Set(m, SIG_SPEED)
    ensures Set(Capabilities(m), 1) <==> Set(m, SIG_RPM)
    ensures Set(Capabilities(m), 2) <==> Set(m, SIG_GEAR)
    ensures Set(Capabilities(m), 3) <==> Set(m, SIG_MOTOR_POWER)
    ensures Set(Capabilities(m), 4) <==> Set(m, SIG_PACK_VOLTAGE) || Set(m, SIG_PACK_CURRENT)
    ensures Set(Capabilities(m), 5) <==> Set(m, SIG_SOC)
    ensures Set(Capabilities(m), 6) <==> Set(m, SIG_RANGE)
    ensures Set(Capabilities(m), 7) <==> Set(m, SIG_CONSUMPTION)
    ensures Set(Capabilities(m), 8) <==> Set(m, SIG_ODOMETER)
    ensures Set(Capabilities(m), 9) <==> Set(m, SIG_AMBIENT_TEMP)
    ensures Set(Capabilities(m), 10) <==> Set(m, SIG_COOLANT_TEMP)
    ensures Set(Capabilities(m), 11) <==> Set(m, SIG_FUEL_LEVEL)
    ensures Set(Capabilities(m), 12) <==> Set(m, SIG_AUX_BATTERY)
    ensures Set(Capabilities(m), 13) <==> Set(m, SIG_SOH)
    ensures Set(Capabilities(m), 14) <==> Set(m, SIG_CHARGING_STATE)
    ensures Set(Capabilities(m), 15) <==> Set(m, SIG_CABIN_TEMP)
    ensures Set(Capabilities(m), 16) <==> Set(m, SIG_POWER_STATE)
    ensures Set(Capabilities(m), 17) <==> exists sig: Signal :: SIG_ECO_SCORE <= sig <= SIG_LEAD_GAP && Set(m, sig)
  {
    hide Set, Capabilities;
    SoleSource(m, 0);
    SoleSource(m, 1);
    SoleSource(m, 2);
    SoleSource(m, 3);
    SoleSource(m, 4);
    SoleSource(m, 7);
    SoleSource(m, 8);
    SoleSource(m, 9);
    SoleSource(m, 10);
    SoleSource(m, 11);
    SoleSource(m, 12);
    SoleSource(m, 13);
    SoleSource(m, 14);
    SoleSource(m, 15);
    SoleSource(m, 16);
    SoleSource(m, 17);
    SharedSources(m);
  }

  lemma SoleSource(m: Mask, sig: Signal)
    requires sig < 18 && sig != 5 && sig != 6
    ensures Set(Capabilities(m), CapabilityOf(sig)) <==> Set(m, sig)
  {
    hide Set;
    CapabilityExactlyWhen(m, SIG_COUNT, CapabilityOf(sig));
  }

  lemma SharedSources(m: Mask)
    ensures Set(Capabilities(m), 4) <==> Set(m, SIG_PACK_VOLTAGE) || Set(m, SIG_PACK_CURRENT)
    ensures Set(Capabilities(m), 17) <==> exists sig: Signal :: SIG_ECO_SCORE <= sig <= SIG_LEAD_GAP && Set(m, sig)
  {
    hide Set;
    CapabilityExactlyWhen(m, SIG_COUNT, 4);
    CapabilityExactlyWhen(m, SIG_COUNT, 17);
    assert CapabilityOf(5) == CapabilityOf(6) == 4;
    assert forall sig: Signal :: CapabilityOf(sig) == 17 <==> sig >= 18;
  }

  /** Bits 18-31, which the contract reserves, are never set. */
  lemma CapabilitiesBounded(capable: Mask)
    ensures Capabilities(capable) < CAP_LIMIT
  {
    PowersUsed();
  }

  /** Translating a union of signal sets gives the union of the translations. */
  lemma CapabilitiesDistribute(a: Mask, b: Mask, union: Mask, bit: nat)
    requires forall sig: Signal :: Set(union, sig) <==> Set(a, sig) || Set(b, sig)
    ensures Set(Capabilities(union), bit) <==> Set(Capabilities(a), bit) || Set(Capabilities(b), bit)
  {
    CapabilityExactlyWhen(a, SIG_COUNT, bit);
    CapabilityExactlyWhen(b, SIG_COUNT, bit);
    CapabilityExactlyWhen(union, SIG_COUNT, bit);
  }

  /** Position of a lamp's bit in the telltale bitmap, lamp by lamp as the contract lists them. */
  function TelltaleOf(lamp: nat): nat
    requires lamp < LAMP_COUNT
  {
    match lamp
    case 0 => 0
    case 1 => 1
    case 2 => 2
    case 3 => 3
    case 4 => 4
    case 5 => 5
    case 6 => 6
    case 7 => 7
    case 8 => 8
    case 9 => 9
    case 10 => 10
    case 11 => 11
    case 12 => 12
    case 13 => 13
    case 14 => 14
    case 15 => 15
    case 16 => 16
    case 17 => 17
    case 18 => 18
    case _ => 19
  }

  /** Lamp order is telltale order, so the loop keeps bits 0-19 in place and drops the rest. */
  method TelltalesFrom(lamps: Mask) returns (bits: Mask)
    ensures bits == lamps % TT_LIMIT
  {
    hide Set, With, TelltaleOf;
    PowersUsed();
    bits := 0;
    forall j: nat ensures !Set(0, j) { ZeroHasNoBits(j); }
    var i := 0;
    while i < LAMP_COUNT
      invariant 0 <= i <= LAMP_COUNT
      invariant bits < Pow2(LAMP_COUNT)
      invariant forall j :: 0 <= j < LAMP_COUNT ==> (Set(bits, j) <==> j < i && Set(lamps, j))
    {
      ghost var before := bits;
      if Set(lamps, i) {
        TelltaleSmall(i);
        WithBelow(bits, TelltaleOf(i), LAMP_COUNT);
        bits := With(bits, TelltaleOf(i));
      }
      LampStep(before, bits, lamps, i);
      i := i + 1;
    }
    AllLamps(bits, lamps);
  }

  lemma TelltaleSmall(lamp: nat)
    requires lamp < LAMP_COUNT
    ensures TelltaleOf(lamp) == lamp
  {
  }

  lemma LampStep(before: nat, after: nat, lamps: Mask, i: nat)
    requires i < LAMP_COUNT && after == if Set(lamps, i) then With(before, TelltaleOf(i)) else before
    requires forall j :: 0 <= j < LAMP_COUNT ==> (Set(before, j) <==> j < i && Set(lamps, j))
    ensures forall j :: 0 <= j < LAMP_COUNT ==> (Set(after, j) <==> j < i + 1 && Set(lamps, j))
  {
    hide With, Set, TelltaleOf;
    TelltaleSmall(i);
    forall j | 0 <= j < LAMP_COUNT
      ensures Set(after, j) <==> j < i + 1 && Set(lamps, j)
    {
      SetWith(before, TelltaleOf(i), j);
    }
  }

  lemma AllLamps(bits: nat, lamps: Mask)
    requires bits < Pow2(LAMP_COUNT)
    requires forall j :: 0 <= j < LAMP_COUNT ==> (Set(bits, j) <==> Set(lamps, j))
    ensures bits == lamps % TT_LIMIT
  {
    PowersUsed();
    forall j | 0 <= j < LAMP_COUNT
      ensures Set(bits, j) <==> Set(lamps % TT_LIMIT, j)
    {
      SetLow(lamps, LAMP_COUNT, j);
    }
    SameBits(bits, lamps % TT_LIMIT, LAMP_COUNT);
  }

  function GearFrom(g: int): byte { if 0 <= g <= 4 then g else SNA_U8 }
  function PowerStateFrom(p: int): byte { if 0 <= p <= 3 then p else SNA_U8 }
  function ChargingStateFrom(c: int): byte { if 0 <= c <= 3 then c else SNA_U8 }
  function DrivetrainFrom(d: int): byte { if 1 <= d <= 5 then d else 0 }
  function SourceKindFrom(s: int): byte { if 1 <= s <= 3 then s else 0 }
  function CollisionRiskFrom(r: int): byte { if 1 <= r <= 3 then r else 0 }

  predicate Has(s: VehicleState, live: bool, sig: Signal) {
    live && Set(s.valid, sig) && Set(s.capable, sig)
  }

  datatype Frames = Frames(status: Status, identity: Identity, motion: Motion, edrive: EDrive, telltales: Telltales,
                           energy: Energy, trip: Trip, thermal: Thermal, assist: Assist)

  /** A whole-number field: negative values become 0, values past 65534 stick there. */
  function WholeU16(v: real): u16 {
    if v < 0.0 then 0 else if v > 65534.0 then 65534 else (v + 0.5).Floor
  }

  function MotionFrom(s: VehicleState, live: bool): Motion {
    Motion(s.speedKmh, Has(s, live, SIG_SPEED),
           WholeU16(s.rpm), Has(s, live, SIG_RPM),
           GearFrom(s.gear), Has(s, live, SIG_GEAR) && GearFrom(s.gear) != SNA_U8,
           PowerStateFrom(s.powerState), Has(s, live, SIG_POWER_STATE) && PowerStateFrom(s.powerState) != SNA_U8)
  }

  function EnergyFrom(s: VehicleState, live: bool): Energy {
    var c := if s.consumptionWhKm > 32767.0 then 32767.0 else s.consumptionWhKm;
    Energy(s.socPct, Has(s, live, SIG_SOC), s.sohPct, Has(s, live, SIG_SOH),
           WholeU16(s.rangeKm), Has(s, live, SIG_RANGE),
           Round(if c < -32767.0 then -32767.0 else c), Has(s, live, SIG_CONSUMPTION),
           ChargingStateFrom(s.chargingState),
           Has(s, live, SIG_CHARGING_STATE) && ChargingStateFrom(s.chargingState) != SNA_U8)
  }

  function AssistFrom(s: VehicleState, live: bool): Assist {
    Assist(Clamp(s.ecoScore, 0, 100), Has(s, live, SIG_ECO_SCORE),
           Clamp(s.speedLimitKmh, 0, 254), Has(s, live, SIG_SPEED_LIMIT),
           CollisionRiskFrom(s.collisionRisk), Has(s, live, SIG_COLLISION_RISK),
           s.laneState % 16, Has(s, live, SIG_LANE_STATE),
           s.leadGapM, Has(s, live, SIG_LEAD_GAP))
  }

  function EDriveFrom(s: VehicleState, live: bool): EDrive {
    EDrive(s.motorPowerKw, Has(s, live, SIG_MOTOR_POWER), s.packVoltageV, Has(s, live, SIG_PACK_VOLTAGE),
           s.packCurrentA, Has(s, live, SIG_PACK_CURRENT))
  }

  function TripFrom(s: VehicleState, live: bool): Trip {
    Trip(s.odometerKm, Has(s, live, SIG_ODOMETER),
         EncI8(s.ambientC, 1.0, true), Has(s, live, SIG_AMBIENT_TEMP),
         EncI8(s.cabinC, 1.0, true), Has(s, live, SIG_CABIN_TEMP))
  }

  function ThermalFrom(s: VehicleState, live: bool): Thermal {
    Thermal(EncI8(s.coolantC, 1.0, true), Has(s, live, SIG_COOLANT_TEMP),
            s.fuelPct, Has(s, live, SIG_FUEL_LEVEL),
            s.auxBatteryV, Has(s, live, SIG_AUX_BATTERY))
  }

  function FramesFrom(s: VehicleState, live: bool, proxyState: byte, counter: byte,
                      pluginMajor: byte, pluginMinor: byte): Frames {
    Frames(
      Status(CONTRACT_MAJOR, CONTRACT_MINOR, counter, proxyState, Capabilities(s.capable)),
      Identity(DrivetrainFrom(s.drivetrain), SourceKindFrom(s.source), pluginMajor, pluginMinor, s.vehicleId),
      MotionFrom(s, live),
      EDriveFrom(s, live),
      Telltales(if live then s.lamps % TT_LIMIT else 0),
      EnergyFrom(s, live),
      TripFrom(s, live),
      ThermalFrom(s, live),
      AssistFrom(s, live))
  }
}
