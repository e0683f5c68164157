/** The wire contract: nine 8-byte frames, little-endian fields, and one reserved
    "signal not available" (SNA) code per field width. The pack routines write a
    caller-supplied buffer in place; each is proved against the byte sequence it must
    leave there, and those sequences are what the codec laws reason about. */
module Contract {

  type byte = x: int | 0 <= x < 0x100
  type u16 = x: int | 0 <= x < 0x1_0000
  type u32 = x: int | 0 <= x < 0x1_0000_0000
  type i8 = x: int | -128 <= x < 128
  type i16 = x: int | -0x8000 <= x < 0x8000
  type Frame = d: seq<byte> | |d| == 8 witness [0, 0, 0, 0, 0, 0, 0, 0]

  const CONTRACT_MAJOR: byte := 1
  const CONTRACT_MINOR: byte := 1
  const FRAME_COUNT := 9

  const ID_STATUS := 0x400
  const ID_IDENTITY := 0x401
  const ID_MOTION := 0x410
  const ID_EDRIVE := 0x411
  const ID_TELLTALES := 0x420
  const ID_ENERGY := 0x430
  const ID_TRIP := 0x431
  const ID_THERMAL := 0x440
  const ID_ASSIST := 0x450

  const SNA_U8: byte := 0xFF
  const SNA_I8: i8 := -128
  const SNA_U16: u16 := 0xFFFF
  const SNA_I16: i16 := -0x8000
  const SNA_U32: u32 := 0xFFFF_FFFF

  const STATE_STARTING: byte := 0
  const STATE_NO_VEHICLE: byte := 1
  const STATE_DEGRADED: byte := 2
  const STATE_OK: byte := 3

  /** Capability bit that says the optional assist frame is published. */
  const CAP_ASSIST := 17
  /** Capability bits 0-17 are assigned; bits 18-31 must be zero on the wire, so masking
      them off is the remainder modulo 2^18. */
  const CAP_LIMIT := 0x40000
  /** Telltale bits 0-19 are assigned; bits 20-31 must be zero on the wire. */
  const TT_LIMIT := 0x100000

  /** Publish period in milliseconds, 0 for an identifier outside the contract. */
  function CycleMs(id: int): nat {
    match id
    case 0x400 => 100
    case 0x401 => 1000
    case 0x410 => 50
    case 0x411 => 50
    case 0x420 => 100
    case 0x430 => 500
    case 0x431 => 1000
    case 0x440 => 500
    case 0x450 => 200
    case _ => 0
  }

  /** After this many milliseconds without the frame a consumer treats it as unknown. */
  function StaleMs(id: int): nat {
    match id
    case 0x400 => 500
    case 0x401 => 4000
    case 0x410 => 250
    case 0x411 => 250
    case 0x420 => 500
    case 0x430 => 2000
    case 0x431 => 4000
    case 0x440 => 2000
    case 0x450 => 800
    case _ => 0
  }

  // ---------------------------------------------------------------- decoded structures

  datatype Status = Status(contractMajor: byte, contractMinor: byte, counter: byte, proxyState: byte,
                           capabilities: u32)
  datatype Identity = Identity(drivetrain: byte, sourceKind: byte, pluginMajor: byte, pluginMinor: byte,
                               vehicleId: u32)
  datatype Motion = Motion(speedKmh: real, speedValid: bool, rpm: u16, rpmValid: bool,
                           gear: byte, gearValid: bool, powerState: byte, powerStateValid: bool)
  datatype EDrive = EDrive(motorPowerKw: real, motorPowerValid: bool, packVoltageV: real, packVoltageValid: bool,
                           packCurrentA: real, packCurrentValid: bool)
  datatype Telltales = Telltales(bits: u32)
  datatype Energy = Energy(socPct: real, socValid: bool, sohPct: real, sohValid: bool,
                           rangeKm: u16, rangeValid: bool, consumptionWhKm: i16, consumptionValid: bool,
                           chargingState: byte, chargingStateValid: bool)
  datatype Trip = Trip(odometerKm: real, odometerValid: bool, ambientC: i8, ambientValid: bool,
                       cabinC: i8, cabinValid: bool)
  datatype Thermal = Thermal(coolantC: i8, coolantValid: bool, fuelPct: real, fuelValid: bool,
                             auxBatteryV: real, auxBatteryValid: bool)
  datatype Assist = Assist(ecoScore: byte, ecoScoreValid: bool, speedLimitKmh: byte, speedLimitValid: bool,
                           collisionRisk: byte, collisionRiskValid: bool, laneState: byte, laneStateValid: bool,
                           leadGapM: real, leadGapValid: bool)

  // ---------------------------------------------------------------- byte helpers

  function Le16(v: u16): (b: seq<byte>)
    ensures |b| == 2
  {
    [v % 0x100, v / 0x100]
  }

  function Le32(v: u32): (b: seq<byte>)
    ensures |b| == 4
  {
    [v % 0x100, (v / 0x100) % 0x100, (v / 0x1_0000) % 0x100, v / 0x100_0000]
  }

  function GetU16(d: Frame, at: nat): u16
    requires at + 2 <= 8
  {
    d[at] as int + 0x100 * d[at + 1] as int
  }

  function GetU32(d: Frame, at: nat): u32
    requires at + 4 <= 8
  {
    d[at] as int + 0x100 * d[at + 1] as int + 0x1_0000 * d[at + 2] as int + 0x100_0000 * d[at + 3] as int
  }

  /** The C cast int8_t -> uint8_t and back: two's complement. */
  function ToU8(v: i8): byte { if v < 0 then v + 0x100 else v }
  function ToI8(v: byte): i8 { if v >= 0x80 then v - 0x100 else v }
  function ToU16(v: i16): u16 { if v < 0 then v + 0x1_0000 else v }
  function ToI16(v: u16): i16 { if v >= 0x8000 then v - 0x1_0000 else v }

  // ---------------------------------------------------------------- scaled encoders

  function Clamp(r: int, lo: int, hi: int): (c: int)
    requires lo <= hi
    ensures lo <= c <= hi
    ensures lo <= r <= hi ==> c == r
  {
    if r < lo then lo else if r > hi then hi else r
  }

  /** Round to nearest, halves away from zero. */
  function Round(v: real): int {
    if v >= 0.0 then (v + 0.5).Floor else -((-v + 0.5).Floor)
  }

  function EncU8(v: real, lsb: real, valid: bool, max: byte): byte
    requires lsb > 0.0
  {
    if !valid then SNA_U8 else Clamp(Round(v / lsb), 0, max)
  }

  function EncI8(v: real, lsb: real, valid: bool): i8
    requires lsb > 0.0
  {
    if !valid then SNA_I8 else Clamp(Round(v / lsb), -127, 127)
  }

  function EncU16(v: real, lsb: real, valid: bool): u16
    requires lsb > 0.0
  {
    if !valid then SNA_U16 else Clamp(Round(v / lsb), 0, 0xFFFE)
  }

  function EncI16(v: real, lsb: real, valid: bool): i16
    requires lsb > 0.0
  {
    if !valid then SNA_I16 else Clamp(Round(v / lsb), -32767, 32767)
  }

  function EncU32(v: real, lsb: real, valid: bool): u32
    requires lsb > 0.0
  {
    if !valid then SNA_U32 else Clamp(Round(v / lsb), 0, 0xFFFF_FFFE)
  }

  // ---------------------------------------------------------------- what each frame must hold

  function StatusBytes(s: Status): Frame {
    [s.contractMajor, s.contractMinor, s.counter, s.proxyState] + Le32(s.capabilities % CAP_LIMIT)
  }

  function IdentityBytes(s: Identity): Frame {
    [s.drivetrain, s.sourceKind, s.pluginMajor, s.pluginMinor] + Le32(s.vehicleId)
  }

  function MotionBytes(s: Motion): Frame {
    Le16(EncU16(s.speedKmh, 0.01, s.speedValid))
    + Le16(if !s.rpmValid then SNA_U16 else if s.rpm == 0xFFFF then 0xFFFE else s.rpm)
    + [if s.gearValid then s.gear else SNA_U8, if s.powerStateValid then s.powerState else SNA_U8, 0, 0]
  }

  function EDriveBytes(s: EDrive): Frame {
    Le16(ToU16(EncI16(s.motorPowerKw, 0.1, s.motorPowerValid)))
    + Le16(EncU16(s.packVoltageV, 0.1, s.packVoltageValid))
    + Le16(ToU16(EncI16(s.packCurrentA, 0.1, s.packCurrentValid)))
    + [0, 0]
  }

  function TelltalesBytes(s: Telltales): Frame {
    Le32(s.bits % TT_LIMIT) + [0, 0, 0, 0]
  }

  function EnergyBytes(s: Energy): Frame {
    [EncU8(s.socPct, 0.5, s.socValid, 200), EncU8(s.sohPct, 0.5, s.sohValid, 200)]
    + Le16(if !s.rangeValid then SNA_U16 else if s.rangeKm == 0xFFFF then 0xFFFE else s.rangeKm)
    + Le16(ToU16(if !s.consumptionValid then SNA_I16
                 else if s.consumptionWhKm == SNA_I16 then -32767 else s.consumptionWhKm))
    + [if s.chargingStateValid then s.chargingState else SNA_U8, 0]
  }

  function TripBytes(s: Trip): Frame {
    Le32(EncU32(s.odometerKm, 0.1, s.odometerValid))
    + [ToU8(EncI8(s.ambientC as real, 1.0, s.ambientValid)), ToU8(EncI8(s.cabinC as real, 1.0, s.cabinValid)), 0, 0]
  }

  function ThermalBytes(s: Thermal): Frame {
    [ToU8(EncI8(s.coolantC as real, 1.0, s.coolantValid)), EncU8(s.fuelPct, 0.5, s.fuelValid, 200)]
    + Le16(EncU16(s.auxBatteryV, 0.01, s.auxBatteryValid))
    + [0, 0, 0, 0]
  }

  function AssistBytes(s: Assist): Frame {
    [EncU8(s.ecoScore as real, 1.0, s.ecoScoreValid, 100),
     if !s.speedLimitValid then SNA_U8 else if s.speedLimitKmh == SNA_U8 then 0xFE else s.speedLimitKmh,
     if s.collisionRiskValid then s.collisionRisk else SNA_U8,
     if s.laneStateValid then s.laneState % 16 else SNA_U8]
    + Le16(EncU16(s.leadGapM, 0.1, s.leadGapValid))
    + [0, 0]
  }

  // ---------------------------------------------------------------- unpack

  function UnpackStatus(d: Frame): Status {
    Status(d[0], d[1], d[2], d[3], GetU32(d, 4))
  }

  function UnpackIdentity(d: Frame): Identity {
    Identity(d[0], d[1], d[2], d[3], GetU32(d, 4))
  }

  function UnpackMotion(d: Frame): Motion {
    var speed, rpm := GetU16(d, 0), GetU16(d, 2);
    Motion(if speed != SNA_U16 then speed as real * 0.01 else 0.0, speed != SNA_U16,
           if rpm != SNA_U16 then rpm else 0, rpm != SNA_U16,
           if d[4] != SNA_U8 then d[4] else 0, d[4] != SNA_U8,
           if d[5] != SNA_U8 then d[5] else 0, d[5] != SNA_U8)
  }

  function UnpackEDrive(d: Frame): EDrive {
    var power, voltage, current := ToI16(GetU16(d, 0)), GetU16(d, 2), ToI16(GetU16(d, 4));
    EDrive(if power != SNA_I16 then power as real * 0.1 else 0.0, power != SNA_I16,
           if voltage != SNA_U16 then voltage as real * 0.1 else 0.0, voltage != SNA_U16,
           if current != SNA_I16 then current as real * 0.1 else 0.0, current != SNA_I16)
  }

  function UnpackTelltales(d: Frame): Telltales {
    Telltales(GetU32(d, 0))
  }

  function UnpackEnergy(d: Frame): Energy {
    var range, consumption := GetU16(d, 2), ToI16(GetU16(d, 4));
    Energy(if d[0] != SNA_U8 then d[0] as real * 0.5 else 0.0, d[0] != SNA_U8,
           if d[1] != SNA_U8 then d[1] as real * 0.5 else 0.0, d[1] != SNA_U8,
           if range != SNA_U16 then range else 0, range != SNA_U16,
           if consumption != SNA_I16 then consumption else 0, consumption != SNA_I16,
           if d[6] != SNA_U8 then d[6] else 0, d[6] != SNA_U8)
  }

  function UnpackTrip(d: Frame): Trip {
    var odometer := GetU32(d, 0);
    Trip(if odometer != SNA_U32 then odometer as real * 0.1 else 0.0, odometer != SNA_U32,
         if ToI8(d[4]) != SNA_I8 then ToI8(d[4]) else 0, ToI8(d[4]) != SNA_I8,
         if ToI8(d[5]) != SNA_I8 then ToI8(d[5]) else 0, ToI8(d[5]) != SNA_I8)
  }

  function UnpackThermal(d: Frame): Thermal {
    var aux := GetU16(d, 2);
    Thermal(if ToI8(d[0]) != SNA_I8 then ToI8(d[0]) else 0, ToI8(d[0]) != SNA_I8,
            if d[1] != SNA_U8 then d[1] as real * 0.5 else 0.0, d[1] != SNA_U8,
            if aux != SNA_U16 then aux as real * 0.01 else 0.0, aux != SNA_U16)
  }

  function UnpackAssist(d: Frame): Assist {
    var gap := GetU16(d, 4);
    Assist(if d[0] != SNA_U8 then d[0] else 0, d[0] != SNA_U8,
           if d[1] != SNA_U8 then d[1] else 0, d[1] != SNA_U8,
           if d[2] != SNA_U8 then d[2] else 0, d[2] != SNA_U8,
           if d[3] != SNA_U8 then d[3] else 0, d[3] != SNA_U8,
           if gap != SNA_U16 then gap as real * 0.1 else 0.0, gap != SNA_U16)
  }

  // ---------------------------------------------------------------- packing in place

  method Clear(d: array<byte>)
    requires d.Length == 8
    modifies d
    ensures forall k :: 0 <= k < 8 ==> d[k] == 0
  {
    var i := 0;
    while i < 8
      invariant 0 <= i <= 8
      invariant forall k :: 0 <= k < i ==> d[k] == 0
    {
      d[i] := 0;
      i := i + 1;
    }
  }

  method PutU16(d: array<byte>, at: nat, v: u16)
    requires d.Length == 8 && at + 2 <= 8
    modifies d
    ensures d[at] == Le16(v)[0] && d[at + 1] == Le16(v)[1]
    ensures forall k :: 0 <= k < 8 && !(at <= k < at + 2) ==> d[k] == old(d[k])
  {
    d[at] := v % 0x100;
    d[at + 1] := v / 0x100;
  }

  method PutU32(d: array<byte>, at: nat, v: u32)
    requires d.Length == 8 && at + 4 <= 8
    modifies d
    ensures forall i :: 0 <= i < 4 ==> d[at + i] == Le32(v)[i]
    ensures forall k :: 0 <= k < 8 && !(at <= k < at + 4) ==> d[k] == old(d[k])
  {
    d[at] := v % 0x100;
    d[at + 1] := (v / 0x100) % 0x100;
    d[at + 2] := (v / 0x1_0000) % 0x100;
    d[at + 3] := v / 0x100_0000;
  }

  method PackStatus(s: Status, d: array<byte>)
    requires d.Length == 8
    modifies d
    ensures d[..] == StatusBytes(s)
  {
    hide Le32;
    Clear(d);
    d[0] := s.contractMajor;
    d[1] := s.contractMinor;
    d[2] := s.counter;
    d[3] := s.proxyState;
    PutU32(d, 4, s.capabilities % CAP_LIMIT);
  }

  method PackIdentity(s: Identity, d: array<byte>)
    requires d.Length == 8
    modifies d
    ensures d[..] == IdentityBytes(s)
  {
    hide Le32;
    Clear(d);
    d[0] := s.drivetrain;
    d[1] := s.sourceKind;
    d[2] := s.pluginMajor;
    d[3] := s.pluginMinor;
    PutU32(d, 4, s.vehicleId);
  }

  method PackMotion(s: Motion, d: array<byte>)
    requires d.Length == 8
    modifies d
    ensures d[..] == MotionBytes(s)
  {
    hide EncU16, Le16;
    Clear(d);
    PutU16(d, 0, EncU16(s.speedKmh, 0.01, s.speedValid));
    PutU16(d, 2, if s.rpmValid then (if s.rpm == 0xFFFF then 0xFFFE else s.rpm) else SNA_U16);
    d[4] := if s.gearValid then s.gear else SNA_U8;
    d[5] := if s.powerStateValid then s.powerState else SNA_U8;
  }

  method PackEDrive(s: EDrive, d: array<byte>)
    requires d.Length == 8
    modifies d
    ensures d[..] == EDriveBytes(s)
  {
    hide EncU16, EncI16, ToU16, Le16;
    Clear(d);
    PutU16(d, 0, ToU16(EncI16(s.motorPowerKw, 0.1, s.motorPowerValid)));
    PutU16(d, 2, EncU16(s.packVoltageV, 0.1, s.packVoltageValid));
    PutU16(d, 4, ToU16(EncI16(s.packCurrentA, 0.1, s.packCurrentValid)));
  }

  method PackTelltales(s: Telltales, d: array<byte>)
    requires d.Length == 8
    modifies d
    ensures d[..] == TelltalesBytes(s)
  {
    hide Le32;
    Clear(d);
    PutU32(d, 0, s.bits % TT_LIMIT);
  }

  method PackEnergy(s: Energy, d: array<byte>)
    requires d.Length == 8
    modifies d
    ensures d[..] == EnergyBytes(s)
  {
    hide EncU8, ToU16, Le16;
    Clear(d);
    d[0] := EncU8(s.socPct, 0.5, s.socValid, 200);
    d[1] := EncU8(s.sohPct, 0.5, s.sohValid, 200);
    var range := if s.rangeValid then (if s.rangeKm == 0xFFFF then 0xFFFE else s.rangeKm) else SNA_U16;
    PutU16(d, 2, range);
    var consumption := ToU16(if s.consumptionValid
                             then (if s.consumptionWhKm == SNA_I16 then -32767 else s.consumptionWhKm)
                             else SNA_I16);
    PutU16(d, 4, consumption);
    d[6] := if s.chargingStateValid then s.chargingState else SNA_U8;
  }

  method PackTrip(s: Trip, d: array<byte>)
    requires d.Length == 8
    modifies d
    ensures d[..] == TripBytes(s)
  {
    hide EncU32, EncI8, ToU8, Le32;
    Clear(d);
    PutU32(d, 0, EncU32(s.odometerKm, 0.1, s.odometerValid));
    d[4] := ToU8(EncI8(s.ambientC as real, 1.0, s.ambientValid));
    d[5] := ToU8(EncI8(s.cabinC as real, 1.0, s.cabinValid));
  }

  method PackThermal(s: Thermal, d: array<byte>)
    requires d.Length == 8
    modifies d
    ensures d[..] == ThermalBytes(s)
  {
    hide EncU8, EncI8, ToU8, EncU16, Le16;
    Clear(d);
    d[0] := ToU8(EncI8(s.coolantC as real, 1.0, s.coolantValid));
    d[1] := EncU8(s.fuelPct, 0.5, s.fuelValid, 200);
    PutU16(d, 2, EncU16(s.auxBatteryV, 0.01, s.auxBatteryValid));
  }

  method PackAssist(s: Assist, d: array<byte>)
    requires d.Length == 8
    modifies d
    ensures d[..] == AssistBytes(s)
  {
    hide EncU8, EncU16, Le16;
    Clear(d);
    d[0] := EncU8(s.ecoScore as real, 1.0, s.ecoScoreValid, 100);
    d[1] := if s.speedLimitValid then (if s.speedLimitKmh == SNA_U8 then 0xFE else s.speedLimitKmh) else SNA_U8;
    d[2] := if s.collisionRiskValid then s.collisionRisk else SNA_U8;
    d[3] := if s.laneStateValid then s.laneState % 16 else SNA_U8;
    PutU16(d, 4, EncU16(s.leadGapM, 0.1, s.leadGapValid));
  }
}
