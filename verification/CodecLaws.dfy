/** Laws of the wire codec. Each frame has a canonical form - reserved bytes zero, codes in
    range - and that form is exactly what pack can produce and exactly what survives
    unpack followed by pack. The scaled encoders are monotone, stay clear of the SNA code,
    and err by at most half a least-significant bit. */
module CodecLaws {
  import opened Contract

  // ---------------------------------------------------------------- quantisation

  /** Twice the rounding error never exceeds one step, and halves go away from zero. */
  lemma RoundIsNearest(v: real)
    ensures v - 0.5 <= Round(v) as real <= v + 0.5
    ensures v >= 0.0 ==> v < Round(v) as real + 0.5
    ensures v < 0.0 ==> v > Round(v) as real - 0.5
  {
  }

  lemma RoundMonotone(v: real, w: real)
    requires v <= w
    ensures Round(v) <= Round(w)
  {
    RoundIsNearest(v);
    RoundIsNearest(w);
  }

  lemma RoundInt(n: int)
    ensures Round(n as real) == n
  {
    RoundIsNearest(n as real);
  }

  lemma DivMonotone(v: real, w: real, lsb: real)
    requires lsb > 0.0 && v <= w
    ensures v / lsb <= w / lsb
  {
    assert w / lsb - v / lsb == (w - v) / lsb;
  }

  lemma DivMul(n: int, lsb: real)
    requires lsb > 0.0
    ensures (n as real * lsb) / lsb == n as real
  {
  }

  /** A larger value never gets a smaller code. */
  lemma CodeMonotone(v: real, w: real, lsb: real, lo: int, hi: int)
    requires lsb > 0.0 && lo <= hi && v <= w
    ensures Clamp(Round(v / lsb), lo, hi) <= Clamp(Round(w / lsb), lo, hi)
  {
    DivMonotone(v, w, lsb);
    RoundMonotone(v / lsb, w / lsb);
  }

  /** Outside the representable range the code saturates. */
  lemma CodeSaturates(v: real, lsb: real, lo: int, hi: int)
    requires lsb > 0.0 && lo <= hi
    ensures v <= lo as real * lsb ==> Clamp(Round(v / lsb), lo, hi) == lo
    ensures v >= hi as real * lsb ==> Clamp(Round(v / lsb), lo, hi) == hi
  {
    if v <= lo as real * lsb {
      CodeMonotone(v, lo as real * lsb, lsb, lo, hi);
      CodeSurvives(lo, lsb, lo, hi);
    }
    if v >= hi as real * lsb {
      CodeMonotone(hi as real * lsb, v, lsb, lo, hi);
      CodeSurvives(hi, lsb, lo, hi);
    }
  }

  /** The reading is within half a step of the value, and half-way between two readings the one further from zero. */
  predicate Nearest(value: real, reading: real, half: real) {
    && reading - half <= value <= reading + half
    && (half > 0.0 && value >= 0.0 ==> value < reading + half)
    && (half > 0.0 && value < 0.0 ==> reading - half < value)
  }

  /** Inside the representable range, decoding the code gives the nearest of the values with a code. */
  lemma CodeError(v: real, lsb: real, lo: int, hi: int)
    requires lsb > 0.0 && lo as real * lsb <= v <= hi as real * lsb
    ensures lo <= hi
    ensures var decoded := Clamp(Round(v / lsb), lo, hi) as real * lsb;
            Nearest(v, decoded, 0.5 * lsb)
  {
    InRange(v, lsb, lo, hi);
    HalfStep(Clamp(Round(v / lsb), lo, hi), v, v / lsb, lsb);
  }

  lemma InRange(v: real, lsb: real, lo: int, hi: int)
    requires lsb > 0.0 && lo as real * lsb <= v <= hi as real * lsb
    ensures lo <= Round(v / lsb) <= hi && (v / lsb) * lsb == v
  {
    DivMonotone(lo as real * lsb, v, lsb);
    DivMonotone(v, hi as real * lsb, lsb);
    DivMul(lo, lsb);
    DivMul(hi, lsb);
    RoundMonotone(lo as real, v / lsb);
    RoundMonotone(v / lsb, hi as real);
    RoundInt(lo);
    RoundInt(hi);
  }

  lemma HalfStep(code: int, v: real, q: real, lsb: real)
    requires lsb > 0.0 && code == Round(q) && q * lsb == v
    ensures Nearest(v, code as real * lsb, 0.5 * lsb)
  {
    hide Round;
    RoundIsNearest(q);
    var c, half := code as real, 0.5 * lsb;
    Distributes(c, lsb);
    Scaled(c - 0.5, q, lsb);
    Scaled(q, c + 0.5, lsb);
    Scaled(0.0, q, lsb);
    assert c * lsb - half == (c - 0.5) * lsb <= q * lsb == v;
    assert v == q * lsb <= (c + 0.5) * lsb == c * lsb + half;
    assert v >= 0.0 ==> q * lsb < (c + 0.5) * lsb;
    assert v < 0.0 ==> (c - 0.5) * lsb < q * lsb;
  }

  lemma Distributes(c: real, lsb: real)
    ensures (c - 0.5) * lsb == c * lsb - 0.5 * lsb && (c + 0.5) * lsb == c * lsb + 0.5 * lsb && 0.0 * lsb == 0.0
  {
  }

  lemma Scaled(a: real, b: real, k: real)
    requires k > 0.0
    ensures (a <= b <==> a * k <= b * k) && (a < b <==> a * k < b * k)
  {
    var d := b - a;
    assert d * k == b * k - a * k;
    ProductSign(d, k);
  }

  lemma ProductSign(x: real, y: real)
    requires y > 0.0
    ensures (x > 0.0 <==> x * y > 0.0) && (x >= 0.0 <==> x * y >= 0.0)
  {
  }

  /** No encoder emits its SNA code for a valid value, and always emits it for an invalid one. */
  lemma SnaExactlyWhenInvalid(v: real, lsb: real, valid: bool, max: byte)
    requires lsb > 0.0 && max < SNA_U8
    ensures EncU8(v, lsb, valid, max) == SNA_U8 <==> !valid
    ensures EncI8(v, lsb, valid) == SNA_I8 <==> !valid
    ensures EncU16(v, lsb, valid) == SNA_U16 <==> !valid
    ensures EncI16(v, lsb, valid) == SNA_I16 <==> !valid
    ensures EncU32(v, lsb, valid) == SNA_U32 <==> !valid
  {
  }

  /** Re-encoding a decoded code gives the code back. */
  lemma CodeSurvives(n: int, lsb: real, lo: int, hi: int)
    requires lsb > 0.0 && lo <= n <= hi
    ensures Clamp(Round((n as real * lsb) / lsb), lo, hi) == n
  {
    DivMul(n, lsb);
    RoundInt(n);
  }

  // ---------------------------------------------------------------- canonical frames

  predicate PercentCode(b: byte) { b <= 200 || b == SNA_U8 }

  predicate CanonicalStatus(d: Frame) { d[6] < 4 && d[7] == 0 }
  predicate CanonicalMotion(d: Frame) { d[6] == 0 && d[7] == 0 }
  predicate CanonicalEDrive(d: Frame) { d[6] == 0 && d[7] == 0 }
  predicate CanonicalTelltales(d: Frame) {
    d[2] < 16 && d[3] == 0 && d[4] == 0 && d[5] == 0 && d[6] == 0 && d[7] == 0
  }
  predicate CanonicalEnergy(d: Frame) { PercentCode(d[0]) && PercentCode(d[1]) && d[7] == 0 }
  predicate CanonicalTrip(d: Frame) { d[6] == 0 && d[7] == 0 }
  predicate CanonicalThermal(d: Frame) {
    PercentCode(d[1]) && d[4] == 0 && d[5] == 0 && d[6] == 0 && d[7] == 0
  }
  predicate CanonicalAssist(d: Frame) {
    (d[0] <= 100 || d[0] == SNA_U8) && (d[3] < 16 || d[3] == SNA_U8) && d[6] == 0 && d[7] == 0
  }

  lemma Le16RoundTrip(d: Frame, at: nat)
    requires at + 2 <= 8
    ensures Le16(GetU16(d, at)) == d[at..at + 2]
  {
  }

  lemma Le32RoundTrip(d: Frame, at: nat)
    requires at + 4 <= 8
    ensures Le32(GetU32(d, at)) == d[at..at + 4]
  {
    FourDigits(d[at], d[at + 1], d[at + 2], d[at + 3]);
    assert d[at..at + 4] == [d[at], d[at + 1], d[at + 2], d[at + 3]];
  }

  lemma FourDigits(a: byte, b: byte, c: byte, e: byte)
    ensures var w := a as int + 0x100 * b as int + 0x1_0000 * c as int + 0x100_0000 * e as int;
            w < 0x1_0000_0000 && Le32(w) == [a, b, c, e]
  {
    var w := a as int + 0x100 * b as int + 0x1_0000 * c as int + 0x100_0000 * e as int;
    LastDigit(w, a, b as int + 0x100 * c as int + 0x1_0000 * e as int);
    LastDigit(w / 0x100, b, c as int + 0x100 * e as int);
    LastDigit(w / 0x100 / 0x100, c, e);
    assert w / 0x100 / 0x100 == w / 0x1_0000 && w / 0x1_0000 / 0x100 == w / 0x100_0000;
  }

  lemma LastDigit(w: nat, digit: byte, rest: nat)
    requires w == digit as int + 0x100 * rest
    ensures w % 0x100 == digit as int && w / 0x100 == rest
  {
  }

  lemma GetLe16(v: u16, d: Frame, at: nat)
    requires at + 2 <= 8 && d[at..at + 2] == Le16(v)
    ensures GetU16(d, at) == v
  {
    assert d[at] == d[at..at + 2][0] && d[at + 1] == d[at..at + 2][1];
  }

  lemma Digits(v: u32)
    ensures v == v % 0x100 + 0x100 * ((v / 0x100) % 0x100) + 0x1_0000 * ((v / 0x1_0000) % 0x100)
                 + 0x100_0000 * (v / 0x100_0000)
  {
    var a := v / 0x100;
    var b := a / 0x100;
    assert b == v / 0x1_0000;
    assert b / 0x100 == v / 0x100_0000;
  }

  lemma GetLe32(v: u32, d: Frame, at: nat)
    requires at + 4 <= 8 && d[at..at + 4] == Le32(v)
    ensures GetU32(d, at) == v
  {
    Digits(v);
    assert d[at] == d[at..at + 4][0] && d[at + 1] == d[at..at + 4][1];
    assert d[at + 2] == d[at..at + 4][2] && d[at + 3] == d[at..at + 4][3];
  }

  // ---------------------------------------------------------------- normal forms

  /** A status frame survives unpack and pack exactly when it is canonical, and pack always
      produces a canonical one; likewise for the eight frames below. */
  lemma StatusNormalForm(d: Frame, s: Status)
    ensures StatusBytes(UnpackStatus(d)) == d <==> CanonicalStatus(d)
    ensures CanonicalStatus(StatusBytes(s))
  {
    Le32RoundTrip(d, 4);
    var w := GetU32(d, 4);
    assert w % CAP_LIMIT == w <==> d[6] < 4 && d[7] == 0;
    var e := StatusBytes(UnpackStatus(d));
    assert d == d[..4] + d[4..8];
    if e == d {
      GetLe32(w % CAP_LIMIT, e, 4);
    }
  }

  lemma IdentityNormalForm(d: Frame)
    ensures IdentityBytes(UnpackIdentity(d)) == d
  {
    Le32RoundTrip(d, 4);
    assert d == d[..4] + d[4..8];
  }

  /** A scaled 16-bit code is reproduced whatever it is, SNA included. */
  lemma U16Survives(raw: u16, lsb: real)
    requires lsb > 0.0
    ensures EncU16(if raw != SNA_U16 then raw as real * lsb else 0.0, lsb, raw != SNA_U16) == raw
  {
    if raw != SNA_U16 { CodeSurvives(raw, lsb, 0, 0xFFFE); }
  }

  lemma I16Survives(raw: i16, lsb: real)
    requires lsb > 0.0
    ensures EncI16(if raw != SNA_I16 then raw as real * lsb else 0.0, lsb, raw != SNA_I16) == raw
  {
    if raw != SNA_I16 { CodeSurvives(raw, lsb, -32767, 32767); }
  }

  lemma MotionNormalForm(d: Frame, s: Motion)
    ensures MotionBytes(UnpackMotion(d)) == d <==> CanonicalMotion(d)
    ensures CanonicalMotion(MotionBytes(s))
  {
    U16Survives(GetU16(d, 0), 0.01);
    Le16RoundTrip(d, 0);
    Le16RoundTrip(d, 2);
    assert d == d[0..2] + d[2..4] + [d[4], d[5], d[6], d[7]];
  }

  lemma EDriveNormalForm(d: Frame, s: EDrive)
    ensures EDriveBytes(UnpackEDrive(d)) == d <==> CanonicalEDrive(d)
    ensures CanonicalEDrive(EDriveBytes(s))
  {
    hide Round, EncU16, EncI16, ToU16, ToI16, Le16, GetU16;
    TenthsSurvive(GetU16(d, 0));
    TenthsSurvive(GetU16(d, 2));
    TenthsSurvive(GetU16(d, 4));
    Le16RoundTrip(d, 0);
    Le16RoundTrip(d, 2);
    Le16RoundTrip(d, 4);
    assert d == d[0..2] + d[2..4] + d[4..6] + [d[6], d[7]];
  }

  /** The signed and unsigned tenths of the electric-drive frame. */
  lemma TenthsSurvive(raw: u16)
    ensures var r := ToI16(raw); ToU16(EncI16(if r != SNA_I16 then r as real * 0.1 else 0.0, 0.1, r != SNA_I16)) == raw
    ensures EncU16(if raw != SNA_U16 then raw as real * 0.1 else 0.0, 0.1, raw != SNA_U16) == raw
  {
    I16Survives(ToI16(raw), 0.1);
    U16Survives(raw, 0.1);
  }

  lemma TelltalesNormalForm(d: Frame, s: Telltales)
    ensures TelltalesBytes(UnpackTelltales(d)) == d <==> CanonicalTelltales(d)
    ensures CanonicalTelltales(TelltalesBytes(s))
  {
    var w := GetU32(d, 0);
    LampBits(d);
    Le32RoundTrip(d, 0);
    var e := TelltalesBytes(UnpackTelltales(d));
    hide Le32, GetU32;
    assert d == d[0..4] + [d[4], d[5], d[6], d[7]];
    if e == d {
      GetLe32(w % TT_LIMIT, e, 0);
    }
    LampBytesCanonical(s.bits % TT_LIMIT);
  }

  /** The reserved lamp bits are clear exactly when byte 3 and the upper half of byte 2 are. */
  lemma LampBits(d: Frame)
    ensures GetU32(d, 0) % TT_LIMIT == GetU32(d, 0) <==> d[2] < 16 && d[3] == 0
  {
  }

  lemma LampBytesCanonical(bits: u32)
    requires bits < TT_LIMIT
    ensures Le32(bits)[2] < 16 && Le32(bits)[3] == 0
  {
  }

  /** A half-percent code is reproduced exactly when it is at most 200 or the SNA code. */
  lemma PercentSurvives(b: byte)
    ensures EncU8(if b != SNA_U8 then b as real * 0.5 else 0.0, 0.5, b != SNA_U8, 200) == b <==> PercentCode(b)
  {
    DivMul(b, 0.5);
    RoundInt(b);
  }

  lemma SignedByteSurvives(b: byte)
    ensures ToU8(EncI8(if ToI8(b) != SNA_I8 then ToI8(b) as real else 0.0, 1.0, ToI8(b) != SNA_I8)) == b
  {
    if ToI8(b) != SNA_I8 { CodeSurvives(ToI8(b), 1.0, -127, 127); }
  }

  lemma EnergyNormalForm(d: Frame, s: Energy)
    ensures EnergyBytes(UnpackEnergy(d)) == d <==> CanonicalEnergy(d)
    ensures CanonicalEnergy(EnergyBytes(s))
  {
    hide Round, Le16, GetU16;
    PercentSurvives(d[0]);
    PercentSurvives(d[1]);
    Le16RoundTrip(d, 2);
    Le16RoundTrip(d, 4);
    assert d == [d[0], d[1]] + d[2..4] + d[4..6] + [d[6], d[7]];
  }

  lemma TripNormalForm(d: Frame, s: Trip)
    ensures TripBytes(UnpackTrip(d)) == d <==> CanonicalTrip(d)
    ensures CanonicalTrip(TripBytes(s))
  {
    hide Round, Le32, GetU32, EncI8, ToU8, ToI8;
    Le32RoundTrip(d, 0);
    var raw := GetU32(d, 0);
    if raw != SNA_U32 { CodeSurvives(raw, 0.1, 0, 0xFFFF_FFFE); }
    SignedByteSurvives(d[4]);
    SignedByteSurvives(d[5]);
    assert d == d[0..4] + [d[4], d[5], d[6], d[7]];
  }

  lemma ThermalNormalForm(d: Frame, s: Thermal)
    ensures ThermalBytes(UnpackThermal(d)) == d <==> CanonicalThermal(d)
    ensures CanonicalThermal(ThermalBytes(s))
  {
    SignedByteSurvives(d[0]);
    PercentSurvives(d[1]);
    U16Survives(GetU16(d, 2), 0.01);
    Le16RoundTrip(d, 2);
    assert d == [d[0], d[1]] + d[2..4] + [d[4], d[5], d[6], d[7]];
  }

  lemma AssistNormalForm(d: Frame, s: Assist)
    ensures AssistBytes(UnpackAssist(d)) == d <==> CanonicalAssist(d)
    ensures CanonicalAssist(AssistBytes(s))
  {
    DivMul(d[0], 1.0);
    RoundInt(d[0]);
    U16Survives(GetU16(d, 4), 0.1);
    Le16RoundTrip(d, 4);
    assert d == [d[0], d[1], d[2], d[3]] + d[4..6] + [d[6], d[7]];
  }

  // ---------------------------------------------------------------- what a consumer reads back

  lemma StatusRead(s: Status)
    ensures UnpackStatus(StatusBytes(s)) == s.(capabilities := s.capabilities % CAP_LIMIT)
  {
    GetLe32(s.capabilities % CAP_LIMIT, StatusBytes(s), 4);
  }

  lemma IdentityRead(s: Identity)
    ensures UnpackIdentity(IdentityBytes(s)) == s
  {
    GetLe32(s.vehicleId, IdentityBytes(s), 4);
  }

  lemma TelltalesRead(s: Telltales)
    ensures UnpackTelltales(TelltalesBytes(s)).bits == s.bits % TT_LIMIT
  {
    GetLe32(s.bits % TT_LIMIT, TelltalesBytes(s), 0);
  }

  /** A consumer sees speed and rpm as valid exactly when they were packed as valid, but an
      enumeration only when its raw code is not the SNA code: pack passes raw 0xFF through. */
  lemma MotionRead(s: Motion)
    ensures var r := UnpackMotion(MotionBytes(s));
            && r.speedValid == s.speedValid && r.rpmValid == s.rpmValid
            && (r.gearValid <==> s.gearValid && s.gear != SNA_U8)
            && (r.powerStateValid <==> s.powerStateValid && s.powerState != SNA_U8)
            && (s.speedValid ==> r.speedKmh == Clamp(Round(s.speedKmh / 0.01), 0, 0xFFFE) as real * 0.01)
            && (s.rpmValid && s.rpm < 0xFFFF ==> r.rpm == s.rpm)
            && (r.gearValid ==> r.gear == s.gear) && (r.powerStateValid ==> r.powerState == s.powerState)
  {
    var d := MotionBytes(s);
    GetLe16(EncU16(s.speedKmh, 0.01, s.speedValid), d, 0);
    GetLe16(if !s.rpmValid then SNA_U16 else if s.rpm == 0xFFFF then 0xFFFE else s.rpm, d, 2);
  }

  lemma EDriveRead(s: EDrive)
    ensures var r := UnpackEDrive(EDriveBytes(s));
            && r.motorPowerValid == s.motorPowerValid && r.packVoltageValid == s.packVoltageValid
            && r.packCurrentValid == s.packCurrentValid
            && (s.motorPowerValid ==>
                  r.motorPowerKw == Clamp(Round(s.motorPowerKw / 0.1), -32767, 32767) as real * 0.1)
            && (s.packVoltageValid ==> r.packVoltageV == Clamp(Round(s.packVoltageV / 0.1), 0, 0xFFFE) as real * 0.1)
            && (s.packCurrentValid ==>
                  r.packCurrentA == Clamp(Round(s.packCurrentA / 0.1), -32767, 32767) as real * 0.1)
  {
    var d := EDriveBytes(s);
    GetLe16(ToU16(EncI16(s.motorPowerKw, 0.1, s.motorPowerValid)), d, 0);
    GetLe16(EncU16(s.packVoltageV, 0.1, s.packVoltageValid), d, 2);
    GetLe16(ToU16(EncI16(s.packCurrentA, 0.1, s.packCurrentValid)), d, 4);
  }

  lemma EnergyRead(s: Energy)
    ensures var r := UnpackEnergy(EnergyBytes(s));
            && r.socValid == s.socValid && r.sohValid == s.sohValid && r.rangeValid == s.rangeValid
            && r.consumptionValid == s.consumptionValid
            && (r.chargingStateValid <==> s.chargingStateValid && s.chargingState != SNA_U8)
            && (s.socValid ==> r.socPct == Clamp(Round(s.socPct / 0.5), 0, 200) as real * 0.5)
            && (s.sohValid ==> r.sohPct == Clamp(Round(s.sohPct / 0.5), 0, 200) as real * 0.5)
            && (s.rangeValid && s.rangeKm < 0xFFFF ==> r.rangeKm == s.rangeKm)
            && (s.consumptionValid && s.consumptionWhKm > -0x8000 ==> r.consumptionWhKm == s.consumptionWhKm)
            && (r.chargingStateValid ==> r.chargingState == s.chargingState)
  {
    var d := EnergyBytes(s);
    GetLe16(if !s.rangeValid then SNA_U16 else if s.rangeKm == 0xFFFF then 0xFFFE else s.rangeKm, d, 2);
    GetLe16(ToU16(if !s.consumptionValid then SNA_I16
                  else if s.consumptionWhKm == SNA_I16 then -32767 else s.consumptionWhKm), d, 4);
  }

  /** A one-degree field packed from a signed byte: the lowest code, -128, reads back as -127. */
  lemma DegreesRead(c: i8, valid: bool)
    ensures ToI8(ToU8(EncI8(c as real, 1.0, valid))) == if !valid then SNA_I8 else if c == -128 then -127 else c
  {
    RoundInt(c);
    assert c as real / 1.0 == c as real;
  }

  lemma TripRead(s: Trip)
    ensures var r := UnpackTrip(TripBytes(s));
            && r.odometerValid == s.odometerValid && r.ambientValid == s.ambientValid && r.cabinValid == s.cabinValid
            && (s.odometerValid ==>
                  r.odometerKm == Clamp(Round(s.odometerKm / 0.1), 0, 0xFFFF_FFFE) as real * 0.1)
            && (s.ambientValid && s.ambientC > -128 ==> r.ambientC == s.ambientC)
            && (s.cabinValid && s.cabinC > -128 ==> r.cabinC == s.cabinC)
  {
    var d := TripBytes(s);
    GetLe32(EncU32(s.odometerKm, 0.1, s.odometerValid), d, 0);
    DegreesRead(s.ambientC, s.ambientValid);
    DegreesRead(s.cabinC, s.cabinValid);
  }

  lemma ThermalRead(s: Thermal)
    ensures var r := UnpackThermal(ThermalBytes(s));
            && r.coolantValid == s.coolantValid && r.fuelValid == s.fuelValid
            && r.auxBatteryValid == s.auxBatteryValid
            && (s.coolantValid && s.coolantC > -128 ==> r.coolantC == s.coolantC)
            && (s.fuelValid ==> r.fuelPct == Clamp(Round(s.fuelPct / 0.5), 0, 200) as real * 0.5)
            && (s.auxBatteryValid ==> r.auxBatteryV == Clamp(Round(s.auxBatteryV / 0.01), 0, 0xFFFE) as real * 0.01)
  {
    var d := ThermalBytes(s);
    DegreesRead(s.coolantC, s.coolantValid);
    GetLe16(EncU16(s.auxBatteryV, 0.01, s.auxBatteryValid), d, 2);
  }

  lemma AssistRead(s: Assist)
    ensures var r := UnpackAssist(AssistBytes(s));
            && r.ecoScoreValid == s.ecoScoreValid && r.speedLimitValid == s.speedLimitValid
            && (r.collisionRiskValid <==> s.collisionRiskValid && s.collisionRisk != SNA_U8)
            && r.laneStateValid == s.laneStateValid && r.leadGapValid == s.leadGapValid
            && (s.ecoScoreValid && s.ecoScore <= 100 ==> r.ecoScore == s.ecoScore)
            && (s.speedLimitValid && s.speedLimitKmh < SNA_U8 ==> r.speedLimitKmh == s.speedLimitKmh)
            && (r.collisionRiskValid ==> r.collisionRisk == s.collisionRisk)
            && (s.laneStateValid ==> r.laneState == s.laneState % 16)
            && (s.leadGapValid ==> r.leadGapM == Clamp(Round(s.leadGapM / 0.1), 0, 0xFFFE) as real * 0.1)
  {
    var d := AssistBytes(s);
    RoundInt(s.ecoScore);
    assert s.ecoScore as real / 1.0 == s.ecoScore as real;
    GetLe16(EncU16(s.leadGapM, 0.1, s.leadGapValid), d, 4);
  }
}
