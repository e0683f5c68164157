/** J1979 over single CAN frames: response parsing, supported-PID bitmaps (SAE J1979, appendix A)
    and the decode table. */
module J1979 {
  import opened BitMasks
  import opened Contract
  import opened Options

  const REQUEST_ID := 0x7DF
  const RESPONSE_FIRST := 0x7E8
  const RESPONSE_LAST := 0x7EF

  const PID_COOLANT_TEMP: byte := 0x05
  const PID_RPM: byte := 0x0C
  const PID_SPEED: byte := 0x0D
  const PID_FUEL_LEVEL: byte := 0x2F
  const PID_MODULE_VOLTAGE: byte := 0x42
  const PID_AMBIENT_TEMP: byte := 0x46
  const PID_ODOMETER: byte := 0xA6

  /** A received frame always has an eight-byte buffer of which `dlc` bytes are meaningful. */
  datatype CanFrame = CanFrame(id: nat, dlc: byte, data: Frame)

  datatype Response = Response(mode: byte, pid: byte, payload: seq<byte>)

  predicate IsResponseId(id: nat) { RESPONSE_FIRST <= id <= RESPONSE_LAST }
  predicate IsSupportedPid(pid: byte) { pid % 0x20 == 0 }

  method BuildRequest(pid: byte) returns (f: CanFrame)
    ensures f == RequestFrame(pid) && AsksFor(f, pid)
  {
    var d := new byte[8](i => 0);
    d[0], d[1], d[2] := 0x02, 0x01, pid;
    assert d[..] == [0x02, 0x01, pid, 0, 0, 0, 0, 0];
    f := CanFrame(REQUEST_ID, 8, d[..]);
  }

  function RequestFrame(pid: byte): (f: CanFrame)
    ensures AsksFor(f, pid)
  {
    CanFrame(REQUEST_ID, 8, [0x02, 0x01, pid, 0, 0, 0, 0, 0])
  }

  /** A request for current data (mode 01 of SAE J1979), to whichever ECU it concerns: a whole single frame on
      the functional identifier that carries mode and PID and nothing else, padded with zeros. */
  predicate AsksFor(f: CanFrame, pid: byte) {
    && f.id == 0x7DF && f.dlc == 8 && IsSingleFrame(f.data, f.dlc, Response(0x01, pid, []))
    && forall k :: 3 <= k < 8 ==> f.data[k] == 0
  }

  /** A frame asks for one PID at most. */
  lemma AsksForOne(f: CanFrame, a: byte, b: byte)
    requires AsksFor(f, a) && AsksFor(f, b)
    ensures a == b
  {
    var head := f.data[..3];
    assert head == [2, 0x01, a] + [] && head == [2, 0x01, b] + [];
    assert head[2] == a && head[2] == b;
  }

  // ---------------------------------------------------------------- single frames

  function ParseSingleFrame(d: Frame, dlc: byte): Option<Response> {
    if dlc < 3 then None
    else if d[0] / 0x10 != 0 then None
    else
      var len := d[0] % 0x10;
      if len < 2 || len as int + 1 > dlc as int || len > 7 then None
      else if d[1] == 0x7F then None
      else Some(Response(d[1], d[2], d[3..3 + (len as int - 2)]))
  }

  /** A positive single-frame message in the sense of ISO 15765-2: the length nibble counts mode,
      PID and payload, all of which lie inside the frame; what follows is padding. */
  predicate IsSingleFrame(d: Frame, dlc: byte, r: Response) {
    && |r.payload| <= 5 && 3 + |r.payload| <= dlc as int && r.mode != 0x7F
    && d[..3 + |r.payload|] == [2 + |r.payload|, r.mode, r.pid] + r.payload
  }

  /** The parser accepts exactly the positive single frames, and returns what they carry. */
  lemma ParsesExactlySingleFrames(d: Frame, dlc: byte, r: Response)
    ensures ParseSingleFrame(d, dlc) == Some(r) <==> IsSingleFrame(d, dlc, r)
  {
    if IsSingleFrame(d, dlc, r) {
      var n := |r.payload|;
      var m := d[..3 + n];
      assert m[0] == d[0] && m[1] == d[1] && m[2] == d[2];
      assert d[3..3 + n] == m[3..] == r.payload;
    }
    var p := ParseSingleFrame(d, dlc);
    if p == Some(r) {
      var n := |r.payload|;
      assert d[..3 + n] == [d[0], d[1], d[2]] + d[3..3 + n];
    }
  }

  // ---------------------------------------------------------------- supported-PID bitmaps

  function WordOf(abcd: seq<byte>): nat
    requires |abcd| >= 4
  {
    abcd[0] as int * 0x100_0000 + abcd[1] as int * 0x1_0000 + abcd[2] as int * 0x100 + abcd[3] as int
  }

  /** SAE J1979: PID base + n is supported when bit n of the bitmap is set, counted from the most
      significant bit of the first byte. */
  predicate BitmapBit(abcd: seq<byte>, n: nat)
    requires |abcd| >= 4 && 1 <= n <= 32
  {
    Set(abcd[(n - 1) / 8], 7 - (n - 1) % 8)
  }

  lemma ByteUp(m: nat, i: nat)
    ensures Set(m, i + 8) <==> Set(m / 0x100, i)
  {
    NibbleUp(m, i + 4);
    NibbleUp(m / 16, i);
    assert m / 16 / 16 == m / 0x100;
  }

  lemma NibbleUp(m: nat, i: nat)
    ensures Set(m, i + 4) <==> Set(m / 16, i)
  {
    assert m / 2 / 2 == m / 4;
    assert m / 4 / 2 / 2 == m / 16;
    assert Set(m, i + 4) <==> Set(m / 2, i + 3);
    assert Set(m / 2, i + 3) <==> Set(m / 4, i + 2);
    assert Set(m / 4, i + 2) <==> Set(m / 4 / 2, i + 1);
  }

  lemma ByteOnly(m: nat, i: nat)
    requires i < 8
    ensures Set(m, i) <==> Set(m % 0x100, i)
  {
    PowersUsed();
    SetLow(m, 8, i);
  }

  /** The 32-bit word the source assembles tests the same bit as the byte-wise definition. */
  lemma WordBit(abcd: seq<byte>, n: nat)
    requires |abcd| >= 4 && 1 <= n <= 32
    ensures Set(WordOf(abcd), 32 - n) <==> BitmapBit(abcd, n)
  {
    var w, b, i := WordOf(abcd), (n - 1) / 8, 7 - (n - 1) % 8;
    assert 32 - n == i + 8 * (3 - b);
    var w1, w2, w3 := w / 0x100, w / 0x1_0000, w / 0x100_0000;
    assert w1 == abcd[0] as int * 0x1_0000 + abcd[1] as int * 0x100 + abcd[2] as int;
    assert w2 == abcd[0] as int * 0x100 + abcd[1] as int && w3 == abcd[0] as int;
    assert w1 / 0x100 == w2 && w2 / 0x100 == w3;
    if b == 3 {
      ByteOnly(w, i);
    } else if b == 2 {
      ByteUp(w, i);
      ByteOnly(w1, i);
    } else if b == 1 {
      ByteUp(w, i + 8);
      ByteUp(w1, i);
      ByteOnly(w2, i);
    } else {
      ByteUp(w, i + 16);
      ByteUp(w1, i + 8);
      ByteUp(w2, i);
    }
  }

  /** The PIDs a bitmap advertises, in ascending order. */
  method SupportedPidsFrom(base: byte, abcd: seq<byte>) returns (pids: seq<byte>)
    requires |abcd| >= 4
    ensures forall p: byte :: p in pids <==>
              exists n :: 1 <= n <= 32 && BitmapBit(abcd, n) && p == (base as int + n) % 0x100
    ensures base <= 0xDF ==> forall i, j :: 0 <= i < j < |pids| ==> pids[i] < pids[j]
  {
    hide BitmapBit, WordOf, Set;
    var word := WordOf(abcd);
    pids := [];
    var n := 1;
    while n <= 32
      invariant 1 <= n <= 33
      invariant forall p: byte :: p in pids <==>
                  exists m :: 1 <= m < n && BitmapBit(abcd, m) && p == (base as int + m) % 0x100
      invariant base <= 0xDF ==> forall i :: 0 <= i < |pids| ==> pids[i] as int < base as int + n
      invariant base <= 0xDF ==> forall i, j :: 0 <= i < j < |pids| ==> pids[i] < pids[j]
    {
      WordBit(abcd, n);
      if Set(word, 32 - n) {
        pids := pids + [(base as int + n) % 0x100];
      }
      n := n + 1;
    }
  }

  predicate NextBlockAdvertised(abcd: seq<byte>)
    requires |abcd| >= 4
  {
    abcd[3] % 2 == 1
  }

  // ---------------------------------------------------------------- decoding

  function PayloadLength(pid: byte): nat {
    match pid
    case 0x04 => 1
    case 0x05 => 1
    case 0x0B => 1
    case 0x0D => 1
    case 0x2F => 1
    case 0x46 => 1
    case 0x5B => 1
    case 0x0C => 2
    case 0x10 => 2
    case 0x42 => 2
    case 0xA6 => 4
    case _ => if IsSupportedPid(pid) && pid <= 0xC0 then 4 else 0
  }

  function Word16(p: seq<byte>): nat
    requires |p| >= 2
  {
    p[0] as int * 0x100 + p[1] as int
  }

  /** Physical value of a payload; nothing for an unknown PID or a payload that is too short. */
  function Decode(pid: byte, p: seq<byte>): Option<real> {
    if |p| < PayloadLength(pid) || PayloadLength(pid) == 0 then None
    else
      match pid
      case 0x04 => Some(p[0] as real * 100.0 / 255.0)
      case 0x05 => Some(p[0] as real - 40.0)
      case 0x0B => Some(p[0] as real - 40.0)
      case 0x0C => Some(Word16(p) as real / 4.0)
      case 0x0D => Some(p[0] as real)
      case 0x10 => Some(Word16(p) as real / 100.0)
      case 0x2F => Some(p[0] as real * 100.0 / 255.0)
      case 0x42 => Some(Word16(p) as real / 1000.0)
      case 0x46 => Some(p[0] as real - 40.0)
      case 0x5B => Some(p[0] as real * 100.0 / 255.0)
      case 0xA6 => Some(WordOf(p) as real / 10.0)
      case _ => None
  }

  /** What a PID's payload spans: its length, and the values of the all-zero and the all-ones payload. */
  datatype Span = Span(bytes: nat, lo: real, hi: real)

  const PERCENT := Span(1, 0.0, 100.0)
  const DEGREES := Span(1, -40.0, 215.0)

  function SpanOf(pid: byte): Option<Span> {
    match pid
    case 0x04 => Some(PERCENT)
    case 0x05 => Some(DEGREES)
    case 0x0B => Some(DEGREES)
    case 0x0C => Some(Span(2, 0.0, 16383.75))
    case 0x0D => Some(Span(1, 0.0, 255.0))
    case 0x10 => Some(Span(2, 0.0, 655.35))
    case 0x2F => Some(PERCENT)
    case 0x42 => Some(Span(2, 0.0, 65.535))
    case 0x46 => Some(DEGREES)
    case 0x5B => Some(PERCENT)
    case 0xA6 => Some(Span(4, 0.0, 429496729.5))
    case _ => None
  }

  /** The big-endian number in the first `n` bytes, and the largest there can be. */
  function BigEndian(p: seq<byte>, n: nat): nat
    requires n <= |p|
  {
    if n == 0 then 0 else BigEndian(p, n - 1) * 0x100 + p[n - 1]
  }

  function AllOnes(n: nat): nat { if n == 0 then 0 else AllOnes(n - 1) * 0x100 + 0xFF }

  /** Every payload of the standard's length decodes, no shorter one and no other PID does, and the value lies
      between the ends of the PID's range in proportion to the payload's number. */
  lemma DecodesLinearly(pid: byte, p: seq<byte>)
    ensures Decode(pid, p).Some? <==> SpanOf(pid).Some? && |p| >= SpanOf(pid).value.bytes
    ensures Decode(pid, p).Some? ==>
              var k := SpanOf(pid).value;
              (Decode(pid, p).value - k.lo) * AllOnes(k.bytes) as real == (k.hi - k.lo) * BigEndian(p, k.bytes) as real
  {
    if Decode(pid, p).Some? {
      var n := SpanOf(pid).value.bytes;
      NumberOf(p, n);
    }
  }

  lemma NumberOf(p: seq<byte>, n: nat)
    requires n <= |p| && (n == 1 || n == 2 || n == 4)
    ensures BigEndian(p, n) == if n == 1 then p[0] as int else if n == 2 then Word16(p) else WordOf(p)
    ensures AllOnes(n) == if n == 1 then 0xFF else if n == 2 then 0xFFFF else 0xFFFF_FFFF
  {
    assert BigEndian(p, 1) == p[0] as int;
    assert AllOnes(2) == 0xFFFF;
    if n == 4 {
      assert BigEndian(p, 2) == Word16(p);
      assert BigEndian(p, 3) == Word16(p) * 0x100 + p[2] as int;
      assert AllOnes(3) == 0xFF_FFFF;
    }
  }
}
