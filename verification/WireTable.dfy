/** The frame layout as one table: where each signal's code lies in its carrier frame, how many bytes it has,
    whether it is signed, and what one step of it is worth. The decoders read every frame by this table. */
module WireTable {
  import opened Contract
  import opened Vehicle
  import opened WireHonesty
  import opened WireValues

  datatype Place = Place(at: nat, bytes: nat, signed: bool, step: real)

  function PlaceOf(sig: Signal): (f: Place)
    ensures f.bytes in {1, 2, 4} && f.at + f.bytes <= 8
  {
    match sig
    case 0 => Place(0, 2, false, 0.01)
    case 1 => Place(2, 2, false, 1.0)
    case 2 => Place(4, 1, false, 1.0)
    case 3 => Place(5, 1, false, 1.0)
    case 4 => Place(0, 2, true, 0.1)
    case 5 => Place(2, 2, false, 0.1)
    case 6 => Place(4, 2, true, 0.1)
    case 7 => Place(0, 1, false, 0.5)
    case 8 => Place(1, 1, false, 0.5)
    case 9 => Place(2, 2, false, 1.0)
    case 10 => Place(4, 2, true, 1.0)
    case 11 => Place(6, 1, false, 1.0)
    case 12 => Place(0, 4, false, 0.1)
    case 13 => Place(4, 1, true, 1.0)
    case 14 => Place(5, 1, true, 1.0)
    case 15 => Place(0, 1, true, 1.0)
    case 16 => Place(1, 1, false, 0.5)
    case 17 => Place(2, 2, false, 0.01)
    case 18 => Place(0, 1, false, 1.0)
    case 19 => Place(1, 1, false, 1.0)
    case 20 => Place(2, 1, false, 1.0)
    case 21 => Place(3, 1, false, 1.0)
    case _ => Place(4, 2, false, 0.1)
  }

  /** The first byte counts ones, the second 256s, and so on. */
  function LittleEndian(b: seq<byte>): nat {
    if b == [] then 0 else b[0] + 0x100 * LittleEndian(b[1..])
  }

  /** How many codes a field of so many bytes has. */
  function Codes(bytes: nat): nat { if bytes == 0 then 1 else 0x100 * Codes(bytes - 1) }

  /** The signal's code in a frame; signed codes are two's complement. */
  function Code(sig: Signal, d: Frame): int {
    var f := PlaceOf(sig);
    var u := LittleEndian(d[f.at..f.at + f.bytes]);
    if f.signed && 2 * u >= Codes(f.bytes) then u - Codes(f.bytes) else u
  }

  /** The code reserved for "not available": the largest unsigned one, the lowest signed one. */
  function NotAvailable(sig: Signal): int {
    var f := PlaceOf(sig);
    if f.signed then -(Codes(f.bytes) / 2) else Codes(f.bytes) - 1
  }

  /** The code as the decoders' own byte helpers read it. */
  lemma CodeIs(sig: Signal, d: Frame)
    ensures var f, c := PlaceOf(sig), Code(sig, d);
            if f.bytes == 1 then c == (if f.signed then ToI8(d[f.at]) else d[f.at] as int)
            else if f.bytes == 2 then c == (if f.signed then ToI16(GetU16(d, f.at)) else GetU16(d, f.at) as int)
            else f.signed || c == GetU32(d, f.at) as int
    ensures var f, c := PlaceOf(sig), NotAvailable(sig);
            if f.bytes == 1 then c == (if f.signed then SNA_I8 else SNA_U8 as int)
            else if f.bytes == 2 then c == (if f.signed then SNA_I16 else SNA_U16 as int)
            else f.signed || c == SNA_U32 as int
  {
    var f := PlaceOf(sig);
    hide PlaceOf, LittleEndian, Codes;
    if f.bytes == 1 {
      OneByte(d, f.at);
    } else if f.bytes == 2 {
      TwoBytes(d, f.at);
    } else {
      FourBytes(d, f.at);
    }
  }

  /** Whatever the eight bytes: the consumer sees a signal as available exactly when its code is not the reserved
      one, and reads the code times the step. */
  lemma ReadByTable(sig: Signal, d: Frame)
    ensures DecodesValid(sig, d) <==> Code(sig, d) != NotAvailable(sig)
    ensures DecodesValid(sig, d) ==> Reading(sig, d) == Code(sig, d) as real * PlaceOf(sig).step
  {
    hide Code, NotAvailable, DecodesValid, Reading, PlaceOf;
    if sig < 12 { ReadMoving(sig, d); } else { ReadSlow(sig, d); }
  }

  lemma ReadMoving(sig: Signal, d: Frame)
    requires sig < 12
    ensures DecodesValid(sig, d) <==> Code(sig, d) != NotAvailable(sig)
    ensures DecodesValid(sig, d) ==> Reading(sig, d) == Code(sig, d) as real * PlaceOf(sig).step
  {
    CodeIs(sig, d);
    hide Code, NotAvailable, GetU16, GetU32, ToI8, ToI16;
  }

  lemma ReadSlow(sig: Signal, d: Frame)
    requires 12 <= sig
    ensures DecodesValid(sig, d) <==> Code(sig, d) != NotAvailable(sig)
    ensures DecodesValid(sig, d) ==> Reading(sig, d) == Code(sig, d) as real * PlaceOf(sig).step
  {
    CodeIs(sig, d);
    hide Code, NotAvailable, GetU16, GetU32, ToI8, ToI16;
  }

  lemma OneByte(d: Frame, at: nat)
    requires at + 1 <= 8
    ensures LittleEndian(d[at..at + 1]) == d[at] as int && Codes(1) == 0x100
  {
    assert d[at..at + 1] == [d[at]];
  }

  lemma TwoBytes(d: Frame, at: nat)
    requires at + 2 <= 8
    ensures LittleEndian(d[at..at + 2]) == GetU16(d, at) && Codes(2) == 0x1_0000
  {
    assert d[at..at + 2] == [d[at], d[at + 1]] && [d[at], d[at + 1]][1..] == [d[at + 1]];
    assert LittleEndian([d[at + 1]]) == d[at + 1] as int;
    assert Codes(1) == 0x100;
  }

  lemma FourBytes(d: Frame, at: nat)
    requires at + 4 <= 8
    ensures LittleEndian(d[at..at + 4]) == GetU32(d, at) && Codes(4) == 0x1_0000_0000
  {
    assert d[at..at + 4] == [d[at], d[at + 1], d[at + 2], d[at + 3]];
    assert LittleEndian([d[at + 3]]) == d[at + 3] as int;
    assert LittleEndian([d[at + 2], d[at + 3]]) == d[at + 2] as int + 0x100 * d[at + 3] as int;
    assert [d[at + 1], d[at + 2], d[at + 3]][1..] == [d[at + 2], d[at + 3]];
    assert Codes(2) == 0x1_0000;
  }
}
