/** The candump-format log: the printer in the channel and the separately written scanf parser of the
    replay tool. Each field conversion is modelled as the C library performs it. */
module CanLog {
  import opened Contract
  import opened Options

  // ---------------------------------------------------------------- numbers as text

  const DIGITS := "0123456789ABCDEF"

  function Digit(d: nat): char
    requires d < 16
  {
    DIGITS[d]
  }

  /** Value of a digit in any base up to 16, either case; 99 for anything else. */
  function DigitValue(c: char): nat {
    if '0' <= c <= '9' then c as int - '0' as int
    else if 'A' <= c <= 'F' then c as int - 'A' as int + 10
    else if 'a' <= c <= 'f' then c as int - 'a' as int + 10
    else 99
  }

  predicate AllDigits(s: string, base: nat) {
    forall i :: 0 <= i < |s| ==> DigitValue(s[i]) < base
  }

  function Digits(n: nat, base: nat): string
    requires 2 <= base <= 16
    decreases n
  {
    if n < base then [Digit(n)] else Quotient(n, base); Digits(n / base, base) + [Digit(n % base)]
  }

  lemma Quotient(n: nat, base: nat)
    requires n >= base >= 2
    ensures 0 < n / base < n
  {
  }

  function Padded(s: string, width: nat): string
    decreases width - |s|
  {
    if |s| >= width then s else Padded("0" + s, width)
  }

  function NumberValue(s: string, base: nat): nat {
    if s == "" then 0 else NumberValue(s[..|s| - 1], base) * base + DigitValue(s[|s| - 1])
  }

  lemma DigitRoundTrip(d: nat)
    requires d < 16
    ensures DigitValue(Digit(d)) == d
  {
  }

  lemma {:induction false} DigitsValue(n: nat, base: nat)
    requires 2 <= base <= 16
    ensures NumberValue(Digits(n, base), base) == n && AllDigits(Digits(n, base), base) && |Digits(n, base)| > 0
    decreases n
  {
    hide Digit, DigitValue, NumberValue;
    if n < base {
      DigitRoundTrip(n);
      OneDigit(Digit(n), base);
    } else {
      Quotient(n, base);
      DigitsValue(n / base, base);
      DigitRoundTrip(n % base);
      OneMoreDigit(Digits(n / base, base), Digit(n % base), base);
      DivideBase(n, base);
    }
  }

  lemma DivideBase(n: nat, base: nat)
    requires base >= 2
    ensures n == (n / base) * base + n % base
  {
  }

  lemma OneDigit(c: char, base: nat)
    ensures NumberValue([c], base) == DigitValue(c)
  {
    assert [c][..0] == "";
  }

  lemma OneMoreDigit(s: string, c: char, base: nat)
    ensures NumberValue(s + [c], base) == NumberValue(s, base) * base + DigitValue(c)
  {
    assert (s + [c])[..|s|] == s;
  }

  lemma {:induction false} LeadingZero(s: string, base: nat)
    ensures NumberValue("0" + s, base) == NumberValue(s, base)
  {
    if s == "" {
      assert ("0" + s)[..0] == "";
    } else {
      LeadingZero(s[..|s| - 1], base);
      assert ("0" + s)[..|s|] == "0" + s[..|s| - 1];
    }
  }

  lemma {:induction false} PaddedValue(s: string, width: nat, base: nat)
    requires base >= 1 && AllDigits(s, base) && s != ""
    ensures NumberValue(Padded(s, width), base) == NumberValue(s, base) && AllDigits(Padded(s, width), base)
    ensures |Padded(s, width)| == if |s| >= width then |s| else width
    decreases width - |s|
  {
    if |s| < width {
      LeadingZero(s, base);
      PaddedValue("0" + s, width, base);
    }
  }

  // ---------------------------------------------------------------- the printer

  datatype LogFrame = LogFrame(sec: nat, usec: nat, id: nat, data: seq<byte>)

  function HexByte(b: byte): string { Padded(Digits(b, 16), 2) }

  function HexBytes(data: seq<byte>): string {
    if data == [] then "" else HexBytes(data[..|data| - 1]) + HexByte(data[|data| - 1])
  }

  function Line(iface: string, f: LogFrame): string {
    "(" + Digits(f.sec, 10) + "." + Padded(Digits(f.usec, 10), 6) + ") " + iface + " "
    + Padded(Digits(f.id, 16), 3) + "#" + HexBytes(f.data)
  }

  class Recorder {
    const iface: string
    /** The open log file's contents, if recording. */
    var log: Option<string>

    constructor (iface: string)
      ensures this.iface == iface && log == None
    {
      this.iface := iface;
      log := None;
    }

    method Start()
      modifies this
      ensures log == Some("")
    {
      log := Some("");
    }

    method Record(f: LogFrame)
      modifies this
      ensures log == if old(log).None? then None else Some(old(log).value + Line(iface, f) + "\n")
    {
      hide HexByte, Padded, Digits;
      if log.None? {
        return;
      }
      var text := "(" + Digits(f.sec, 10) + "." + Padded(Digits(f.usec, 10), 6) + ") " + iface + " "
                  + Padded(Digits(f.id, 16), 3) + "#";
      ghost var head := text;
      for i := 0 to |f.data|
        invariant text == head + HexBytes(f.data[..i])
      {
        assert f.data[..i + 1][..i] == f.data[..i];
        text := text + HexByte(f.data[i]);
      }
      assert f.data[..|f.data|] == f.data;
      log := Some(log.value + text + "\n");
    }
  }

  // ---------------------------------------------------------------- the parser

  datatype Scan<T> = NoMatch | Match(value: T, rest: string)

  predicate IsSpace(c: char) { c == ' ' || c == '\t' || c == '\n' || c == '\r' || c as int == 11 || c as int == 12 }

  function SkipSpace(s: string): string {
    if s != "" && IsSpace(s[0]) then SkipSpace(s[1..]) else s
  }

  function Literal(s: string, c: char): Scan<()> {
    if s != "" && s[0] == c then Match((), s[1..]) else NoMatch
  }

  function DigitRun(s: string, base: nat): (n: nat)
    ensures n <= |s|
  {
    if s != "" && DigitValue(s[0]) < base then 1 + DigitRun(s[1..], base) else 0
  }

  /** What the C library makes of a sign and a number: too large a number sticks at the type's maximum whatever its
      sign, otherwise a minus negates modulo the type's range. */
  function Converted(negative: bool, v: nat, limit: nat): nat
    requires limit > 0
  {
    if v >= limit then limit - 1 else if negative && v > 0 then limit - v else v
  }

  predicate HexPrefix(t: string) {
    |t| >= 3 && t[0] == '0' && (t[1] == 'x' || t[1] == 'X') && DigitValue(t[2]) < 16
  }

  function SignOf(t: string): (sign: string)
    ensures |sign| <= |t|
  {
    if t != "" && (t[0] == '+' || t[0] == '-') then t[..1] else ""
  }

  function PrefixOf(u: string, base: nat): (prefix: string)
    ensures |prefix| <= |u|
  {
    if base == 16 && HexPrefix(u) then u[..2] else ""
  }

  /** A numeric conversion: space, an optional sign, in base 16 an optional 0x, and the longest run of digits. */
  function ScanNumber(s: string, base: nat, limit: nat): Scan<nat>
    requires limit > 0
  {
    var t := SkipSpace(s);
    var u := t[|SignOf(t)|..];
    var d := u[|PrefixOf(u, base)|..];
    var n := DigitRun(d, base);
    if n == 0 then NoMatch
    else Match(Converted(SignOf(t) == "-", NumberValue(d[..n], base), limit), d[n..])
  }

  /** unsigned long on a 64-bit machine. */
  const LONG_LIMIT := 0x1_0000_0000_0000_0000

  /** %lu */
  function ScanULong(s: string): Scan<nat> { ScanNumber(s, 10, LONG_LIMIT) }

  /** %x: the 64-bit result is cut to 32 bits. */
  function ScanHex(s: string): Scan<nat> {
    match ScanNumber(s, 16, LONG_LIMIT)
    case NoMatch => NoMatch
    case Match(v, rest) => Match(v % 0x1_0000_0000, rest)
  }

  function WordRun(s: string, max: nat): (n: nat)
    ensures n <= |s| && n <= max
  {
    if max > 0 && s != "" && !IsSpace(s[0]) then 1 + WordRun(s[1..], max - 1) else 0
  }

  /** %<max>s */
  function ScanWord(s: string, max: nat): Scan<string> {
    var t := SkipSpace(s);
    var n := WordRun(t, max);
    if n == 0 then NoMatch else Match(t[..n], t[n..])
  }

  /** %2x on two characters; `stale` is what the variable held if nothing converts. */
  function ScanByte(a: char, b: char, stale: byte): byte {
    var x, y := DigitValue(a), DigitValue(b);
    if x < 16 && y < 16 then x * 16 + y
    else if x < 16 && !(a == '0' && (b == 'x' || b == 'X')) then x
    else if a == '+' && y < 16 then y
    else if a == '-' && y < 16 then (0x100 - y) % 0x100
    else stale
  }

  datatype Rec = Rec(t: real, id: nat, data: seq<byte>)

  function BytesOf(hex: string, n: nat, stale: byte): seq<byte>
    requires 2 * n <= |hex|
  {
    seq(n, i requires 0 <= i < n => ScanByte(hex[2 * i], hex[2 * i + 1], stale))
  }

  /** The scan pattern "(%lu.%lu) %31s %x#%63s", one field after another. */
  function ScanTime(line: string): Scan<(nat, nat)> {
    match Literal(line, '(')
    case NoMatch => NoMatch
    case Match(_, s1) =>
      match ScanULong(s1)
      case NoMatch => NoMatch
      case Match(sec, s2) =>
        match Literal(s2, '.')
        case NoMatch => NoMatch
        case Match(_, s3) =>
          match ScanULong(s3)
          case NoMatch => NoMatch
          case Match(usec, s4) =>
            match Literal(s4, ')')
            case NoMatch => NoMatch
            case Match(_, s5) => Match((sec, usec), s5)
  }

  function ScanFrame(s: string): Scan<(nat, string)> {
    match ScanWord(SkipSpace(s), 31)
    case NoMatch => NoMatch
    case Match(_, s1) =>
      match ScanHex(SkipSpace(s1))
      case NoMatch => NoMatch
      case Match(id, s2) =>
        match Literal(s2, '#')
        case NoMatch => NoMatch
        case Match(_, s3) =>
          match ScanWord(s3, 63)
          case NoMatch => NoMatch
          case Match(hex, rest) => Match((id, hex), rest)
  }

  function ParsedLine(line: string, stale: byte): Option<Rec> {
    match ScanTime(line)
    case NoMatch => None
    case Match(time, s) =>
      match ScanFrame(s)
      case NoMatch => None
      case Match(frame, _) =>
        var n := |frame.1| / 2;
        Some(Rec(time.0 as real + time.1 as real / 1000000.0, frame.0, BytesOf(frame.1, if n > 8 then 8 else n, stale)))
  }

  /** The parser fills its record byte by byte. */
  method ParseLine(line: string, stale: byte) returns (r: Option<Rec>)
    ensures r == ParsedLine(line, stale)
  {
    hide ScanTime, ScanFrame, ScanByte;
    var time := ScanTime(line);
    if time.NoMatch? {
      return None;
    }
    var frame := ScanFrame(time.rest);
    if frame.NoMatch? {
      return None;
    }
    var (id, hex) := frame.value;
    var n := |hex| / 2;
    var dlc := if n > 8 then 8 else n;
    var data: seq<byte> := [];
    for i := 0 to dlc
      invariant data == BytesOf(hex, i, stale)
    {
      data := data + [ScanByte(hex[2 * i], hex[2 * i + 1], stale)];
    }
    r := Some(Rec(time.value.0 as real + time.value.1 as real / 1000000.0, id, data));
  }

  // ---------------------------------------------------------------- round trip

  lemma {:induction false} RunStops(t: string, rest: string, base: nat)
    requires AllDigits(t, base) && (rest == "" || DigitValue(rest[0]) >= base)
    ensures DigitRun(t + rest, base) == |t|
  {
    if t == "" {
      assert t + rest == rest;
    } else {
      RunStops(t[1..], rest, base);
      assert (t + rest)[1..] == t[1..] + rest;
    }
  }

  /** Digits have no space, sign or prefix in front. */
  lemma PlainDigits(t: string, rest: string, base: nat)
    requires t != "" && base <= 16 && AllDigits(t, base) && (base == 16 ==> |t| >= 2)
    ensures SkipSpace(t + rest) == t + rest && SignOf(t + rest) == "" && PrefixOf(t + rest, base) == ""
  {
    assert DigitValue(t[0]) < base && (t + rest)[0] == t[0];
    assert |t| >= 2 ==> DigitValue(t[1]) < base && (t + rest)[1] == t[1];
  }

  lemma NumberReads(t: string, rest: string, base: nat, limit: nat)
    requires t != "" && base <= 16 && AllDigits(t, base) && NumberValue(t, base) < limit
    requires rest == "" || DigitValue(rest[0]) >= base
    requires base == 16 ==> |t| >= 2
    ensures ScanNumber(t + rest, base, limit) == Match(NumberValue(t, base), rest)
    ensures SkipSpace(t + rest) == t + rest
  {
    PlainDigits(t, rest, base);
    RunStops(t, rest, base);
    hide SkipSpace, SignOf, PrefixOf, DigitRun, NumberValue, AllDigits, DigitValue;
    assert (t + rest)[..|t|] == t && (t + rest)[|t|..] == rest;
  }

  lemma ULongReads(t: string, rest: string)
    requires t != "" && AllDigits(t, 10) && NumberValue(t, 10) < 0x1_0000_0000_0000_0000
    requires rest == "" || DigitValue(rest[0]) >= 10
    ensures ScanULong(t + rest) == Match(NumberValue(t, 10), rest)
  {
    hide ScanNumber, SkipSpace;
    NumberReads(t, rest, 10, LONG_LIMIT);
  }

  lemma HexReads(t: string, rest: string)
    requires |t| >= 2 && AllDigits(t, 16) && NumberValue(t, 16) < 0x1_0000_0000
    requires rest == "" || DigitValue(rest[0]) >= 16
    ensures ScanHex(t + rest) == Match(NumberValue(t, 16), rest) && SkipSpace(t + rest) == t + rest
  {
    hide ScanNumber, SkipSpace, NumberValue;
    NumberReads(t, rest, 16, LONG_LIMIT);
  }

  lemma LiteralReads(c: char, rest: string)
    ensures Literal([c] + rest, c) == Match((), rest)
  {
    assert ([c] + rest)[1..] == rest;
  }

  lemma SpaceSkips(rest: string)
    requires rest != "" && !IsSpace(rest[0])
    ensures SkipSpace(" " + rest) == rest
  {
    assert (" " + rest)[1..] == rest;
  }

  predicate NoSpaces(s: string) { forall i :: 0 <= i < |s| ==> !IsSpace(s[i]) }

  lemma {:induction false} WordStops(t: string, rest: string, max: nat)
    requires NoSpaces(t) && |t| <= max && (rest == "" || IsSpace(rest[0]))
    ensures WordRun(t + rest, max) == |t|
  {
    if t == "" {
      assert t + rest == rest;
    } else {
      WordStops(t[1..], rest, max - 1);
      assert (t + rest)[1..] == t[1..] + rest;
    }
  }

  lemma WordReads(t: string, rest: string, max: nat)
    requires t != "" && NoSpaces(t) && |t| <= max && (rest == "" || IsSpace(rest[0]))
    ensures ScanWord(t + rest, max) == Match(t, rest) && SkipSpace(t + rest) == t + rest
  {
    WordStops(t, rest, max);
    assert (t + rest)[0] == t[0];
    assert (t + rest)[..|t|] == t && (t + rest)[|t|..] == rest;
  }

  lemma HexByteShape(b: byte)
    ensures |HexByte(b)| == 2 && ScanByte(HexByte(b)[0], HexByte(b)[1], 0) == b && AllDigits(HexByte(b), 16)
  {
    hide ScanByte;
    DigitsValue(b, 16);
    PaddedValue(Digits(b, 16), 2, 16);
    ByteDigits(b);
    PairRead(HexByte(b), b);
  }

  lemma ByteDigits(b: byte)
    ensures |Digits(b, 16)| <= 2
  {
    hide Digit;
    if b >= 16 {
      assert b as int / 16 < 16;
      assert |Digits(b as int / 16, 16)| == 1;
    }
  }

  /** A two-digit text reads as the number it denotes. */
  lemma PairRead(h: string, b: byte)
    requires |h| == 2 && AllDigits(h, 16) && NumberValue(h, 16) == b as int
    ensures ScanByte(h[0], h[1], 0) == b
  {
    hide DigitValue;
    assert h == [h[0]] + [h[1]] && [h[0]] == "" + [h[0]];
    OneMoreDigit([h[0]], h[1], 16);
    OneMoreDigit("", h[0], 16);
  }

  lemma {:induction false} HexBytesShape(data: seq<byte>, stale: byte)
    ensures |HexBytes(data)| == 2 * |data| && AllDigits(HexBytes(data), 16)
    ensures BytesOf(HexBytes(data), |data|, stale) == data
  {
    hide HexByte, DigitValue;
    if data != [] {
      var early, b := data[..|data| - 1], data[|data| - 1];
      HexBytesShape(early, stale);
      HexByteShape(b);
      var h := HexBytes(data);
      forall i | 0 <= i < |data|
        ensures ScanByte(h[2 * i], h[2 * i + 1], stale) == data[i]
      {
        if i < |early| {
          assert h[2 * i] == HexBytes(early)[2 * i] && h[2 * i + 1] == HexBytes(early)[2 * i + 1];
          assert BytesOf(HexBytes(early), |early|, stale)[i] == early[i];
        }
      }
    }
  }

  lemma DigitsAreNotSpaces(s: string)
    requires AllDigits(s, 16)
    ensures NoSpaces(s)
  {
    forall i | 0 <= i < |s|
      ensures !IsSpace(s[i])
    {
      assert DigitValue(s[i]) < 16;
    }
  }

  /** An 11-bit identifier, a clock reading, and no more bytes than the parser's buffer takes. */
  predicate Printable(f: LogFrame) {
    f.id <= 0x7FF && |f.data| <= 31 && f.usec < 1000000 && f.sec < 0x8000_0000_0000_0000
  }

  /** A frame the channel can record. */
  predicate Recordable(f: LogFrame) { Printable(f) && |f.data| <= 8 }

  predicate InterfaceName(iface: string) { 1 <= |iface| <= 31 && NoSpaces(iface) }

  lemma TimeReads(f: LogFrame, rest: string)
    requires Printable(f)
    ensures ScanTime("(" + Digits(f.sec, 10) + "." + Padded(Digits(f.usec, 10), 6) + ")" + rest) ==
            Match((f.sec, f.usec), rest)
  {
    hide ScanULong, Literal, Digits, Padded, NumberValue, AllDigits;
    var sec, usec := Digits(f.sec, 10), Padded(Digits(f.usec, 10), 6);
    DigitsValue(f.sec, 10);
    DigitsValue(f.usec, 10);
    PaddedValue(Digits(f.usec, 10), 6, 10);
    var s4 := ")" + rest;
    var s3 := usec + s4;
    var s2 := "." + s3;
    var s1 := sec + s2;
    assert "(" + sec + "." + usec + ")" + rest == "(" + s1;
    LiteralReads('(', s1);
    ULongReads(sec, s2);
    LiteralReads('.', s3);
    ULongReads(usec, s4);
    LiteralReads(')', rest);
  }

  lemma FrameReads(iface: string, f: LogFrame)
    requires InterfaceName(iface) && Printable(f)
    ensures ScanFrame(" " + iface + " " + Padded(Digits(f.id, 16), 3) + "#" + HexBytes(f.data)) ==
            if f.data == [] then NoMatch else Match((f.id, HexBytes(f.data)), "")
  {
    hide Digits, Padded, HexBytes, NumberValue, ScanHex, ScanWord, SkipSpace, Literal, BytesOf;
    var id, hex := Padded(Digits(f.id, 16), 3), HexBytes(f.data);
    DigitsValue(f.id, 16);
    PaddedValue(Digits(f.id, 16), 3, 16);
    HexBytesShape(f.data, 0);
    DigitsAreNotSpaces(hex);
    DigitsAreNotSpaces(id);
    var s3 := "#" + hex;
    var s2 := id + s3;
    var s1 := " " + s2;
    assert " " + iface + " " + id + "#" + hex == " " + (iface + s1);
    SpaceSkips(iface + s1);
    WordReads(iface, s1, 31);
    assert s2[0] == id[0];
    SpaceSkips(s2);
    HexReads(id, s3);
    LiteralReads('#', hex);
    LastWord(hex);
  }

  lemma LastWord(hex: string)
    requires NoSpaces(hex) && |hex| <= 63
    ensures ScanWord(hex, 63) == if hex == "" then NoMatch else Match(hex, "")
  {
    if hex != "" {
      WordReads(hex, "", 63);
      assert hex + "" == hex;
    }
  }

  /** The parser undoes the printer for every frame that carries data - of more than eight bytes it keeps the first
      eight - and rejects the line of a frame that carries none. */
  lemma LineRoundTrip(iface: string, f: LogFrame, stale: byte)
    requires InterfaceName(iface) && Printable(f)
    ensures ParsedLine(Line(iface, f), stale) ==
            if f.data == [] then None
            else Some(Rec(f.sec as real + f.usec as real / 1000000.0, f.id,
                          if |f.data| <= 8 then f.data else f.data[..8]))
  {
    hide ScanTime, ScanFrame, Digits, Padded, HexBytes, BytesOf, AllDigits;
    var tail := " " + iface + " " + Padded(Digits(f.id, 16), 3) + "#" + HexBytes(f.data);
    assert Line(iface, f) == "(" + Digits(f.sec, 10) + "." + Padded(Digits(f.usec, 10), 6) + ")" + tail;
    TimeReads(f, tail);
    FrameReads(iface, f);
    HexBytesShape(f.data, stale);
    FirstBytes(HexBytes(f.data), |f.data|, stale);
  }

  lemma FirstBytes(hex: string, n: nat, stale: byte)
    requires 2 * n <= |hex|
    ensures n > 8 ==> BytesOf(hex, 8, stale) == BytesOf(hex, n, stale)[..8]
  {
  }

  /** A numeral as printf writes it: digits and capitals only, at least so wide, and no zero in front beyond that. */
  predicate Numeral(s: string, value: nat, base: nat, width: nat) {
    && |s| >= width && NumberValue(s, base) == value && (|s| > width ==> s[0] != '0')
    && forall i :: 0 <= i < |s| ==> ('0' <= s[i] <= '9' || 'A' <= s[i] <= 'F') && DigitValue(s[i]) < base
  }

  lemma DigitChar(d: nat)
    requires d < 16
    ensures var c := Digit(d); ('0' <= c <= '9' || 'A' <= c <= 'F') && DigitValue(c) == d && (c == '0' <==> d == 0)
  {
  }

  lemma {:induction false} PlainNumeral(n: nat, base: nat)
    requires 2 <= base <= 16
    ensures Numeral(Digits(n, base), n, base, 1) && (n > 0 ==> Digits(n, base)[0] != '0')
    decreases n
  {
    hide Digit, DigitValue, NumberValue;
    DigitsValue(n, base);
    if n >= base {
      Quotient(n, base);
      PlainNumeral(n / base, base);
      DigitChar(n % base);
    } else {
      DigitChar(n);
    }
  }

  lemma PaddedNumeral(s: string, value: nat, base: nat, width: nat)
    requires base >= 1 && Numeral(s, value, base, 1) && width >= 1
    ensures Numeral(Padded(s, width), value, base, width)
  {
    if |s| < width {
      ZeroInFront(s, width, value, base);
    }
  }

  /** Zeros may go in front as long as the numeral is too short. */
  lemma {:induction false} ZeroInFront(s: string, width: nat, value: nat, base: nat)
    requires base >= 1 && |s| <= width && NumberValue(s, base) == value
    requires forall i :: 0 <= i < |s| ==> ('0' <= s[i] <= '9' || 'A' <= s[i] <= 'F') && DigitValue(s[i]) < base
    ensures |Padded(s, width)| == width && Numeral(Padded(s, width), value, base, width)
    decreases width - |s|
  {
    if |s| < width {
      LeadingZero(s, base);
      ZeroInFront("0" + s, width, value, base);
    }
  }

  lemma PrintedNumeral(n: nat, base: nat, width: nat)
    requires 2 <= base <= 16 && width >= 1
    ensures Numeral(Padded(Digits(n, base), width), n, base, width)
  {
    hide Digits;
    PlainNumeral(n, base);
    PaddedNumeral(Digits(n, base), n, base, width);
  }

  /** Two capitals or digits for each byte, in order. */
  predicate HexPairs(hex: string, data: seq<byte>) {
    |hex| == 2 * |data| && forall i :: 0 <= i < |data| ==> Numeral(hex[2 * i..2 * i + 2], data[i], 16, 2)
  }

  lemma {:induction false} BytesAsPairs(data: seq<byte>)
    ensures HexPairs(HexBytes(data), data)
  {
    hide HexPairs, HexByte;
    if data == [] {
      NoPairs();
    } else {
      var n := |data| - 1;
      BytesAsPairs(data[..n]);
      BytePair(data[n]);
      PairsGrow(HexBytes(data[..n]), data[..n], HexByte(data[n]), data[n]);
      assert data[..n] + [data[n]] == data;
    }
  }

  lemma NoPairs()
    ensures HexPairs("", [])
  {
  }

  lemma PairsGrow(hex: string, data: seq<byte>, pair: string, b: byte)
    requires HexPairs(hex, data) && |pair| == 2 && Numeral(pair, b, 16, 2)
    ensures HexPairs(hex + pair, data + [b])
  {
    hide Numeral;
    forall i | 0 <= i < |data| + 1
      ensures Numeral((hex + pair)[2 * i..2 * i + 2], (data + [b])[i], 16, 2)
    {
      assert (hex + pair)[2 * i..2 * i + 2] == if i < |data| then hex[2 * i..2 * i + 2] else pair;
    }
  }

  lemma BytePair(b: byte)
    ensures |HexByte(b)| == 2 && Numeral(HexByte(b), b, 16, 2)
  {
    HexByteShape(b);
    PrintedNumeral(b, 16, 2);
  }

  /** What a recorded line looks like, whatever the frame: the candump format, from its parts. */
  lemma LineIsCandump(iface: string, f: LogFrame) returns (sec: string, usec: string, id: string, hex: string)
    ensures Line(iface, f) == "(" + sec + "." + usec + ") " + iface + " " + id + "#" + hex
    ensures Numeral(sec, f.sec, 10, 1) && Numeral(usec, f.usec, 10, 6) && Numeral(id, f.id, 16, 3)
    ensures HexPairs(hex, f.data)
  {
    hide Digits, Padded, HexBytes, Numeral;
    sec, usec := Digits(f.sec, 10), Padded(Digits(f.usec, 10), 6);
    id, hex := Padded(Digits(f.id, 16), 3), HexBytes(f.data);
    PlainNumeral(f.sec, 10);
    PrintedNumeral(f.usec, 10, 6);
    PrintedNumeral(f.id, 16, 3);
    BytesAsPairs(f.data);
  }

  // ---------------------------------------------------------------- whole logs

  function WrittenLog(iface: string, frames: seq<LogFrame>): string {
    if frames == [] then "" else WrittenLog(iface, frames[..|frames| - 1]) + Line(iface, frames[|frames| - 1]) + "\n"
  }

  /** getline: the text up to each newline, and what is left at the end if anything. */
  function LinesOf(text: string, current: string): seq<string> {
    if text == "" then (if current == "" then [] else [current])
    else if text[0] == '\n' then [current] + LinesOf(text[1..], "")
    else LinesOf(text[1..], current + [text[0]])
  }

  function ParsedLog(lines: seq<string>, stale: byte): seq<Rec> {
    if lines == [] then []
    else
      var r := ParsedLine(lines[|lines| - 1], stale);
      ParsedLog(lines[..|lines| - 1], stale) + (if r.Some? then [r.value] else [])
  }

  function Records(frames: seq<LogFrame>): seq<Rec> {
    if frames == [] then []
    else
      var f := frames[|frames| - 1];
      Records(frames[..|frames| - 1])
      + (if f.data == [] then [] else [Rec(f.sec as real + f.usec as real / 1000000.0, f.id, f.data)])
  }

  predicate OneLine(s: string) { forall i :: 0 <= i < |s| ==> s[i] != '\n' }

  lemma {:induction false} LineEnds(current: string, line: string, rest: string)
    requires OneLine(line)
    ensures LinesOf(line + "\n" + rest, current) == [current + line] + LinesOf(rest, "")
    decreases |line|
  {
    var text := line + "\n" + rest;
    if line == "" {
      assert text[1..] == rest && current + line == current;
    } else {
      assert text[1..] == line[1..] + "\n" + rest;
      LineEnds(current + [line[0]], line[1..], rest);
      assert current + [line[0]] + line[1..] == current + line;
    }
  }

  function LinesWritten(iface: string, frames: seq<LogFrame>): seq<string> {
    seq(|frames|, i requires 0 <= i < |frames| => Line(iface, frames[i]))
  }

  lemma LineIsOneLine(iface: string, f: LogFrame)
    requires InterfaceName(iface) && Recordable(f)
    ensures OneLine(Line(iface, f))
  {
    DigitsValue(f.sec, 10);
    DigitsValue(f.usec, 10);
    PaddedValue(Digits(f.usec, 10), 6, 10);
    DigitsValue(f.id, 16);
    PaddedValue(Digits(f.id, 16), 3, 16);
    HexBytesShape(f.data, 0);
    var sec, usec, id, hex := Digits(f.sec, 10), Padded(Digits(f.usec, 10), 6), Padded(Digits(f.id, 16), 3),
                              HexBytes(f.data);
    DigitLine(sec, 10);
    DigitLine(usec, 10);
    DigitLine(id, 16);
    DigitLine(hex, 16);
    Separators(iface);
    hide OneLine, Digits, Padded, HexBytes, AllDigits, NumberValue, Recordable, InterfaceName;
    OneLineTogether("(", sec);
    OneLineTogether("(" + sec, ".");
    OneLineTogether("(" + sec + ".", usec);
    OneLineTogether("(" + sec + "." + usec, ") ");
    OneLineTogether("(" + sec + "." + usec + ") ", iface);
    OneLineTogether("(" + sec + "." + usec + ") " + iface, " ");
    OneLineTogether("(" + sec + "." + usec + ") " + iface + " ", id);
    OneLineTogether("(" + sec + "." + usec + ") " + iface + " " + id, "#");
    OneLineTogether("(" + sec + "." + usec + ") " + iface + " " + id + "#", hex);
  }

  lemma Separators(iface: string)
    requires InterfaceName(iface)
    ensures OneLine("(") && OneLine(".") && OneLine(") ") && OneLine(" ") && OneLine("#") && OneLine(iface)
  {
  }

  lemma OneLineTogether(a: string, b: string)
    requires OneLine(a) && OneLine(b)
    ensures OneLine(a + b)
  {
  }

  lemma DigitLine(s: string, base: nat)
    requires base <= 16 && AllDigits(s, base)
    ensures OneLine(s)
  {
  }

  lemma {:induction false} LogSplits(iface: string, frames: seq<LogFrame>, rest: string)
    requires InterfaceName(iface) && forall i :: 0 <= i < |frames| ==> Recordable(frames[i])
    ensures LinesOf(WrittenLog(iface, frames) + rest, "") == LinesWritten(iface, frames) + LinesOf(rest, "")
  {
    hide Line, LinesOf, Recordable, OneLine;
    if frames == [] {
      assert WrittenLog(iface, frames) + rest == rest;
      assert LinesWritten(iface, frames) + LinesOf(rest, "") == LinesOf(rest, "");
    } else {
      var early, f := frames[..|frames| - 1], frames[|frames| - 1];
      var more := Line(iface, f) + "\n" + rest;
      assert WrittenLog(iface, frames) + rest == WrittenLog(iface, early) + more;
      LogSplits(iface, early, more);
      LineIsOneLine(iface, f);
      LineEnds("", Line(iface, f), rest);
      assert "" + Line(iface, f) == Line(iface, f);
      assert LinesWritten(iface, frames) == LinesWritten(iface, early) + [Line(iface, f)];
    }
  }

  lemma {:induction false} LinesParse(iface: string, frames: seq<LogFrame>, stale: byte)
    requires InterfaceName(iface) && forall i :: 0 <= i < |frames| ==> Recordable(frames[i])
    ensures ParsedLog(LinesWritten(iface, frames), stale) == Records(frames)
  {
    hide Line, ParsedLine, Printable;
    if frames != [] {
      var early, f := frames[..|frames| - 1], frames[|frames| - 1];
      LinesParse(iface, early, stale);
      LineRoundTrip(iface, f, stale);
      assert LinesWritten(iface, frames)[..|early|] == LinesWritten(iface, early);
    }
  }

  /** Reading a recorded session back yields the recorded frames in order; frames without data, whose
      lines the parser rejects, are the only ones missing. */
  lemma LogRoundTrip(iface: string, frames: seq<LogFrame>, stale: byte)
    requires InterfaceName(iface) && forall i :: 0 <= i < |frames| ==> Recordable(frames[i])
    ensures ParsedLog(LinesOf(WrittenLog(iface, frames), ""), stale) == Records(frames)
  {
    LogSplits(iface, frames, "");
    assert WrittenLog(iface, frames) + "" == WrittenLog(iface, frames);
    assert LinesWritten(iface, frames) + [] == LinesWritten(iface, frames);
    LinesParse(iface, frames, stale);
  }
}
