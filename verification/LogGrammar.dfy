/** Which lines the replay tool's parser accepts, and as what: a grammar, written without any scanning. */
module LogGrammar {
  import opened CanLog
  import opened Contract
  import opened Options

  predicate Blank(s: string) { forall i :: 0 <= i < |s| ==> s[i] in {' ', '\t', '\n', '\r', 11 as char, 12 as char} }

  /** A number as it stands in the text. */
  datatype Number = Number(blank: string, sign: string, prefix: string, digits: string)

  function Text(n: Number): string { n.blank + n.sign + n.prefix + n.digits }

  /** A minus negates modulo 2^64; a number beyond that stands for 2^64 - 1 whatever its sign. */
  function Meaning(sign: string, u: nat): nat {
    if u >= 0x1_0000_0000_0000_0000 then 0xFFFF_FFFF_FFFF_FFFF
    else if sign == "-" then (0x1_0000_0000_0000_0000 - u) % 0x1_0000_0000_0000_0000 else u
  }

  predicate IsSign(s: string) { s == "" || s == "+" || s == "-" }
  predicate IsPrefix(s: string, base: nat) { s == "" || (base == 16 && (s == "0x" || s == "0X")) }

  /** The text is a number in the given base and means v. */
  predicate Means(n: Number, base: nat, v: nat) {
    && Blank(n.blank) && IsSign(n.sign) && IsPrefix(n.prefix, base)
    && n.digits != "" && AllDigits(n.digits, base) && v == Meaning(n.sign, NumberValue(n.digits, base))
  }

  /** The word, with `rest` after it, is all that a field of so many characters takes. */
  predicate Word(w: string, max: nat, rest: string) {
    && 1 <= |w| <= max && (forall i :: 0 <= i < |w| ==> !Blank([w[i]]))
    && (|w| == max || rest == "" || Blank([rest[0]]))
  }

  datatype Parts = Parts(sec: Number, usec: Number, gap: string, iface: string, id: Number, lead: string, hex: string,
                         rest: string)

  function TimeText(p: Parts): string { "(" + Text(p.sec) + "." + Text(p.usec) + ")" }

  /** The line consists of these parts: a time in brackets, an interface name of at most 31 characters, a
      hexadecimal identifier, a hash sign and a word of at most 63 characters. */
  predicate IsLine(line: string, p: Parts, sec: nat, usec: nat, id: nat) {
    && line == TimeText(p) + p.gap + p.iface + Text(p.id) + "#" + p.lead + p.hex + p.rest
    && Means(p.sec, 10, sec) && Means(p.usec, 10, usec) && Means(p.id, 16, id)
    && Blank(p.gap) && Word(p.iface, 31, Text(p.id)) && Blank(p.lead) && Word(p.hex, 63, p.rest)
  }

  // ---------------------------------------------------------------- reading the parts

  lemma SpaceIsBlank(c: char)
    ensures IsSpace(c) <==> Blank([c])
  {
    assert [c][0] == c;
  }

  lemma {:induction false} BlankSkips(w: string, t: string)
    requires Blank(w) && (t == "" || !IsSpace(t[0]))
    ensures SkipSpace(w + t) == t
  {
    if w == "" {
      assert w + t == t;
    } else {
      assert (w + t)[1..] == w[1..] + t;
      BlankSkips(w[1..], t);
    }
  }

  lemma {:induction false} SplitBlank(s: string) returns (w: string)
    ensures s == w + SkipSpace(s) && Blank(w) && (SkipSpace(s) == "" || !IsSpace(SkipSpace(s)[0]))
  {
    w := "";
    if s != "" && IsSpace(s[0]) {
      w := SplitBlank(s[1..]);
      w := [s[0]] + w;
    }
  }

  lemma SkipTwice(s: string)
    ensures SkipSpace(SkipSpace(s)) == SkipSpace(s)
  {
    var w := SplitBlank(s);
  }

  lemma MeaningOf(sign: string, u: nat)
    ensures Converted(sign == "-", u, LONG_LIMIT) == Meaning(sign, u)
  {
  }

  lemma Together(blank: string, sign: string, prefix: string, digits: string, rest: string)
    ensures blank + sign + prefix + digits + rest == blank + (sign + (prefix + (digits + rest)))
  {
  }

  lemma SignReads(sign: string, u: string)
    requires IsSign(sign) && u != "" && u[0] != '+' && u[0] != '-'
    ensures SignOf(sign + u) == sign && (sign + u)[|sign|..] == u
  {
    assert (sign + u)[..|sign|] == sign;
  }

  lemma PrefixReads(prefix: string, digits: string, base: nat, rest: string)
    requires digits != "" && AllDigits(digits, base) && (base == 10 || base == 16)
    requires IsPrefix(prefix, base)
    requires rest != "" && DigitValue(rest[0]) == 99 && rest[0] != 'x' && rest[0] != 'X'
    ensures var u := prefix + (digits + rest);
            && PrefixOf(u, base) == prefix && u[|prefix|..] == digits + rest
            && u[0] != '+' && u[0] != '-' && !IsSpace(u[0])
  {
    var d := digits + rest;
    assert d[0] == digits[0] && DigitValue(d[0]) < base;
    assert |digits| > 1 ==> d[1] == digits[1] && DigitValue(digits[1]) < base;
    assert |digits| == 1 ==> d[1] == rest[0];
    hide AllDigits;
    if prefix == "" {
      assert prefix + d == d;
    } else {
      WithPrefix(prefix, d);
    }
  }

  lemma WithPrefix(prefix: string, d: string)
    requires (prefix == "0x" || prefix == "0X") && d != "" && DigitValue(d[0]) < 16
    ensures PrefixOf(prefix + d, 16) == prefix && (prefix + d)[2..] == d && (prefix + d)[0] == '0'
  {
    var u := prefix + d;
    assert u[0] == prefix[0] && u[1] == prefix[1] && u[2] == d[0] && u[..2] == prefix;
  }

  /** The scan undoes the text of a number that ends where no digit follows. */
  lemma ReadsNumber(n: Number, base: nat, v: nat, rest: string)
    requires Means(n, base, v) && (base == 10 || base == 16)
    requires rest != "" && DigitValue(rest[0]) == 99 && rest[0] != 'x' && rest[0] != 'X'
    ensures ScanNumber(Text(n) + rest, base, LONG_LIMIT) == Match(v, rest)
  {
    hide NumberValue, Converted, Meaning, SignOf, PrefixOf, SkipSpace, DigitRun, Blank, IsSpace;
    var d := n.digits + rest;
    var u := n.prefix + d;
    var t := n.sign + u;
    PrefixReads(n.prefix, n.digits, base, rest);
    SignReads(n.sign, u);
    SignIsNoSpace(n.sign, u);
    BlankSkips(n.blank, t);
    RunStops(n.digits, rest, base);
    MeaningOf(n.sign, NumberValue(n.digits, base));
    hide AllDigits, DigitValue;
    Together(n.blank, n.sign, n.prefix, n.digits, rest);
    assert d[..|n.digits|] == n.digits && d[|n.digits|..] == rest;
  }

  lemma SignIsNoSpace(sign: string, u: string)
    requires IsSign(sign) && u != "" && !IsSpace(u[0])
    ensures !IsSpace((sign + u)[0])
  {
    if sign == "" { assert sign + u == u; }
  }

  lemma SignIs(t: string)
    ensures IsSign(SignOf(t)) && t == SignOf(t) + t[|SignOf(t)|..]
  {
    if SignOf(t) != "" { assert t[..1] == [t[0]]; }
  }

  lemma PrefixIs(u: string, base: nat)
    ensures IsPrefix(PrefixOf(u, base), base)
    ensures u == PrefixOf(u, base) + u[|PrefixOf(u, base)|..]
  {
    if PrefixOf(u, base) != "" { assert u[..2] == [u[0], u[1]]; }
  }

  /** And a scan that succeeds has read the text of a number. */
  lemma SplitNumber(s: string, base: nat) returns (n: Number)
    requires ScanNumber(s, base, LONG_LIMIT).Match? && (base == 10 || base == 16)
    ensures var r := ScanNumber(s, base, LONG_LIMIT); Means(n, base, r.value) && s == Text(n) + r.rest
  {
    hide NumberValue, Converted, Meaning, SignOf, PrefixOf, SkipSpace, DigitRun, Blank, IsSpace, AllDigits, Means, Text;
    var w := SplitBlank(s);
    var t := SkipSpace(s);
    var u := t[|SignOf(t)|..];
    var d := u[|PrefixOf(u, base)|..];
    n := Number(w, SignOf(t), PrefixOf(u, base), d[..DigitRun(d, base)]);
    SplitParts(s, w, t, u, d, n, base);
  }

  lemma SplitParts(s: string, w: string, t: string, u: string, d: string, n: Number, base: nat)
    requires s == w + t && u == t[|SignOf(t)|..] && d == u[|PrefixOf(u, base)|..] && (base == 10 || base == 16)
    requires Blank(w) && DigitRun(d, base) > 0
    requires n == Number(w, SignOf(t), PrefixOf(u, base), d[..DigitRun(d, base)])
    ensures Means(n, base, Converted(SignOf(t) == "-", NumberValue(n.digits, base), LONG_LIMIT))
    ensures s == Text(n) + d[DigitRun(d, base)..]
  {
    PrefixIs(u, base);
    RunSplits(d, base);
    MeaningOf(SignOf(t), NumberValue(n.digits, base));
    SignIs(t);
    PartsMean(n, base);
    Rejoined(w, SignOf(t), t, PrefixOf(u, base), u, d[..DigitRun(d, base)], d[DigitRun(d, base)..], d);
  }

  lemma PartsMean(n: Number, base: nat)
    requires Blank(n.blank) && IsSign(n.sign) && IsPrefix(n.prefix, base)
    requires n.digits != "" && AllDigits(n.digits, base)
    ensures Means(n, base, Meaning(n.sign, NumberValue(n.digits, base)))
  {
  }

  lemma RunSplits(d: string, base: nat)
    requires DigitRun(d, base) > 0
    ensures var k := DigitRun(d, base);
            d == d[..k] + d[k..] && d[..k] != "" && AllDigits(d[..k], base)
  {
    hide DigitRun, AllDigits;
    RunIsDigits(d, base);
  }

  lemma Rejoined(blank: string, sign: string, t: string, prefix: string, u: string, digits: string, rest: string,
                 d: string)
    requires t == sign + u && u == prefix + d && d == digits + rest
    ensures blank + t == blank + sign + prefix + digits + rest
  {
    Together(blank, sign, prefix, digits, rest);
  }

  lemma {:induction false} RunIsDigits(s: string, base: nat)
    ensures AllDigits(s[..DigitRun(s, base)], base)
  {
    if s != "" && DigitValue(s[0]) < base {
      RunIsDigits(s[1..], base);
      var n := DigitRun(s[1..], base);
      assert s[..n + 1] == [s[0]] + s[1..][..n];
    }
  }

  lemma ReadsWord(lead: string, w: string, max: nat, rest: string)
    requires Blank(lead) && Word(w, max, rest)
    ensures ScanWord(lead + w + rest, max) == Match(w, rest)
  {
    SpaceIsBlank(w[0]);
    assert lead + w + rest == lead + (w + rest);
    BlankSkips(lead, w + rest);
    WordIsRun(w, max, rest);
    assert (w + rest)[..|w|] == w && (w + rest)[|w|..] == rest;
  }

  lemma {:induction false} WordIsRun(w: string, max: nat, rest: string)
    requires |w| <= max && (forall i :: 0 <= i < |w| ==> !Blank([w[i]]))
    requires |w| == max || rest == "" || Blank([rest[0]])
    ensures WordRun(w + rest, max) == |w|
    decreases |w|
  {
    if w == "" {
      assert w + rest == rest;
      if rest != "" { SpaceIsBlank(rest[0]); }
    } else {
      SpaceIsBlank(w[0]);
      assert (w + rest)[1..] == w[1..] + rest;
      WordIsRun(w[1..], max - 1, rest);
    }
  }

  lemma SplitWord(s: string, max: nat) returns (lead: string)
    requires ScanWord(s, max).Match?
    ensures var r := ScanWord(s, max); Blank(lead) && Word(r.value, max, r.rest) && s == lead + r.value + r.rest
  {
    hide SkipSpace, WordRun, Blank, IsSpace, Word;
    lead := SplitBlank(s);
    var t := SkipSpace(s);
    var n := WordRun(t, max);
    RunMakesWord(t, max);
    assert t == t[..n] + t[n..];
    assert lead + (t[..n] + t[n..]) == lead + t[..n] + t[n..];
  }

  lemma RunMakesWord(t: string, max: nat)
    requires WordRun(t, max) > 0
    ensures Word(t[..WordRun(t, max)], max, t[WordRun(t, max)..])
  {
    hide WordRun, Blank;
    RunIsWord(t, max);
  }

  lemma {:induction false} RunIsWord(t: string, max: nat)
    ensures var n := WordRun(t, max);
            && (forall i :: 0 <= i < n ==> !Blank([t[i]]))
            && (n == max || n == |t| || Blank([t[n]]))
    decreases max
  {
    if t != "" {
      SpaceIsBlank(t[0]);
      if max > 0 && !IsSpace(t[0]) {
        RunIsWord(t[1..], max - 1);
        var n := WordRun(t[1..], max - 1);
        assert forall i :: 0 <= i < n ==> t[1..][i] == t[i + 1];
        assert n < |t[1..]| ==> t[1..][n] == t[n + 1];
        forall i | 0 <= i < n + 1
          ensures !Blank([t[i]])
        {
          if i > 0 { assert t[i] == t[1..][i - 1]; }
        }
      }
    }
  }

  // ---------------------------------------------------------------- whole lines

  lemma SkipBefore(s: string, max: nat)
    ensures ScanWord(SkipSpace(s), max) == ScanWord(s, max) && ScanHex(SkipSpace(s)) == ScanHex(s)
  {
    SkipTwice(s);
  }

  lemma ReadsTime(p: Parts, sec: nat, usec: nat, s: string)
    requires Means(p.sec, 10, sec) && Means(p.usec, 10, usec)
    ensures ScanTime(TimeText(p) + s) == Match((sec, usec), s)
  {
    hide ScanNumber, Text, Means, Literal;
    var s4 := ")" + s;
    var s3 := Text(p.usec) + s4;
    var s2 := "." + s3;
    var s1 := Text(p.sec) + s2;
    assert TimeText(p) + s == "(" + s1;
    LiteralReads('(', s1);
    ReadsNumber(p.sec, 10, sec, s2);
    LiteralReads('.', s3);
    ReadsNumber(p.usec, 10, usec, s4);
    LiteralReads(')', s);
  }

  lemma LiteralSplits(s: string, c: char)
    requires Literal(s, c).Match?
    ensures s == [c] + Literal(s, c).rest
  {
  }

  lemma SplitTime(line: string) returns (a: Number, b: Number)
    requires ScanTime(line).Match?
    ensures var r := ScanTime(line);
            && Means(a, 10, r.value.0) && Means(b, 10, r.value.1)
            && line == "(" + Text(a) + "." + Text(b) + ")" + r.rest
  {
    hide ScanNumber, Text, Means, Literal;
    LiteralSplits(line, '(');
    var s1 := Literal(line, '(').rest;
    a := SplitNumber(s1, 10);
    var s2 := ScanULong(s1).rest;
    LiteralSplits(s2, '.');
    var s3 := Literal(s2, '.').rest;
    b := SplitNumber(s3, 10);
    var s4 := ScanULong(s3).rest;
    LiteralSplits(s4, ')');
  }

  /** What follows the time. */
  function FrameText(p: Parts): string { p.gap + p.iface + Text(p.id) + "#" + p.lead + p.hex + p.rest }

  lemma ReadsFrame(p: Parts, id: nat)
    requires Means(p.id, 16, id) && Blank(p.gap) && Word(p.iface, 31, Text(p.id))
    requires Blank(p.lead) && Word(p.hex, 63, p.rest)
    ensures ScanFrame(FrameText(p)) == Match((id % 0x1_0000_0000, p.hex), p.rest)
  {
    var s4 := p.lead + p.hex + p.rest;
    var s2 := Text(p.id) + ("#" + s4);
    TextNotEmpty(p.id, 16, id);
    WordStill(p.iface, Text(p.id), s2);
    hide ScanNumber, ScanHex, Text, Means, Literal, ScanWord, SkipSpace, Blank, Word;
    FrameSplits(p);
    SkipBefore(p.gap + p.iface + s2, 31);
    ReadsWord(p.gap, p.iface, 31, s2);
    SkipBefore(s2, 31);
    ReadsHex(p.id, id, "#" + s4);
    LiteralReads('#', s4);
    ReadsWord(p.lead, p.hex, 63, p.rest);
  }

  lemma FrameSplits(p: Parts)
    ensures FrameText(p) == p.gap + p.iface + (Text(p.id) + ("#" + (p.lead + p.hex + p.rest)))
  {
    hide Text;
  }

  lemma ReadsHex(n: Number, id: nat, rest: string)
    requires Means(n, 16, id) && rest != "" && rest[0] == '#'
    ensures ScanHex(Text(n) + rest) == Match(id % 0x1_0000_0000, rest)
  {
    hide ScanNumber, Text, Means;
    ReadsNumber(n, 16, id, rest);
  }

  /** Of what follows a word only the first character matters. */
  lemma WordStill(w: string, rest: string, rest': string)
    requires Word(w, 31, rest) && rest != "" && rest' != "" && rest[0] == rest'[0]
    ensures Word(w, 31, rest')
  {
  }

  lemma TextNotEmpty(n: Number, base: nat, v: nat)
    requires Means(n, base, v)
    ensures Text(n) != ""
  {
  }

  lemma SplitFrame(s: string) returns (p: Parts, id: nat)
    requires ScanFrame(s).Match?
    ensures var r := ScanFrame(s);
            && Means(p.id, 16, id) && r.value.0 == id % 0x1_0000_0000 && r.value.1 == p.hex
            && Blank(p.gap) && Word(p.iface, 31, Text(p.id)) && Blank(p.lead) && Word(p.hex, 63, p.rest)
            && s == FrameText(p)
  {
    hide ScanNumber, Text, Means, Literal, ScanWord, SkipSpace, Blank;
    SkipBefore(s, 31);
    var gap := SplitWord(s, 31);
    var word := ScanWord(s, 31);
    SkipBefore(word.rest, 31);
    var n := SplitNumber(word.rest, 16);
    var num := ScanNumber(word.rest, 16, LONG_LIMIT);
    id := num.value;
    TextNotEmpty(n, 16, id);
    LiteralSplits(num.rest, '#');
    var s3 := Literal(num.rest, '#').rest;
    var lead := SplitWord(s3, 63);
    var hex := ScanWord(s3, 63);
    var none := Number("", "", "", "");
    p := Parts(none, none, gap, word.value, n, lead, hex.value, hex.rest);
    assert Text(n)[0] == word.rest[0];
  }

  /** The parser accepts exactly the lines of the grammar, and takes from them the time, the identifier - its low 32
      bits - and of the word the first eight pairs of characters as bytes. */
  lemma ParsesExactlyLines(line: string, stale: byte)
    ensures ParsedLine(line, stale).Some? <==>
            exists p: Parts, sec: nat, usec: nat, id: nat :: IsLine(line, p, sec, usec, id)
    ensures forall p: Parts, sec: nat, usec: nat, id: nat :: IsLine(line, p, sec, usec, id) ==>
              ParsedLine(line, stale) ==
              Some(Rec(sec as real + usec as real / 1000000.0, id % 0x1_0000_0000,
                       BytesOf(p.hex, if |p.hex| < 16 then |p.hex| / 2 else 8, stale)))
  {
    hide ScanTime, ScanFrame, Text, Means, Word, Blank, BytesOf;
    forall p: Parts, sec: nat, usec: nat, id: nat | IsLine(line, p, sec, usec, id)
      ensures ParsedLine(line, stale) ==
              Some(Rec(sec as real + usec as real / 1000000.0, id % 0x1_0000_0000,
                       BytesOf(p.hex, if |p.hex| < 16 then |p.hex| / 2 else 8, stale)))
    {
      assert line == TimeText(p) + FrameText(p);
      ReadsTime(p, sec, usec, FrameText(p));
      ReadsFrame(p, id);
    }
    if ParsedLine(line, stale).Some? {
      var a, b := SplitTime(line);
      var time := ScanTime(line);
      var p, id := SplitFrame(time.rest);
      var whole := p.(sec := a, usec := b);
      assert line == TimeText(whole) + FrameText(whole);
      assert IsLine(line, whole, time.value.0, time.value.1, id);
    }
  }
}
