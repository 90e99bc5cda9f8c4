/**
 Numbers in script lines: what `strtoul` with base 0 makes of decimal, octal and
 hexadecimal text, and which characters a line's data may hold (tools/pakon_replay.c).
 */
module ScriptNumbers {
  import opened Bytes
  import opened CText
  import opened Script
  import opened ScriptPrint

  predicate Base(radix: nat) {
    radix == 8 || radix == 10 || radix == 16
  }

  /** All digits but the last, as a number, and the last one. */
  function Front(v: nat, radix: nat): (q: nat)
    requires Base(radix)
    ensures q * radix <= v < q * radix + radix && (v > 0 ==> q < v)
  {
    if radix == 8 then v / 8 else if radix == 10 then v / 10 else v / 16
  }

  function Last(v: nat, radix: nat): (r: nat)
    requires Base(radix)
    ensures r < radix && v == Front(v, radix) * radix + r
  {
    v - Front(v, radix) * radix
  }

  /** `v` written in base 8, 10 or 16. */
  function Numeral(v: nat, radix: nat): (s: string)
    requires Base(radix)
    ensures s != [] && (v > 0 ==> s[0] != '0')
    ensures forall k :: 0 <= k < |s| ==> 0 <= Nibble(s[k]) < radix
  {
    if v < radix then [Digit(v)] else Numeral(Front(v, radix), radix) + [Digit(Last(v, radix))]
  }

  /** The text goes on with something that is no digit of the base. */
  predicate Ends(tail: string, radix: nat) {
    tail == "" || !(0 <= Nibble(tail[0]) < radix)
  }

  lemma {:induction false} ScanNumeral(v: nat, radix: nat, tail: string)
    requires Base(radix)
    ensures ScanDigits(Numeral(v, radix) + tail, radix, 0) == ScanDigits(tail, radix, v)
  {
    if v < radix {
      DigitRead(v, radix, 0, tail);
    } else {
      var q, r := Front(v, radix), Last(v, radix);
      var d := [Digit(r)] + tail;
      NumeralAppend(v, radix, tail);
      hide ScanDigits, Numeral;
      DigitRead(r, radix, q, tail);
      ScanNumeral(q, radix, d);
    }
  }

  lemma NumeralAppend(v: nat, radix: nat, tail: string)
    requires Base(radix) && v >= radix
    ensures Numeral(v, radix) + tail == Numeral(Front(v, radix), radix) + ([Digit(Last(v, radix))] + tail)
  {
  }

  lemma DigitRead(v: nat, radix: nat, acc: nat, tail: string)
    requires v < radix <= 16
    ensures ScanDigits([Digit(v)] + tail, radix, acc) == ScanDigits(tail, radix, acc * radix + v)
  {
    assert ([Digit(v)] + tail)[1..] == tail;
  }

  lemma ScanWhole(v: nat, radix: nat, tail: string)
    requires Base(radix) && Ends(tail, radix)
    ensures ScanDigits(Numeral(v, radix) + tail, radix, 0) == Scanned(v, tail)
  {
    hide Numeral;
    ScanNumeral(v, radix, tail);
  }

  /** Decimal text is its value, up to the largest unsigned long. */
  lemma DecimalText(v: nat, tail: string)
    requires v > 0 && Ends(tail, 10)
    ensures StrToUL(Numeral(v, 10) + tail) == if v < 0x1_0000_0000_0000_0000 then v else 0xFFFF_FFFF_FFFF_FFFF
  {
    hide Numeral, ScanDigits;
    var t := Numeral(v, 10) + tail;
    ScanWhole(v, 10, tail);
    DigitFirst(t[0]);
  }

  /** With `0x` in front it is hexadecimal. */
  lemma HexText0x(v: nat, tail: string)
    requires Ends(tail, 16)
    ensures StrToUL("0x" + Numeral(v, 16) + tail) == if v < 0x1_0000_0000_0000_0000 then v else 0xFFFF_FFFF_FFFF_FFFF
  {
    hide Numeral, ScanDigits;
    var t := "0x" + Numeral(v, 16) + tail;
    assert t[2..] == Numeral(v, 16) + tail && t[0] == '0' && t[1] == 'x' && t[2] == Numeral(v, 16)[0];
    ScanWhole(v, 16, tail);
  }

  /** With a mere `0` in front it is octal. */
  lemma OctalText(v: nat, tail: string)
    requires Ends(tail, 8)
    ensures StrToUL("0" + Numeral(v, 8) + tail) == if v < 0x1_0000_0000_0000_0000 then v else 0xFFFF_FFFF_FFFF_FFFF
  {
    hide Numeral, ScanDigits;
    var n := Numeral(v, 8) + tail;
    var t := "0" + Numeral(v, 8) + tail;
    assert t == "0" + n && t[1..] == n && t[1] == Numeral(v, 8)[0] && t[0] == '0';
    ScanWhole(v, 8, tail);
    ZeroFirst(n);
    NotX(t[1]);
  }

  /** A field of a control line is hexadecimal, with or without `0x`, and keeps its low 32 bits. */
  lemma HexField(v: nat, tail: string)
    requires v < 0x1_0000_0000_0000_0000 && (tail == "" || tail[0] == ' ')
    ensures ScanHex(" " + (Numeral(v, 16) + tail)) == Some(Scanned(v % 0x1_0000_0000, tail))
    ensures ScanHex(" " + ("0x" + Numeral(v, 16) + tail)) == Some(Scanned(v % 0x1_0000_0000, tail))
  {
    hide Numeral, ScanDigits, ScanHex;
    var n := Numeral(v, 16) + tail;
    ScanWhole(v, 16, tail);
    NumeralStarts(v, tail);
    PlainField(n, v, tail);
    assert "0x" + Numeral(v, 16) + tail == "0x" + n;
    PrefixedField(n, v, tail);
  }

  lemma PlainField(n: string, v: nat, tail: string)
    requires v < 0x1_0000_0000_0000_0000 && ScanDigits(n, 16, 0) == Scanned(v, tail)
    requires n != "" && !IsSpace(n[0]) && !Signed(n) && IsHexDigit(n[0]) && !HexPrefixed(n)
    ensures ScanHex(" " + n) == Some(Scanned(v % 0x1_0000_0000, tail))
  {
    hide ScanDigits;
    assert (" " + n)[1..] == n && SkipSpaces(n) == n;
    assert SkipSpaces(" " + n) == n;
  }

  lemma PrefixedField(n: string, v: nat, tail: string)
    requires v < 0x1_0000_0000_0000_0000 && ScanDigits(n, 16, 0) == Scanned(v, tail)
    requires n != "" && IsHexDigit(n[0])
    ensures ScanHex(" " + ("0x" + n)) == Some(Scanned(v % 0x1_0000_0000, tail))
  {
    hide ScanDigits;
    var t := "0x" + n;
    assert (" " + t)[1..] == t && t[2..] == n && SkipSpaces(t) == t;
    assert SkipSpaces(" " + t) == t;
  }

  lemma NumeralStarts(v: nat, tail: string)
    requires tail == "" || tail[0] == ' '
    ensures var n := Numeral(v, 16) + tail;
            n != "" && !IsSpace(n[0]) && !Signed(n) && IsHexDigit(n[0]) && !HexPrefixed(n)
  {
    var s := Numeral(v, 16);
    var n := s + tail;
    assert n[0] == s[0] && 0 <= Nibble(s[0]);
    if |s| >= 2 {
      assert n[1] == s[1] && 0 <= Nibble(s[1]);
    }
  }

  lemma ZeroFirst(n: string)
    ensures ScanDigits("0" + n, 8, 0) == ScanDigits(n, 8, 0)
  {
    assert ("0" + n)[1..] == n;
  }

  lemma DigitFirst(c: char)
    requires 0 <= Nibble(c) < 10
    ensures !IsSpace(c) && c != '+' && c != '-'
  {
  }

  lemma NotX(c: char)
    requires 0 <= Nibble(c) < 8
    ensures c != 'x' && c != 'X'
  {
  }

  /** Leading white space does not matter, and a minus sign gives the complement in 64 bits. */
  lemma SpaceAndSign(t: string, v: nat)
    requires t != "" && 0 <= Nibble(t[0]) && StrToUL(t) == v
    requires v < 0xFFFF_FFFF_FFFF_FFFF
    ensures StrToUL(" " + t) == v && StrToUL("\t" + t) == v && StrToUL("+" + t) == v
    ensures StrToUL("-" + t) == if v == 0 then 0 else 0x1_0000_0000_0000_0000 - v
  {
    hide ScanDigits;
    assert (" " + t)[1..] == t && ("\t" + t)[1..] == t && ("+" + t)[1..] == t && ("-" + t)[1..] == t;
    assert !IsSpace(t[0]) && SkipSpaces(t) == t;
    assert SkipSpaces(" " + t) == t && SkipSpaces("\t" + t) == t;
    assert SkipSpaces("+" + t) == "+" + t && SkipSpaces("-" + t) == "-" + t;
  }

  // ---- data ---------------------------------------------------------------------------------

  lemma {:induction false} PayloadConcat(a: string, b: string)
    requires '\n' !in a && '\r' !in a
    ensures Payload(a + b) == Payload(a) + Payload(b)
  {
    if a == "" {
      assert a + b == b;
    } else {
      assert (a + b)[1..] == a[1..] + b;
      PayloadConcat(a[1..], b);
    }
  }

  /** Blanks between the digits do not matter, and the data ends with the line, by line feed or carriage return. */
  lemma DataEndsWithLine(a: string, b: string, max: nat)
    requires '\n' !in a && '\r' !in a
    ensures HexBytes(a + " " + b, max) == HexBytes(a + b, max)
    ensures HexBytes(a + "\n" + b, max) == HexBytes(a, max) && HexBytes(a + "\r" + b, max) == HexBytes(a, max)
  {
    hide Payload, BytesAt;
    assert a + " " + b == a + (" " + b) && a + "\n" + b == a + ("\n" + b) && a + "\r" + b == a + ("\r" + b);
    PayloadConcat(a, b);
    PayloadConcat(a, " " + b);
    PayloadConcat(a, "\n" + b);
    PayloadConcat(a, "\r" + b);
    Blank(b);
    assert a + "" == a && Payload(a) + [] == Payload(a);
  }

  lemma Blank(b: string)
    ensures Payload(" " + b) == Payload(b) && Payload("\n" + b) == [] && Payload("\r" + b) == []
  {
    assert (" " + b)[1..] == b;
  }

  /** Blanks and tabs in front of a line do not matter. */
  lemma LeadingBlanks(line: string)
    ensures ParseLine(" " + line) == ParseLine("\t" + line) == ParseLine(line)
  {
    WordBehind(' ', line);
    WordBehind('\t', line);
    hide Word;
    SameWord(" " + line, line);
    SameWord("\t" + line, line);
  }

  lemma WordBehind(b: char, line: string)
    requires b == ' ' || b == '\t'
    ensures Word([b] + line) == Word(line)
  {
    var s := [b] + line;
    assert s[1..] == line && CString(s) == [b] + CString(line);
    hide CString;
    assert ([b] + CString(line))[1..] == CString(line);
  }

  lemma SameWord(s: string, t: string)
    requires Word(s) == Word(t)
    ensures ParseLine(s) == ParseLine(t)
  {
    hide Word, HexBytes, ScanSetup, StrToUL;
  }

  /** Lines that do not begin with O, M or C, after blanks and tabs, say nothing. */
  lemma OtherLinesSilent(line: string)
    requires Word(line) == "" || Word(line)[0] !in {'O', 'M', 'C'}
    ensures ParseLine(line) == Skip
  {
  }

  // ---- printed lines ----------------------------------------------------------------------------

  lemma DecimalDigits()
    ensures Decimal(20480) == "20480"
  {
    assert Decimal(2) == "2" && Decimal(20) == "20" && Decimal(204) == "204" && Decimal(2048) == "2048";
  }

  lemma CommandDigits()
    ensures HexText([0x03, 0x1f]) == "031f"
  {
    FourDigits(0x03, 0x1f);
  }

  /** Lines letter by letter: an image read and a command. */
  lemma PrintedLines()
    ensures PrintBody(Image(20480)) == "M 20480" && PrintBody(Send([0x03, 0x1f])) == "O 031f"
  {
    hide HexText, Decimal;
    DecimalDigits();
    CommandDigits();
  }

  /** Where the fields of a control transfer stand in its line behind the C, words with their high byte first. */
  lemma PrintedFields(s: Setup)
    ensures var t := PrintSetup(s);
            t[0] == t[3] == t[6] == t[11] == t[16] == ' ' &&
            t[1..3] == HexText([s.requestType]) && t[4..6] == HexText([s.request]) &&
            t[7..11] == HexText([s.value / 256, s.value % 256]) && t[12..16] == HexText([s.index / 256, s.index % 256]) &&
            t[17..21] == HexText([s.length / 256, s.length % 256])
    ensures PrintBody(Control(s, [])) == "C" + PrintSetup(s)
  {
    hide HexText;
    assert "C" + PrintSetup(s) + "" == "C" + PrintSetup(s);
    var a, b, c, d, e := HexText([s.requestType]), HexText([s.request]), Hex4(s.value), Hex4(s.index), Hex4(s.length);
    hide Hex4, PrintBody;
    Fields(a, b, c, d, e);
  }

  lemma Fields(a: string, b: string, c: string, d: string, e: string)
    requires |a| == |b| == 2 && |c| == |d| == |e| == 4
    ensures var t := " " + a + " " + b + " " + c + " " + d + " " + e;
            |t| == 21 && t[0] == t[3] == t[6] == t[11] == t[16] == ' ' &&
            t[1..3] == a && t[4..6] == b && t[7..11] == c && t[12..16] == d && t[17..21] == e
  {
  }

  lemma TwoDigits(b: byte)
    ensures HexText([b]) == [Digit(b / 16), Digit(b % 16)]
  {
    assert [b][1..] == [] && HexText([]) == "";
  }

  lemma FourDigits(hi: byte, lo: byte)
    ensures HexText([hi, lo]) == [Digit(hi / 16), Digit(hi % 16), Digit(lo / 16), Digit(lo % 16)]
  {
    assert [hi, lo][1..] == [lo];
    TwoDigits(lo);
  }
}
