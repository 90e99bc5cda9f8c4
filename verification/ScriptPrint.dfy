/**
 The capture tool's script printer (tools/analyze_capture.py, extract_scan), and
 the proof that the replay tool reads every operation back.
 */
module ScriptPrint {
  import opened Bytes
  import opened CText
  import opened Script

  // ---- printing -------------------------------------------------------------------

  function Decimal(n: nat): (s: string)
    ensures s != [] && (s[0] == '0' ==> n == 0)
    ensures forall k :: 0 <= k < |s| ==> '0' <= s[k] <= '9'
  {
    if n < 10 then [Digit(n)] else Decimal(n / 10) + [Digit(n % 10)]
  }

  function Hex4(w: uint16): string {
    HexText([w / 256, w % 256])
  }

  function PrintSetup(s: Setup): (t: string)
    ensures |t| == 21
  {
    " " + HexText([s.requestType]) + " " + HexText([s.request]) +
    " " + Hex4(s.value) + " " + Hex4(s.index) + " " + Hex4(s.length)
  }

  function PrintData(data: seq<byte>): string {
    if data == [] then "" else " " + HexText(data)
  }

  predicate Printable(op: Op) {
    op.Send? || op.Image? || op.Control?
  }

  /** One script line without its newline. */
  function PrintBody(op: Op): string
    requires Printable(op)
  {
    match op
    case Send(data) => "O " + HexText(data)
    case Image(n) => "M " + Decimal(n)
    case Control(setup, data) => "C" + PrintSetup(setup) + PrintData(data)
  }

  function Print(ops: seq<Op>): string
    requires forall k :: 0 <= k < |ops| ==> Printable(ops[k])
  {
    if ops == [] then "" else PrintBody(ops[0]) + "\n" + Print(ops[1..])
  }

  /** What the replay tool makes of a printed operation. */
  function ReadBack(op: Op): Op {
    match op
    case Send(data) => if |data| <= 510 then op else Bad
    case Image(n) => Image(Min(n, 65536))
    case Control(setup, data) => Control(setup, data[..Min(|data|, 500)])
    case _ => op
  }

  function ReadBackAll(ops: seq<Op>): seq<Op> {
    if ops == [] then [] else [ReadBack(ops[0])] + ReadBackAll(ops[1..])
  }

  // ---- cutting ----------------------------------------------------------------------

  predicate OneLine(s: string) {
    '\n' !in s && 0 as char !in s
  }

  /** A line that fits the buffer is one piece. */
  lemma ShortLine(line: string, rest: string)
    requires OneLine(line) && |line| < LINE_MAX
    ensures Pieces(line + "\n" + rest) == [line + "\n"] + Pieces(rest)
  {
    var text := line + "\n" + rest;
    assert text[..|line|] == line;
    LineEndIs(text, |line|);
    assert text[..|line| + 1] == line + "\n" && text[|line| + 1..] == rest;
  }

  /** A longer line loses its first 1023 characters to a piece of their own. */
  lemma LongLine(line: string, rest: string)
    requires OneLine(line) && |line| >= LINE_MAX
    ensures Pieces(line + "\n" + rest) == [line[..LINE_MAX]] + Pieces(line[LINE_MAX..] + "\n" + rest)
  {
    var text := line + "\n" + rest;
    assert text[..|line|] == line;
    LineEndIs(text, |line|);
    assert text[..LINE_MAX] == line[..LINE_MAX];
    assert text[LINE_MAX..] == line[LINE_MAX..] + "\n" + rest;
  }

  predicate LowerHex(s: string) {
    forall k :: 0 <= k < |s| ==> '0' <= s[k] <= '9' || 'a' <= s[k] <= 'f'
  }

  lemma HexPieceSkipped(s: string)
    requires LowerHex(s)
    ensures ParseLine(s).Skip? && ParseLine(s + "\n").Skip?
  {
    WordIs(s);
    WordIs(s + "\n");
  }

  /** A piece that starts with a visible character is looked at from there. */
  lemma WordIs(s: string)
    requires 0 as char !in s
    requires s != [] ==> s[0] != ' ' && s[0] != '\t'
    ensures Word(s) == s
  {
  }

  /** The overflow of a line of digits says nothing. */
  lemma {:induction false} OverflowSkipped(s: string, rest: string)
    requires LowerHex(s)
    ensures Ops(s + "\n" + rest) == Ops(rest)
    decreases |s|
  {
    if |s| < LINE_MAX {
      ShortLine(s, rest);
      HexPieceSkipped(s);
      assert OpsOf([s + "\n"] + Pieces(rest)) == OpsOf(Pieces(rest));
    } else {
      LongLine(s, rest);
      HexPieceSkipped(s[..LINE_MAX]);
      OverflowSkipped(s[LINE_MAX..], rest);
    }
  }

  // ---- reading what was printed -------------------------------------------------------

  lemma {:induction false} PayloadOf(s: string, tail: string)
    requires LowerHex(s) && (tail == "" || tail[0] == '\n')
    ensures Payload(s + tail) == s
  {
    if s == "" {
      assert s + tail == tail;
    } else {
      assert (s + tail)[1..] == s[1..] + tail;
      PayloadOf(s[1..], tail);
    }
  }

  lemma DataReads(data: seq<byte>, tail: string)
    requires |data| <= BUFFER && (tail == "" || tail[0] == '\n')
    ensures HexBytes(" " + HexText(data) + tail, BUFFER) == Some(data)
  {
    var t := HexText(data);
    HexTextBytes(data);
    SkipBlank(t, tail);
    PayloadOf(t, tail);
  }

  lemma HexTextBytes(data: seq<byte>)
    ensures BytesAt(HexText(data), 0) == data
  {
    var t := HexText(data);
    assert t[0..] == t;
    HexTextReads(t, 0, data);
  }

  lemma SkipBlank(t: string, tail: string)
    ensures Payload(" " + t + tail) == Payload(t + tail)
  {
    assert (" " + t + tail)[1..] == t + tail;
  }

  /** An odd number of digits is no byte string. */
  lemma OddRejected(s: string)
    requires LowerHex(s) && |s| % 2 == 1
    ensures HexBytes(" " + s, BUFFER) == None
  {
    PayloadOf(s, "");
    assert (" " + s)[1..] == s == s + "";
  }

  lemma {:induction false} HexTextPrefix(bs: seq<byte>, n: nat)
    requires n <= |bs|
    ensures HexText(bs)[..2 * n] == HexText(bs[..n])
    ensures LowerHex(HexText(bs)) && LowerHex(HexText(bs)[2 * n..])
  {
    LowerHexTail(bs, n);
    HexTextTake(bs, n);
  }

  lemma LowerHexTail(bs: seq<byte>, n: nat)
    requires n <= |bs|
    ensures LowerHex(HexText(bs)) && LowerHex(HexText(bs)[2 * n..])
  {
  }

  lemma {:induction false} HexTextTake(bs: seq<byte>, n: nat)
    requires n <= |bs|
    ensures HexText(bs)[..2 * n] == HexText(bs[..n])
  {
    if n > 0 {
      HexTextTake(bs[1..], n - 1);
      var first := [Digit(bs[0] / 16), Digit(bs[0] % 16)];
      var rest := HexText(bs[1..]);
      assert bs[..n][1..] == bs[1..][..n - 1] && bs[..n][0] == bs[0];
      assert HexText(bs) == first + rest;
      assert (first + rest)[..2 * n] == first + rest[..2 * (n - 1)];
    }
  }

  lemma ScanPair(b: byte, tail: string, acc: nat)
    ensures ScanDigits([Digit(b / 16), Digit(b % 16)] + tail, 16, acc) == ScanDigits(tail, 16, acc * 256 + b)
  {
    var s := [Digit(b / 16), Digit(b % 16)] + tail;
    assert s[1..] == [Digit(b % 16)] + tail && s[1..][1..] == tail;
  }

  predicate EndsField(tail: string) {
    tail != "" && (tail[0] == ' ' || tail[0] == '\n')
  }

  /** A field that starts with two digits is scanned from its first digit. */
  lemma ScanField(t: string, v: nat, tail: string)
    requires |t| >= 2 && IsHexDigit(t[0]) && IsHexDigit(t[1])
    requires ScanDigits(t, 16, 0) == Scanned(v, tail) && v < 0x1_0000
    ensures ScanHex(" " + t) == Some(Scanned(v, tail))
  {
    assert (" " + t)[1..] == t;
    assert SkipSpaces(t) == t && SkipSpaces(" " + t) == t;
    assert Nibble('x') == -1 && Nibble('X') == -1 && Nibble('-') == -1 && Nibble('+') == -1;
  }

  lemma ScanByte(b: byte, tail: string)
    requires EndsField(tail)
    ensures ScanHex(" " + HexText([b]) + tail) == Some(Scanned(b, tail))
  {
    var t := [Digit(b / 16), Digit(b % 16)] + tail;
    ScanPair(b, tail, 0);
    ScanField(t, b, tail);
    assert " " + HexText([b]) + tail == " " + t;
  }

  lemma Hex4Digits(w: uint16)
    ensures Hex4(w) == [Digit(w / 256 / 16), Digit(w / 256 % 16), Digit(w % 256 / 16), Digit(w % 256 % 16)]
  {
    var a: byte, b: byte := w / 256, w % 256;
    assert [a, b][1..] == [b] && [b][1..] == [];
    assert HexText([b]) == [Digit(b / 16), Digit(b % 16)] + HexText([]);
  }

  lemma ScanWord(w: uint16, tail: string)
    requires EndsField(tail)
    ensures ScanHex(" " + Hex4(w) + tail) == Some(Scanned(w, tail))
  {
    hide HexText, Hex4, ScanHex, ScanDigits;
    var a: byte, b: byte := w / 256, w % 256;
    var u := [Digit(b / 16), Digit(b % 16)] + tail;
    var t := [Digit(a / 16), Digit(a % 16)] + u;
    Hex4Digits(w);
    ScanPair(a, u, 0);
    ScanPair(b, tail, a as int);
    FieldEnds(tail, w);
    ScanField(t, w, tail);
    assert " " + Hex4(w) + tail == " " + t;
  }

  lemma FieldEnds(tail: string, v: nat)
    requires EndsField(tail)
    ensures ScanDigits(tail, 16, v) == Scanned(v, tail)
  {
  }

  lemma ScanSetupReads(s: Setup, rest: string)
    requires EndsField(rest)
    ensures ScanSetup(PrintSetup(s) + rest) == Some((s, rest))
  {
    hide ScanHex, HexText, Hex4;
    var e := " " + Hex4(s.length) + rest;
    var d := " " + Hex4(s.index) + e;
    var c := " " + Hex4(s.value) + d;
    var b := " " + HexText([s.request]) + c;
    var a := " " + HexText([s.requestType]) + b;
    assert PrintSetup(s) + rest == a;
    ScanByte(s.requestType, b);
    ScanByte(s.request, c);
    ScanWord(s.value, d);
    ScanWord(s.index, e);
    ScanWord(s.length, rest);
  }

  // ---- decimal numbers ------------------------------------------------------------------

  lemma {:induction false} ScanDecimal(n: nat, tail: string)
    ensures ScanDigits(Decimal(n) + tail, 10, 0) == ScanDigits(tail, 10, n)
  {
    var d := [Digit(n % 10)] + tail;
    OneDigit(n % 10, n / 10, tail);
    if n >= 10 {
      hide ScanDigits;
      ScanDecimal(n / 10, d);
      assert Decimal(n) + tail == Decimal(n / 10) + d;
    }
  }

  lemma OneDigit(v: nat, acc: nat, tail: string)
    requires v < 10
    ensures ScanDigits([Digit(v)] + tail, 10, acc) == ScanDigits(tail, 10, 10 * acc + v)
  {
    assert ([Digit(v)] + tail)[1..] == tail;
  }

  /** Text that starts with a digit other than 0 is read in base ten, text of a lone 0 in base eight. */
  lemma NumberReads(t: string, n: nat, tail: string)
    requires t != "" && '0' <= t[0] <= '9' && !HexPrefixed(t)
    requires if t[0] == '0' then n == 0 && ScanDigits(t, 8, 0) == Scanned(0, tail) else ScanDigits(t, 10, 0) == Scanned(n, tail)
    ensures Min(StrToUL(" " + t), BUFFER) == Min(n, BUFFER)
  {
    hide ScanDigits;
    assert (" " + t)[1..] == t;
    assert SkipSpaces(t) == t && SkipSpaces(" " + t) == t;
  }

  lemma ImageReads(n: nat, tail: string)
    requires EndsField(tail)
    ensures Min(StrToUL(" " + Decimal(n) + tail), BUFFER) == Min(n, BUFFER)
  {
    hide StrToUL;
    var t := Decimal(n) + tail;
    assert " " + Decimal(n) + tail == " " + t;
    if n == 0 {
      assert t[1..] == tail;
    } else {
      ScanDecimal(n, tail);
    }
    NumberReads(t, n, tail);
  }

  function Pow10(k: nat): nat {
    if k == 0 then 1 else 10 * Pow10(k - 1)
  }

  lemma {:induction false} DecimalLength(n: nat, k: nat)
    requires k > 0 && n < Pow10(k)
    ensures |Decimal(n)| <= k
  {
    if n >= 10 {
      DecimalLength(n / 10, k - 1);
    }
  }

  // ---- each printed line reads as one operation -----------------------------------------

  lemma OpsOfCons(piece: string, rest: seq<string>)
    ensures OpsOf([piece] + rest) == (if ParseLine(piece).Skip? then [] else [ParseLine(piece)]) + OpsOf(rest)
  {
  }

  lemma SendReads(data: seq<byte>, rest: string)
    requires |data| <= 510
    ensures Ops(PrintBody(Send(data)) + "\n" + rest) == [Send(data)] + Ops(rest)
  {
    hide HexBytes, Pieces, OpsOf, Word, HexText;
    var t := HexText(data);
    var line := "O " + t;
    HexTextPrefix(data, 0);
    ShortLine(line, rest);
    WordIs(line + "\n");
    assert (line + "\n")[1..] == " " + t + "\n";
    DataReads(data, "\n");
    OpsOfCons(line + "\n", Pieces(rest));
  }

  /** The 1023 characters of an over-long O line hold an odd number of digits. */
  lemma LongSendRejected(data: seq<byte>, rest: string)
    requires |data| > 510
    ensures Ops(PrintBody(Send(data)) + "\n" + rest) == [Bad] + Ops(rest)
  {
    hide HexBytes, Pieces, OpsOf, Word, HexText;
    var t := HexText(data);
    var line := "O " + t;
    HexTextPrefix(data, 0);
    var cut, over := line[..LINE_MAX], line[LINE_MAX..];
    LongLine(line, rest);
    WordIs(cut);
    assert cut[1..] == " " + t[..LINE_MAX - 2];
    OddRejected(t[..LINE_MAX - 2]);
    OpsOfCons(cut, Pieces(over + "\n" + rest));
    assert over == t[LINE_MAX - 2..];
    OverflowSkipped(over, rest);
  }

  lemma ImageOpReads(n: nat, rest: string)
    requires n < 0x1_0000_0000
    ensures Ops(PrintBody(Image(n)) + "\n" + rest) == [Image(Min(n, BUFFER))] + Ops(rest)
  {
    hide StrToUL, Pieces, OpsOf, Word, Decimal;
    var line := "M " + Decimal(n);
    DecimalLength(n, 10);
    ShortLine(line, rest);
    WordIs(line + "\n");
    assert (line + "\n")[1..] == " " + Decimal(n) + "\n";
    ImageReads(n, "\n");
    OpsOfCons(line + "\n", Pieces(rest));
  }

  /** A C line whose fields are followed by `rest`. */
  lemma ControlLine(setup: Setup, rest: string, data: seq<byte>)
    requires EndsField(rest) && 0 as char !in rest && HexBytes(rest, BUFFER) == Some(data)
    ensures ParseLine("C" + PrintSetup(setup) + rest) == Control(setup, data)
  {
    hide HexBytes, ScanSetup, Word, HexText, PrintSetup;
    var s := "C" + PrintSetup(setup) + rest;
    assert s[1..] == PrintSetup(setup) + rest;
    SetupVisible(setup);
    WordIs(s);
    ScanSetupReads(setup, rest);
  }

  lemma ControlPiece(setup: Setup, data: seq<byte>, tail: string)
    requires |data| <= BUFFER && (tail == "" || tail == "\n") && (data == [] ==> tail != "")
    ensures ParseLine("C" + PrintSetup(setup) + PrintData(data) + tail) == Control(setup, data)
  {
    hide HexBytes, HexText, PrintSetup, ParseLine;
    var rest := PrintData(data) + tail;
    HexTextPrefix(data, 0);
    if data == [] {
      NoData();
      assert rest == "\n";
    } else {
      DataReads(data, tail);
      assert rest == " " + HexText(data) + tail;
    }
    ControlLine(setup, rest, data);
    assert "C" + PrintSetup(setup) + PrintData(data) + tail == "C" + PrintSetup(setup) + rest;
  }

  lemma NoData()
    ensures HexBytes("\n", BUFFER) == Some([])
  {
  }

  lemma SetupVisible(setup: Setup)
    ensures OneLine(PrintSetup(setup))
  {
  }

  lemma ShortControlReads(setup: Setup, data: seq<byte>, rest: string)
    requires |data| < 500
    ensures Ops(PrintBody(Control(setup, data)) + "\n" + rest) == [Control(setup, data)] + Ops(rest)
  {
    hide ParseLine, Pieces, OpsOf, Word, HexText, PrintSetup;
    var line := "C" + PrintSetup(setup) + PrintData(data);
    HexTextPrefix(data, 0);
    SetupVisible(setup);
    ShortLine(line, rest);
    ControlPiece(setup, data, "\n");
    OpsOfCons(line + "\n", Pieces(rest));
  }

  lemma LongControlReads(setup: Setup, data: seq<byte>, rest: string)
    requires |data| >= 500
    ensures Ops(PrintBody(Control(setup, data)) + "\n" + rest) == [Control(setup, data[..500])] + Ops(rest)
  {
    hide ParseLine, Pieces, OpsOf, Word, HexText, PrintSetup;
    var line := "C" + PrintSetup(setup) + PrintData(data);
    var cut, over := "C" + PrintSetup(setup) + PrintData(data[..500]) + "", HexText(data)[1000..];
    HexTextPrefix(data, 500);
    SetupVisible(setup);
    CutControl(setup, data);
    hide PrintData;
    LongLine(line, rest);
    ControlPiece(setup, data[..500], "");
    OpsOfCons(cut, Pieces(over + "\n" + rest));
    OverflowSkipped(over, rest);
  }

  /** Where a C line of more than 500 bytes is cut. */
  lemma CutControl(setup: Setup, data: seq<byte>)
    requires |data| >= 500
    ensures var line := "C" + PrintSetup(setup) + PrintData(data);
            |line| >= LINE_MAX && OneLine(line) &&
            line[..LINE_MAX] == "C" + PrintSetup(setup) + PrintData(data[..500]) + "" &&
            line[LINE_MAX..] == HexText(data)[1000..]
  {
    hide HexText, PrintSetup;
    HexTextPrefix(data, 500);
    SetupVisible(setup);
    var front, text := "C" + PrintSetup(setup) + " ", HexText(data);
    assert "C" + PrintSetup(setup) + PrintData(data) == front + text;
    assert |front| == 23;
    assert (front + text)[..LINE_MAX] == front + text[..1000];
    assert (front + text)[LINE_MAX..] == text[1000..];
  }

  lemma ControlReads(setup: Setup, data: seq<byte>, rest: string)
    ensures Ops(PrintBody(Control(setup, data)) + "\n" + rest)
            == [Control(setup, data[..Min(|data|, 500)])] + Ops(rest)
  {
    hide Ops, PrintBody;
    if |data| < 500 {
      ShortControlReads(setup, data, rest);
      assert data[..|data|] == data;
    } else {
      LongControlReads(setup, data, rest);
    }
  }

  // ---- the round trip ---------------------------------------------------------------------

  predicate PrintableAll(ops: seq<Op>) {
    forall k :: 0 <= k < |ops| ==> Printable(ops[k]) && (ops[k].Image? ==> ops[k].want < 0x1_0000_0000)
  }

  lemma LineReads(op: Op, rest: string)
    requires Printable(op) && (op.Image? ==> op.want < 0x1_0000_0000)
    ensures Ops(PrintBody(op) + "\n" + rest) == [ReadBack(op)] + Ops(rest)
  {
    match op
    case Send(data) =>
      if |data| <= 510 {
        SendReads(data, rest);
      } else {
        LongSendRejected(data, rest);
      }
    case Image(n) => ImageOpReads(n, rest);
    case Control(setup, data) => ControlReads(setup, data, rest);
  }

  /** Whatever is printed, this is exactly what the replay tool reads. */
  lemma {:induction false} PrintThenRead(ops: seq<Op>)
    requires PrintableAll(ops)
    ensures Ops(Print(ops)) == ReadBackAll(ops)
  {
    hide Ops;
    if ops == [] {
      NoOps();
    } else {
      var rest := Print(ops[1..]);
      LineReads(ops[0], rest);
      PrintThenRead(ops[1..]);
    }
  }

  lemma NoOps()
    ensures Ops("") == []
  {
  }

  /** The limits of the line and image buffers. */
  predicate FitsBuffers(op: Op) {
    match op
    case Send(data) => |data| <= 510
    case Image(n) => n <= 65536
    case Control(_, data) => |data| <= 500
    case _ => true
  }

  /** A script reads back as the operations printed iff each of them fits the buffers. */
  lemma {:induction false} RoundTripIff(ops: seq<Op>)
    requires PrintableAll(ops)
    ensures Ops(Print(ops)) == ops <==> forall k :: 0 <= k < |ops| ==> FitsBuffers(ops[k])
  {
    PrintThenRead(ops);
    ReadBackIff(ops);
  }

  lemma {:induction false} ReadBackIff(ops: seq<Op>)
    requires PrintableAll(ops)
    ensures ReadBackAll(ops) == ops <==> forall k :: 0 <= k < |ops| ==> FitsBuffers(ops[k])
  {
    if ops != [] {
      assert ReadBack(ops[0]) == ops[0] <==> FitsBuffers(ops[0]);
      ReadBackIff(ops[1..]);
      assert ops == [ops[0]] + ops[1..];
      assert ReadBackAll(ops)[0] == ReadBack(ops[0]) && ReadBackAll(ops)[1..] == ReadBackAll(ops[1..]);
      assert forall k :: 0 < k < |ops| ==> ops[k] == ops[1..][k - 1];
    }
  }
}
