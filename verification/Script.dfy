/**
 The `.pakscan` operation script: how the replay tool reads a line
 (tools/pakon_replay.c) and how the capture tool prints one
 (tools/analyze_capture.py, extract_scan).
 */
module Script {
  import opened Bytes
  import opened CText

  const LINE_MAX := 1023     // characters fgets stores of a 1024-byte line buffer
  const BUFFER := 65536

  datatype Setup = Setup(requestType: byte, request: byte, value: uint16, index: uint16, length: uint16)

  /** One line of a script: a command frame, an image read, a control transfer, or nothing. */
  datatype Op = Send(data: seq<byte>) | Image(want: nat) | Control(setup: Setup, data: seq<byte>) | Skip | Bad

  // ---- library scanning -------------------------------------------------------

  function SkipSpaces(s: string): (t: string)
    ensures |t| <= |s|
  {
    if s != [] && IsSpace(s[0]) then SkipSpaces(s[1..]) else s
  }

  datatype Scanned = Scanned(value: nat, rest: string)

  function ScanDigits(s: string, radix: nat, acc: nat): Scanned {
    if s != [] && 0 <= Nibble(s[0]) < radix
    then ScanDigits(s[1..], radix, acc * radix + Nibble(s[0]))
    else Scanned(acc, s)
  }

  predicate HexPrefixed(s: string) {
    |s| > 2 && s[0] == '0' && (s[1] == 'x' || s[1] == 'X') && IsHexDigit(s[2])
  }

  predicate Signed(s: string) {
    s != [] && (s[0] == '+' || s[0] == '-')
  }

  const ULONG := 0x1_0000_0000_0000_0000

  /** Saturation and sign of a 64-bit `strtoul`. */
  function ToUnsignedLong(v: nat, negative: bool): nat {
    if v >= ULONG then ULONG - 1 else if negative then (ULONG - v) % ULONG else v
  }

  /** `strtoul(s, NULL, 0)`. */
  function StrToUL(s: string): nat {
    var t := SkipSpaces(s);
    var u := if Signed(t) then t[1..] else t;
    var v := if HexPrefixed(u) then ScanDigits(u[2..], 16, 0).value
             else if u != [] && u[0] == '0' then ScanDigits(u, 8, 0).value
             else ScanDigits(u, 10, 0).value;
    ToUnsignedLong(v, Signed(t) && t[0] == '-')
  }

  /** One `%x` conversion of `sscanf`: a 32-bit value and the remaining text. */
  function ScanHex(s: string): Option<Scanned> {
    var t := SkipSpaces(s);
    var u := if Signed(t) then t[1..] else t;
    if u == [] || !IsHexDigit(u[0]) then None
    else
      var r := ScanDigits(if HexPrefixed(u) then u[2..] else u, 16, 0);
      Some(Scanned(ToUnsignedLong(r.value, Signed(t) && t[0] == '-') % 0x1_0000_0000, r.rest))
  }

  // ---- reading a line -----------------------------------------------------------

  /** The characters `hexbytes` looks at: up to the end of line, blanks dropped. */
  function Payload(s: string): string {
    if s == [] || s[0] == '\n' || s[0] == '\r' then []
    else if s[0] == ' ' then Payload(s[1..])
    else [s[0]] + Payload(s[1..])
  }

  /** The payload as bytes, if it is all digit pairs and at most `max` of them. */
  function HexBytes(s: string, max: nat): Option<seq<byte>> {
    var t := Payload(s);
    var bs := BytesAt(t, 0);
    if 2 * |bs| == |t| && |bs| <= max then Some(bs) else None
  }

  /** The five `%x` fields of a C line, narrowed to the width the control call takes. */
  function ScanSetup(s: string): Option<(Setup, string)> {
    match ScanHex(s)
    case None => None
    case Some(a) =>
    match ScanHex(a.rest)
    case None => None
    case Some(b) =>
    match ScanHex(b.rest)
    case None => None
    case Some(c) =>
    match ScanHex(c.rest)
    case None => None
    case Some(d) =>
    match ScanHex(d.rest)
    case None => None
    case Some(e) =>
      Some((Setup(a.value % 0x100, b.value % 0x100, c.value % 0x1_0000, d.value % 0x1_0000, e.value % 0x1_0000), e.rest))
  }

  function SkipBlanks(s: string): (t: string)
    ensures |t| <= |s|
  {
    if s != [] && (s[0] == ' ' || s[0] == '\t') then SkipBlanks(s[1..]) else s
  }

  /** A line as the tool looks at it: a C string from its first non-blank. */
  function Word(line: string): string {
    SkipBlanks(CString(line))
  }

  function ParseLine(line: string): Op {
    var p := Word(line);
    if p == [] || p[0] == '#' || p[0] == '\n' then Skip
    else if p[0] == 'O' then
      match HexBytes(p[1..], BUFFER) case None => Bad case Some(bs) => Send(bs)
    else if p[0] == 'M' then Image(Min(StrToUL(p[1..]), BUFFER))
    else if p[0] == 'C' then
      match ScanSetup(p[1..])
      case None => Bad
      case Some((setup, rest)) =>
        Control(setup, match HexBytes(rest, BUFFER) case None => [] case Some(bs) => bs)
    else Skip
  }

  // ---- reading a file -------------------------------------------------------------

  function PieceLength(text: string): (n: nat)
    requires text != []
    ensures 0 < n <= |text|
  {
    Min(Min(LineEnd(text) + 1, |text|), LINE_MAX)
  }

  /** What successive `fgets` calls on a 1024-byte buffer deliver. */
  function Pieces(text: string): seq<string> {
    if text == [] then [] else [text[..PieceLength(text)]] + Pieces(text[PieceLength(text)..])
  }

  /** The operations in the pieces, lines that say nothing left out. */
  function OpsOf(pieces: seq<string>): (ops: seq<Op>)
    ensures Skip !in ops
  {
    if pieces == [] then []
    else
      var op := ParseLine(pieces[0]);
      (if op.Skip? then [] else [op]) + OpsOf(pieces[1..])
  }

  function Ops(text: string): seq<Op> {
    OpsOf(Pieces(text))
  }

  /** `hexbytes`: fill `out` from the front; -1 on anything but digit pairs. */
  method HexBytesInto(s: string, out: array<byte>) returns (n: int)
    modifies out
    ensures n >= 0 <==> HexBytes(s, out.Length).Some?
    ensures n >= 0 ==> n <= out.Length && HexBytes(s, out.Length) == Some(out[..n])
    ensures n >= 0 ==> forall k :: n <= k < out.Length ==> out[k] == old(out[k])
  {
    var i, hi := 0, -1;
    n := 0;
    ghost var bs: seq<byte> := [];
    NothingRead(s);
    hide Reading, HexBytes, Nibble, PairOf;
    while i < |s| && s[i] != '\n' && s[i] != '\r'
      invariant i <= |s| && n == |bs| <= out.Length && -1 <= hi < 16
      invariant Reading(s, i, bs, hi)
      invariant out[..n] == bs
      invariant forall k :: n <= k < out.Length ==> out[k] == old(out[k])
    {
      NextCharacter(s, i, bs, hi, out.Length);
      var c := s[i];
      i := i + 1;
      if c == ' ' { continue; }
      var v := Nibble(c);
      if v < 0 { return -1; }
      if hi < 0 {
        hi := v;
      } else {
        if n >= out.Length { return -1; }
        var b := PairOf(hi, v);
        out[n] := b;
        bs := bs + [b];
        n := n + 1;
        hi := -1;
      }
    }
    AllRead(s, i, bs, hi, out.Length);
    if hi >= 0 { return -1; }
  }

  /** The byte of two digits. */
  function PairOf(hi: int, lo: int): byte
    requires 0 <= hi < 16 && 0 <= lo < 16
  {
    16 * hi + lo
  }

  /** At position `i` the pairs read so far are `bs`, and the digit `hi`, if any, waits for its second half. */
  ghost predicate Reading(s: string, i: nat, bs: seq<byte>, hi: int) {
    var t, p := Payload(s), 2 * |bs|;
    i <= |s| && p <= |t| && ReadUpTo(t, bs, p) &&
    if hi < 0 then t[p..] == Payload(s[i..])
    else p < |t| && Nibble(t[p]) == hi && t[p + 1..] == Payload(s[i..])
  }

  lemma NothingRead(s: string)
    ensures Reading(s, 0, [], -1)
  {
    var t := Payload(s);
    assert s[0..] == s && t[0..] == t;
  }

  /** What one character before the end of the line does. */
  lemma NextCharacter(s: string, i: nat, bs: seq<byte>, hi: int, max: nat)
    requires Reading(s, i, bs, hi) && i < |s| && s[i] != '\n' && s[i] != '\r' && -1 <= hi < 16
    ensures var v := Nibble(s[i]);
            if s[i] == ' ' then Reading(s, i + 1, bs, hi)
            else if v < 0 || (hi >= 0 && |bs| >= max) then HexBytes(s, max).None?
            else if hi < 0 then Reading(s, i + 1, bs, v)
            else Reading(s, i + 1, bs + [PairOf(hi, v)], -1)
  {
    hide Payload, BytesAt, PairAt, ReadUpTo, Nibble;
    var t, v, p := Payload(s), Nibble(s[i]), 2 * |bs|;
    PayloadStep(s, i);
    if s[i] != ' ' {
      Uncons(t, if hi < 0 then p else p + 1, s[i], Payload(s[i + 1..]));
      if v < 0 || (hi >= 0 && |bs| >= max) {
        Refused(t, bs, hi, v, max);
      } else if hi >= 0 {
        PairRead(t, bs, hi, v);
      }
    }
  }

  lemma AllRead(s: string, i: nat, bs: seq<byte>, hi: int, max: nat)
    requires Reading(s, i, bs, hi) && (i < |s| ==> s[i] == '\n' || s[i] == '\r') && |bs| <= max
    ensures HexBytes(s, max) == if hi >= 0 then None else Some(bs)
  {
    hide Payload;
    PayloadEnd(s, i);
    var t := Payload(s);
    assert bs + [] == bs;
    assert BytesAt(t, 2 * |bs|) == [];
  }

  /** `bs` are the bytes of the pairs of `t` before `p`. */
  ghost predicate ReadUpTo(t: string, bs: seq<byte>, p: nat)
    requires p <= |t|
  {
    BytesAt(t, 0) == bs + BytesAt(t, p)
  }

  lemma PairRead(t: string, bs: seq<byte>, hi: int, v: int)
    requires 2 * |bs| + 1 < |t| && ReadUpTo(t, bs, 2 * |bs|)
    requires 0 <= hi == Nibble(t[2 * |bs|]) && 0 <= v == Nibble(t[2 * |bs| + 1])
    ensures ReadUpTo(t, bs + [PairOf(hi, v)], 2 * |bs| + 2)
  {
    var b := PairOf(hi, v);
    var rest := BytesAt(t, 2 * |bs| + 2);
    assert BytesAt(t, 2 * |bs|) == [b] + rest;
    assert bs + ([b] + rest) == bs + [b] + rest;
  }

  /** A character that is no digit, or a pair that finds no room. */
  lemma Refused(t: string, bs: seq<byte>, hi: int, v: int, max: nat)
    requires 2 * |bs| <= |t| && ReadUpTo(t, bs, 2 * |bs|)
    requires var p := if hi < 0 then 2 * |bs| else 2 * |bs| + 1;
             p < |t| && v == Nibble(t[p]) && (hi >= 0 ==> hi == Nibble(t[2 * |bs|]))
    requires v < 0 || (hi >= 0 && |bs| >= max)
    ensures |BytesAt(t, 0)| * 2 != |t| || |BytesAt(t, 0)| > max
  {
    if v >= 0 {
      PairRead(t, bs, hi, v);
    }
  }

  lemma PayloadStep(s: string, i: nat)
    requires i < |s| && s[i] != '\n' && s[i] != '\r'
    ensures Payload(s[i..]) == if s[i] == ' ' then Payload(s[i + 1..]) else [s[i]] + Payload(s[i + 1..])
  {
    assert s[i..][0] == s[i] && s[i..][1..] == s[i + 1..];
  }

  lemma PayloadEnd(s: string, i: nat)
    requires i <= |s| && (i < |s| ==> s[i] == '\n' || s[i] == '\r')
    ensures Payload(s[i..]) == []
  {
  }

  lemma Uncons(t: string, p: nat, c: char, rest: string)
    requires p <= |t| && t[p..] == [c] + rest
    ensures p < |t| && t[p] == c && t[p + 1..] == rest
  {
    assert t[p..][0] == c && t[p..][1..] == t[p + 1..];
  }
}
