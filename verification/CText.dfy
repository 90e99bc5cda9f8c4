/** The character tests that the C sources apply to text. */
module CText {
  import opened Bytes

  /** `isspace` in the C locale. */
  predicate IsSpace(c: char) {
    c == ' ' || 9 as char <= c <= 13 as char
  }

  predicate Spaces(s: string, from: nat, to: nat)
    requires to <= |s|
  {
    forall k :: from <= k < to ==> IsSpace(s[k])
  }

  /** Value of one hexadecimal digit of either case, or -1. */
  function Nibble(c: char): (v: int)
    ensures -1 <= v < 16
    ensures IsSpace(c) ==> v == -1
  {
    if '0' <= c <= '9' then c as int - '0' as int
    else if 'a' <= c <= 'f' then c as int - 'a' as int + 10
    else if 'A' <= c <= 'F' then c as int - 'A' as int + 10
    else -1
  }

  predicate IsHexDigit(c: char) {
    Nibble(c) >= 0
  }

  /** The digit Python's `hex()` and the HEX encoder print for a value. */
  function Digit(v: int): (c: char)
    requires 0 <= v < 16
    ensures Nibble(c) == v
    ensures '0' <= c <= '9' || 'a' <= c <= 'f'
  {
    if v < 10 then ('0' as int + v) as char else ('a' as int + v - 10) as char
  }

  /** The byte spelled by the two digits at `p`, or -1. */
  function PairAt(s: string, p: nat): (b: int)
    ensures -1 <= b < 256
  {
    if p + 1 < |s| && IsHexDigit(s[p]) && IsHexDigit(s[p + 1])
    then 16 * Nibble(s[p]) + Nibble(s[p + 1])
    else -1
  }

  /** The bytes spelled from `p` on, up to the first place that is not two digits. */
  function BytesAt(s: string, p: nat): (bs: seq<byte>)
    requires p <= |s|
    ensures p + 2 * |bs| <= |s|
    decreases |s| - p
  {
    if PairAt(s, p) < 0 then [] else [PairAt(s, p)] + BytesAt(s, p + 2)
  }

  /** Two lower-case digits per byte. */
  function HexText(bs: seq<byte>): (s: string)
    ensures |s| == 2 * |bs|
    ensures forall k :: 0 <= k < |s| ==> '0' <= s[k] <= '9' || 'a' <= s[k] <= 'f'
  {
    if bs == [] then ""
    else [Digit(bs[0] / 16), Digit(bs[0] % 16)] + HexText(bs[1..])
  }

  /** Printed bytes read back as they were, wherever they stand before a non-digit. */
  lemma {:induction false} HexTextReads(s: string, p: nat, bs: seq<byte>)
    requires p <= |s| && HexText(bs) <= s[p..]
    requires p + 2 * |bs| < |s| ==> !IsHexDigit(s[p + 2 * |bs|])
    ensures BytesAt(s, p) == bs
    decreases |bs|
  {
    if bs != [] {
      var t := HexText(bs);
      assert s[p] == s[p..][0] == t[0] && s[p + 1] == s[p..][1] == t[1];
      assert s[p + 2..] == s[p..][2..];
      HexTextReads(s, p + 2, bs[1..]);
    }
  }

  /** The digits and their values: capital and small letters are the same. */
  lemma NibbleMeans(c: char, v: nat)
    requires v < 16
    ensures Nibble(c) == v <==> c == "0123456789abcdef"[v] || c == "0123456789ABCDEF"[v]
  {
  }

  /** White space in the C locale: blank, tab, line feed, vertical tab, form feed and carriage return. */
  lemma IsSpaceMeans(c: char)
    ensures IsSpace(c) <==> c in {' ', 9 as char, 10 as char, 11 as char, 12 as char, 13 as char}
  {
  }

  /** The characters of a buffer before its first NUL. */
  function CString(s: string): (t: string)
    ensures t <= s
    ensures 0 as char !in t
    ensures |t| < |s| ==> s[|t|] == 0 as char
    ensures 0 as char !in s ==> t == s
  {
    if s == [] || s[0] == 0 as char then [] else [s[0]] + CString(s[1..])
  }

  /** Position of the first newline, or the length. */
  function LineEnd(text: string): (e: nat)
    ensures e <= |text| && '\n' !in text[..e] && (e < |text| ==> text[e] == '\n')
  {
    if text == [] || text[0] == '\n' then 0 else 1 + LineEnd(text[1..])
  }

  lemma {:induction false} LineEndIs(text: string, e: nat)
    requires e <= |text| && '\n' !in text[..e] && (e < |text| ==> text[e] == '\n')
    ensures LineEnd(text) == e
  {
    if e > 0 {
      assert text[0] == text[..e][0] && text[1..][..e - 1] == text[..e][1..];
      LineEndIs(text[1..], e - 1);
    }
  }
}
