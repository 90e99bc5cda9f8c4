/**
 One line of Intel HEX (src/pakon_hex.c).  What a line means is given by the
 relation `Denotes`, which follows section 2 of Intel's format specification;
 the scanner `ParseLine` is proved to accept exactly the lines that denote a
 record and to deliver that record.
 */
module HexRecord {
  import opened Bytes
  import opened CText

  datatype Record = Record(addr: uint16, typ: byte, data: seq<byte>)

  predicate Fits(r: Record) {
    |r.data| <= 255
  }

  /** Record length, load offset, type and information fields, in wire order. */
  function Fields(r: Record): seq<byte>
    requires Fits(r)
  {
    [|r.data|, r.addr / 256, r.addr % 256, r.typ] + r.data
  }

  /** The fields followed by the two's-complement checksum. */
  function Wire(r: Record): (bs: seq<byte>)
    requires Fits(r)
    ensures |bs| == |r.data| + 5
    ensures Sum(bs) % 256 == 0
  {
    var f := Fields(r);
    var bs := f + [(256 - Sum(f) % 256) % 256];
    assert bs[..|f|] == f;
    bs
  }

  /** `line` is spaces, a colon at `i`, the digit pairs of `r`, and spaces. */
  ghost predicate Writes(line: string, r: Record, i: nat) {
    Fits(r) && i < |line| &&
    Spaces(line, 0, i) && line[i] == ':' &&
    BytesAt(line, i + 1) == Wire(r) &&
    Spaces(line, i + 1 + 2 * |Wire(r)|, |line|)
  }

  ghost predicate Denotes(line: string, r: Record) {
    exists i :: Writes(line, r, i)
  }

  /** The record a line denotes; by `DenotesOne` there is at most one. */
  ghost function RecordOf(line: string): (o: Option<Record>)
    ensures o.Some? ==> Denotes(line, o.value)
    ensures o.None? ==> forall r :: !Denotes(line, r)
  {
    if exists r :: Denotes(line, r) then
      var r :| Denotes(line, r);
      Some(r)
    else
      None
  }

  /** The colon is the first character that is not a space. */
  lemma WritesStart(line: string, r: Record, i: nat, p: nat)
    requires Writes(line, r, i)
    requires p <= |line| && Spaces(line, 0, p)
    requires p < |line| ==> !IsSpace(line[p])
    ensures i == p
  {
  }

  lemma WireInjective(r: Record, r': Record)
    requires Fits(r) && Fits(r') && Wire(r) == Wire(r')
    ensures r == r'
  {
    var w := Wire(r);
    assert |r.data| == |r'.data|;
    assert r.data == w[4..|w| - 1] == r'.data;
    assert r.addr == 256 * (w[1] as int) + w[2] == r'.addr;
    assert r.typ == w[3] == r'.typ;
  }

  /** The bytes `bs` spell record `r`: count, address with the high byte first, type, data, checksum. */
  predicate Spells(bs: seq<byte>, r: Record) {
    |bs| >= 5 && |bs| == 5 + bs[0] as int && Sum(bs) % 256 == 0 &&
    r == Record(256 * bs[1] as int + bs[2] as int, bs[3], bs[4..|bs| - 1])
  }

  lemma WireSpells(r: Record)
    requires Fits(r)
    ensures Spells(Wire(r), r)
  {
    var bs := Wire(r);
    assert bs[4..|bs| - 1] == r.data;
  }

  lemma SpelledWire(bs: seq<byte>, r: Record)
    requires Spells(bs, r)
    ensures Fits(r) && Wire(r) == bs
  {
    var n := |bs| - 1;
    var f, last := bs[..n], bs[n];
    assert Fields(r) == f;
    assert Sum(bs) == Sum(f) + last;
    hide Fields, Sum;
    LastByte(Sum(f), last);
    assert bs == f + [last];
  }

  lemma LastByte(sum: nat, last: byte)
    requires (sum + last) % 256 == 0
    ensures last == (256 - sum % 256) % 256
  {
  }

  /** The bytes of a record, exactly: the checksum makes the sum of all a multiple of 256. */
  lemma WireIff(r: Record, bs: seq<byte>)
    ensures Fits(r) && Wire(r) == bs <==>
            |bs| >= 5 && |bs| == 5 + bs[0] as int && Sum(bs) % 256 == 0 &&
            r == Record(256 * bs[1] as int + bs[2] as int, bs[3], bs[4..|bs| - 1])
  {
    hide Wire, Sum;
    if Fits(r) && Wire(r) == bs {
      WireSpells(r);
    }
    if Spells(bs, r) {
      SpelledWire(bs, r);
    }
  }

  /** White space, a colon, the bytes of the record as pairs of digits, white space. */
  predicate SpelledFrom(line: string, r: Record, i: nat) {
    i < |line| && Spaces(line, 0, i) && line[i] == ':' &&
    Spells(BytesAt(line, i + 1), r) && Spaces(line, i + 1 + 2 * |BytesAt(line, i + 1)|, |line|)
  }

  lemma WritesIff(line: string, r: Record, i: nat)
    ensures Writes(line, r, i) <==> SpelledFrom(line, r, i)
  {
    hide Sum, Wire;
    if i < |line| {
      WireIff(r, BytesAt(line, i + 1));
    }
  }

  /** A line denotes the record its digits spell, and nothing else. */
  lemma DenotesIff(line: string, r: Record)
    ensures Denotes(line, r) <==> exists i: nat :: SpelledFrom(line, r, i)
  {
    hide Writes, SpelledFrom;
    if Denotes(line, r) {
      var i: nat :| Writes(line, r, i);
      WritesIff(line, r, i);
    }
    if i: nat :| SpelledFrom(line, r, i) {
      WritesIff(line, r, i);
    }
  }

  lemma EndOfFileBytes()
    ensures BytesAt(":00000001FF", 1) == [0, 0, 0, 1, 0xFF]
  {
    var line := ":00000001FF";
    assert BytesAt(line, 9) == [0xFF] && BytesAt(line, 7) == [1, 0xFF];
    assert BytesAt(line, 5) == [0, 1, 0xFF] && BytesAt(line, 3) == [0, 0, 1, 0xFF];
  }

  /** The end-of-file record, letter by letter. */
  lemma EndOfFileLine()
    ensures Denotes(":00000001FF", Record(0, 1, []))
  {
    hide BytesAt, Wire;
    EndOfFileBytes();
    var line, bs := ":00000001FF", [0, 0, 0, 1, 0xFF];
    SumConcat([0, 0, 0], [1]);
    SumConcat([0, 0, 0, 1], [0xFF]);
    assert [0, 0, 0, 1] + [0xFF] == bs && [0, 0, 0] + [1] == [0, 0, 0, 1];
    assert [0, 0, 0][..2] == [0, 0] && [0, 0][..1] == [0] && Sum([0]) == 0;
    assert Sum([1]) == 1 && Sum([0xFF]) == 0xFF;
    assert bs[4..|bs| - 1] == [];
    hide Sum, Denotes;
    assert SpelledFrom(line, Record(0, 1, []), 0);
    DenotesIff(line, Record(0, 1, []));
  }

  /** A line denotes at most one record. */
  lemma DenotesOne(line: string, r: Record, r': Record)
    requires Denotes(line, r) && Denotes(line, r')
    ensures r == r'
  {
    var i :| Writes(line, r, i);
    var i' :| Writes(line, r', i');
    WritesStart(line, r, i, i');
    WireInjective(r, r');
  }

  // ---- encoder ---------------------------------------------------------------

  function Encode(r: Record): (line: string)
    requires Fits(r)
    ensures |line| == 11 + 2 * |r.data|
  {
    ":" + HexText(Wire(r))
  }

  lemma EncodeDenotes(r: Record)
    requires Fits(r)
    ensures Denotes(Encode(r), r) && RecordOf(Encode(r)) == Some(r)
  {
    var line := Encode(r);
    assert line[1..] == HexText(Wire(r));
    HexTextReads(line, 1, Wire(r));
    assert Writes(line, r, 0) && Denotes(line, r);
    DenotesOne(line, r, RecordOf(line).value);
  }

  /** `line` with the two digits at `p` replaced. */
  function Respell(line: string, p: nat, hi: char, lo: char): string
    requires p + 1 < |line|
  {
    line[p := hi][p + 1 := lo]
  }

  lemma {:induction false} RespellReads(line: string, p: nat, k: nat, hi: char, lo: char)
    requires p <= |line| && k < |BytesAt(line, p)|
    requires IsHexDigit(hi) && IsHexDigit(lo)
    ensures BytesAt(Respell(line, p + 2 * k, hi, lo), p) == BytesAt(line, p)[k := 16 * Nibble(hi) + Nibble(lo)]
    decreases k
  {
    hide BytesAt, PairAt;
    var bad, b := Respell(line, p + 2 * k, hi, lo), 16 * Nibble(hi) + Nibble(lo);
    FirstPair(line, p);
    var first, rest := PairAt(line, p), BytesAt(line, p + 2);
    if k == 0 {
      SameTail(line, bad, p + 2);
      RespelledPair(line, p, hi, lo);
      assert ([first] + rest)[0 := b] == [b] + rest;
    } else {
      RespellReads(line, p + 2, k - 1, hi, lo);
      SamePair(line, bad, p);
      assert ([first] + rest)[k := b] == [first] + rest[k - 1 := b];
    }
    PairBefore(bad, p);
  }

  lemma FirstPair(s: string, p: nat)
    requires p <= |s| && |BytesAt(s, p)| > 0
    ensures p + 2 <= |s| && PairAt(s, p) >= 0 && BytesAt(s, p) == [PairAt(s, p)] + BytesAt(s, p + 2)
  {
  }

  lemma PairBefore(s: string, p: nat)
    requires p <= |s| && PairAt(s, p) >= 0
    ensures p + 2 <= |s| && BytesAt(s, p) == [PairAt(s, p)] + BytesAt(s, p + 2)
  {
  }

  lemma RespelledPair(line: string, p: nat, hi: char, lo: char)
    requires p + 1 < |line| && IsHexDigit(hi) && IsHexDigit(lo)
    ensures PairAt(Respell(line, p, hi, lo), p) == 16 * Nibble(hi) + Nibble(lo)
  {
  }

  lemma SamePair(s: string, t: string, p: nat)
    requires p + 1 < |s| && |s| == |t| && s[p] == t[p] && s[p + 1] == t[p + 1]
    ensures PairAt(s, p) == PairAt(t, p)
  {
  }

  lemma {:induction false} SameTail(s: string, t: string, p: nat)
    requires p <= |s| == |t| && forall k :: p <= k < |s| ==> s[k] == t[k]
    ensures BytesAt(s, p) == BytesAt(t, p)
    decreases |s| - p
  {
    if PairAt(s, p) >= 0 {
      SameTail(s, t, p + 2);
    }
  }

  /** Spelling a byte with other digits of the same value, such as capital letters, leaves the record as it is. */
  lemma RespellKeepsRecord(line: string, r: Record, i: nat, k: nat, hi: char, lo: char)
    requires Writes(line, r, i) && k < |Wire(r)|
    requires IsHexDigit(hi) && IsHexDigit(lo)
    requires 16 * Nibble(hi) + Nibble(lo) == Wire(r)[k]
    ensures RecordOf(Respell(line, i + 1 + 2 * k, hi, lo)) == RecordOf(line) == Some(r)
  {
    hide Sum, BytesAt, RecordOf;
    var bad := Respell(line, i + 1 + 2 * k, hi, lo);
    RespellReads(line, i + 1, k, hi, lo);
    assert BytesAt(bad, i + 1) == Wire(r);
    assert Writes(bad, r, i);
    OnlyRecord(line, r);
    OnlyRecord(bad, r);
  }

  lemma OnlyRecord(line: string, r: Record)
    requires Denotes(line, r)
    ensures RecordOf(line) == Some(r)
  {
    DenotesOne(line, r, RecordOf(line).value);
  }

  /** Respelling any one byte of a record as another byte makes the line illegal. */
  lemma CorruptionRejected(line: string, r: Record, i: nat, k: nat, hi: char, lo: char)
    requires Writes(line, r, i) && k < |Wire(r)|
    requires IsHexDigit(hi) && IsHexDigit(lo)
    requires 16 * Nibble(hi) + Nibble(lo) != Wire(r)[k]
    ensures RecordOf(Respell(line, i + 1 + 2 * k, hi, lo)) == None
  {
    hide Sum, BytesAt;
    var bad, b := Respell(line, i + 1 + 2 * k, hi, lo), 16 * Nibble(hi) + Nibble(lo);
    if RecordOf(bad).Some? {
      var r' := RecordOf(bad).value;
      var i' :| Writes(bad, r', i');
      WritesStart(bad, r', i', i);
      RespellReads(line, i + 1, k, hi, lo);
      ChecksumSeesByte(Wire(r), k, b);
      assert false;
    }
  }

  // ---- the scanner -------------------------------------------------------------

  /** The caller's record, filled in place. */
  class RecordBuffer {
    var addr: uint16
    var typ: byte
    var len: byte
    const data: array<byte>

    constructor ()
      ensures data.Length == 255 && fresh(data)
    {
      addr, typ, len := 0, 0, 0;
      data := new byte[255];
    }

    function Value(): Record
      requires data.Length == 255
      reads this, data
    {
      Record(addr, typ, data[..len])
    }
  }

  /** Decode two digits at the cursor and advance it past them. */
  method ByteAt(line: string, p: nat) returns (b: int, next: nat)
    requires p <= |line|
    ensures b == PairAt(line, p)
    ensures next == (if b < 0 then p else p + 2) <= |line|
    ensures BytesAt(line, p) == if b < 0 then [] else [b] + BytesAt(line, next)
  {
    var hi := if p < |line| then Nibble(line[p]) else -1;
    if hi < 0 { return -1, p; }
    var lo := if p + 1 < |line| then Nibble(line[p + 1]) else -1;
    if lo < 0 { return -1, p; }
    return 16 * hi + lo, p + 2;
  }

  /** If the digit pairs stop before the announced end, the line denotes nothing. */
  lemma Truncated(line: string, i: nat)
    requires i < |line| && Spaces(line, 0, i) && !IsSpace(line[i])
    requires var got := BytesAt(line, i + 1); |got| < 4 || |got| - 5 < got[0]
    ensures RecordOf(line) == None
  {
    if RecordOf(line).Some? {
      var r := RecordOf(line).value;
      var i' :| Writes(line, r, i');
      WritesStart(line, r, i', i);
      assert false;
    }
  }

  /** All announced bytes read, a right checksum and a blank tail make a record. */
  lemma Accepted(line: string, i: nat, r: Record, cksum: byte)
    requires i < |line| && Spaces(line, 0, i) && line[i] == ':' && Fits(r)
    requires i + 11 + 2 * |r.data| <= |line|
    requires BytesAt(line, i + 1) == Fields(r) + [cksum] + BytesAt(line, i + 11 + 2 * |r.data|)
    requires (Sum(Fields(r)) + cksum) % 256 == 0 && Spaces(line, i + 11 + 2 * |r.data|, |line|)
    ensures Denotes(line, r) && RecordOf(line) == Some(r)
  {
    SpacesReadNothing(line, i + 11 + 2 * |r.data|);
    LastByte(Sum(Fields(r)), cksum);
    hide Fields, Sum, BytesAt, Spaces;
    assert Writes(line, r, i);
    assert Denotes(line, r);
    OnlyRecord(line, r);
  }

  lemma SpacesReadNothing(line: string, p: nat)
    requires p <= |line| && Spaces(line, p, |line|)
    ensures BytesAt(line, p) == []
  {
  }

  /** With all announced bytes read, a wrong checksum or a junk tail rules out every record. */
  lemma Rejected(line: string, i: nat, got: seq<byte>)
    requires i < |line| && Spaces(line, 0, i) && !IsSpace(line[i])
    requires i + 1 + 2 * |got| <= |line| && |got| >= 5 && |got| - 5 == got[0]
    requires BytesAt(line, i + 1) == got + BytesAt(line, i + 1 + 2 * |got|)
    requires Sum(got) % 256 == 0 ==> !Spaces(line, i + 1 + 2 * |got|, |line|)
    ensures RecordOf(line) == None
  {
    if RecordOf(line).Some? {
      var r := RecordOf(line).value;
      var i' :| Writes(line, r, i');
      WritesStart(line, r, i', i);
      SameLength(got, BytesAt(line, i + 1 + 2 * |got|), r);
    }
  }

  lemma SameLength(got: seq<byte>, rest: seq<byte>, r: Record)
    requires Fits(r) && |got| >= 5 && |got| - 5 == got[0] && Wire(r) == got + rest
    ensures Wire(r) == got && rest == []
  {
    assert Wire(r)[0] == got[0];
  }

  /** The data loop: fills `out.data` and adds to the running sum. */
  method ReadData(line: string, ghost i: nat, start: nat, ghost head: seq<byte>, sum0: nat, out: RecordBuffer)
    returns (ok: bool, p: nat, sum: nat)
    requires out.data.Length == 255
    requires i < |line| && Spaces(line, 0, i) && !IsSpace(line[i])
    requires start == i + 9 <= |line| && |head| == 4 && head[0] == out.len
    requires BytesAt(line, i + 1) == head + BytesAt(line, start) && sum0 == Sum(head)
    modifies out.data
    ensures !ok ==> RecordOf(line) == None
    ensures ok ==> p == start + 2 * out.len as int <= |line|
    ensures ok ==> BytesAt(line, i + 1) == head + out.data[..out.len] + BytesAt(line, p)
    ensures ok ==> sum == Sum(head + out.data[..out.len])
  {
    hide BytesAt, Sum, Spaces, PairAt;
    p, sum := start, sum0;
    var n := 0;
    assert head + out.data[..0] == head;
    while n < out.len
      invariant 0 <= n <= out.len
      invariant p == start + 2 * n <= |line|
      invariant BytesAt(line, i + 1) == head + out.data[..n] + BytesAt(line, p)
      invariant sum == Sum(head + out.data[..n])
    {
      var b;
      b, p := ByteAt(line, p);
      if b < 0 {
        assert (head + out.data[..n])[0] == head[0];
        Truncated(line, i);
        return false, p, sum;
      }
      Snoc(head + out.data[..n], b, BytesAt(line, p));
      out.data[n] := b;
      sum := sum + b;
      assert head + out.data[..n + 1] == head + out.data[..n] + [b];
      n := n + 1;
    }
    ok := true;
  }

  method SkipSpaces(line: string, from: nat) returns (p: nat)
    requires from <= |line|
    ensures from <= p <= |line| && Spaces(line, from, p)
    ensures p < |line| ==> !IsSpace(line[p])
  {
    p := from;
    while p < |line| && IsSpace(line[p])
      invariant from <= p <= |line| && Spaces(line, from, p)
    {
      p := p + 1;
    }
  }

  /** The four header bytes; `ok` is false if any of them is missing. */
  method ReadHeader(line: string, start: nat) returns (ok: bool, p: nat, count: int, ah: int, al: int, typ: int)
    requires start <= |line|
    ensures !ok ==> |BytesAt(line, start)| < 4
    ensures ok ==> 0 <= count < 256 && 0 <= ah < 256 && 0 <= al < 256 && 0 <= typ < 256
    ensures ok ==> p == start + 8 <= |line|
    ensures ok ==> BytesAt(line, start) == [count, ah, al, typ] + BytesAt(line, p)
  {
    count, p := ByteAt(line, start);
    ah, p := ByteAt(line, p);
    al, p := ByteAt(line, p);
    typ, p := ByteAt(line, p);
    ok := !(count < 0 || ah < 0 || al < 0 || typ < 0);
    if ok {
      Header(count, ah, al, typ, BytesAt(line, p));
    }
  }

  /** Checksum byte and trailing white space, after the fields of `r` were read. */
  method CheckTail(line: string, ghost i: nat, start: nat, ghost r: Record, sum: nat) returns (ok: bool)
    requires i < |line| && Spaces(line, 0, i) && line[i] == ':' && Fits(r)
    requires start == i + 9 + 2 * |r.data| <= |line|
    requires BytesAt(line, i + 1) == Fields(r) + BytesAt(line, start)
    requires sum == Sum(Fields(r))
    ensures RecordOf(line) == if ok then Some(r) else None
  {
    hide Sum, BytesAt, Wire, RecordOf;
    var cksum, p := ByteAt(line, start);
    if cksum < 0 {
      Truncated(line, i);
      return false;
    }
    Snoc(Fields(r), cksum, BytesAt(line, p));
    if (sum + cksum) % 256 != 0 {
      Rejected(line, i, Fields(r) + [cksum]);
      return false;
    }
    var q := SkipSpaces(line, p);
    if q < |line| {
      assert !Spaces(line, p, |line|);
      Rejected(line, i, Fields(r) + [cksum]);
      return false;
    }
    Accepted(line, i, r, cksum);
    return true;
  }

  /** Validate one line and fill `out`; false is PAKON_ERR_FIRMWARE. */
  method ParseLine(line: string, out: RecordBuffer) returns (ok: bool)
    requires out.data.Length == 255
    modifies out, out.data
    ensures ok <==> RecordOf(line).Some?
    ensures ok ==> RecordOf(line) == Some(out.Value())
  {
    hide Sum, BytesAt, Wire, RecordOf;
    var i := SkipSpaces(line, 0);
    if i == |line| || line[i] != ':' {
      NoColon(line, i);
      return false;
    }

    var p, count, ah, al, typ, sum;
    ok, p, count, ah, al, typ := ReadHeader(line, i + 1);
    if !ok {
      Truncated(line, i);
      return false;
    }
    out.addr, out.typ, out.len := 256 * ah + al, typ, count;

    Header(count, ah, al, typ, []);
    ok, p, sum := ReadData(line, i, p, [count, ah, al, typ], count + ah + al + typ, out);
    if !ok { return false; }
    FieldsAre(count, ah, al, typ, out.data[..count]);
    ok := CheckTail(line, i, p, out.Value(), sum);
  }

  lemma FieldsAre(count: byte, ah: byte, al: byte, typ: byte, data: seq<byte>)
    requires |data| == count
    ensures Fields(Record(256 * (ah as int) + al, typ, data)) == [count, ah, al, typ] + data
  {
  }

  lemma NoColon(line: string, p: nat)
    requires p <= |line| && Spaces(line, 0, p)
    requires p < |line| ==> !IsSpace(line[p]) && line[p] != ':'
    ensures RecordOf(line) == None
  {
    if RecordOf(line).Some? {
      var r := RecordOf(line).value;
      var i :| Writes(line, r, i);
      WritesStart(line, r, i, p);
      assert false;
    }
  }

  lemma Snoc(got: seq<byte>, b: byte, rest: seq<byte>)
    ensures got + ([b] + rest) == got + [b] + rest
    ensures Sum(got + [b]) == Sum(got) + b
  {
    assert (got + [b])[..|got|] == got;
  }

  lemma Header(a: byte, b: byte, c: byte, d: byte, rest: seq<byte>)
    ensures [a] + ([b] + ([c] + ([d] + rest))) == [a, b, c, d] + rest
    ensures Sum([a, b, c, d]) == a as int + b + c + d
  {
    Snoc([], a, []);
    Snoc([a], b, []);
    Snoc([a, b], c, []);
    Snoc([a, b, c], d, []);
    assert [] + [a] == [a] && [a] + [b] == [a, b] && [a, b] + [c] == [a, b, c] && [a, b, c] + [d] == [a, b, c, d];
  }
}
