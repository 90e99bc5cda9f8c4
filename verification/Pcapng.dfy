/**
 The pcapng reader of the capture tool (tools/analyze_capture.py,
 parse_pcapng): a walk over the blocks of one section, in either byte order.
 Block layout follows sections 3.1 and 4.1 to 4.3 of draft-ietf-opsawg-pcapng.
 */
module Pcapng {
  import opened Bytes
  import opened Script
  import opened Extract

  datatype Order = Little | Big

  function U16(o: Order, b: seq<byte>, p: nat): (v: nat)
    requires p + 2 <= |b|
    ensures v < 0x1_0000
  {
    match o case Little => b[p] + 0x100 * b[p + 1] as int case Big => b[p + 1] + 0x100 * b[p] as int
  }

  function U32(o: Order, b: seq<byte>, p: nat): (v: nat)
    requires p + 4 <= |b|
    ensures v < 0x1_0000_0000
  {
    match o
    case Little => U16(o, b, p) + 0x1_0000 * U16(o, b, p + 2)
    case Big => U16(o, b, p + 2) + 0x1_0000 * U16(o, b, p)
  }

  /** Little-endian numbers have their low byte first, big-endian ones their high byte. */
  lemma WordBytes(a: byte, b: byte, c: byte, d: byte)
    ensures U16(Little, [a, b], 0) == a as int + 256 * b as int && U16(Big, [a, b], 0) == 256 * a as int + b as int
    ensures U32(Little, [a, b, c, d], 0) == a as int + 256 * b as int + 65536 * c as int + 16777216 * d as int
    ensures U32(Big, [a, b, c, d], 0) == 16777216 * a as int + 65536 * b as int + 256 * c as int + d as int
  {
  }

  function Put16(o: Order, v: uint16): (b: seq<byte>)
    ensures |b| == 2
  {
    match o case Little => [v % 0x100, v / 0x100] case Big => [v / 0x100, v % 0x100]
  }

  function Put32(o: Order, v: nat): (b: seq<byte>)
    requires v < 0x1_0000_0000
    ensures |b| == 4
  {
    match o
    case Little => Put16(o, v % 0x1_0000) + Put16(o, v / 0x1_0000)
    case Big => Put16(o, v / 0x1_0000) + Put16(o, v % 0x1_0000)
  }

  lemma GetPut16(o: Order, v: uint16, b: seq<byte>, p: nat)
    requires p + 2 <= |b| && b[p..p + 2] == Put16(o, v)
    ensures U16(o, b, p) == v
  {
    assert b[p] == b[p..p + 2][0] && b[p + 1] == b[p..p + 2][1];
  }

  lemma Halves(b: seq<byte>, p: nat)
    requires p + 4 <= |b|
    ensures b[p..p + 4][..2] == b[p..p + 2] && b[p..p + 4][2..] == b[p + 2..p + 4]
  {
  }

  lemma GetPut32(o: Order, v: nat, b: seq<byte>, p: nat)
    requires v < 0x1_0000_0000 && p + 4 <= |b| && b[p..p + 4] == Put32(o, v)
    ensures U32(o, b, p) == v
  {
    Halves(b, p);
    hide Put16;
    match o
    case Little => GetPut16(o, v % 0x1_0000, b, p); GetPut16(o, v / 0x1_0000, b, p + 2);
    case Big => GetPut16(o, v / 0x1_0000, b, p); GetPut16(o, v % 0x1_0000, b, p + 2);
  }

  // ---- blocks -----------------------------------------------------------------------

  datatype Raw = Raw(typ: nat, body: seq<byte>)

  const SHB := 0x0A0D0D0A
  const IDB := 1
  const EPB := 6
  const MAGIC := 0x1A2B3C4D

  /** The complete blocks from `off` on; the walk ends at the first that is short or cut off. */
  function Blocks(o: Order, blob: seq<byte>, off: nat): seq<Raw>
    requires off <= |blob|
    decreases |blob| - off
  {
    if off + 12 > |blob| then []
    else
      var len := U32(o, blob, off + 4);
      if len < 12 || off + len > |blob| then []
      else [Raw(U32(o, blob, off), blob[off + 8..off + len - 4])] + Blocks(o, blob, off + len)
  }

  predicate Sized(r: Raw) {
    r.typ < 0x1_0000_0000 && |r.body| + 12 < 0x1_0000_0000
  }

  function PutBlock(o: Order, r: Raw): (b: seq<byte>)
    requires Sized(r)
    ensures |b| == 12 + |r.body|
  {
    Put32(o, r.typ) + Put32(o, 12 + |r.body|) + r.body + Put32(o, 12 + |r.body|)
  }

  function PutBlocks(o: Order, rs: seq<Raw>): seq<byte>
    requires forall k :: 0 <= k < |rs| ==> Sized(rs[k])
  {
    if rs == [] then [] else PutBlock(o, rs[0]) + PutBlocks(o, rs[1..])
  }

  /** How many blocks are complete in the first `n` bytes. */
  function Complete(rs: seq<Raw>, n: nat): (m: nat)
    ensures m <= |rs|
  {
    if rs == [] || n < 12 + |rs[0].body| then 0 else 1 + Complete(rs[1..], n - 12 - |rs[0].body|)
  }

  /** One block at the front of what is left of a file. */
  lemma FirstBlock(o: Order, blob: seq<byte>, off: nat, r: Raw)
    requires Sized(r) && off <= |blob| && PutBlock(o, r) <= blob[off..]
    ensures off + 12 + |r.body| <= |blob|
    ensures Blocks(o, blob, off) == [r] + Blocks(o, blob, off + 12 + |r.body|)
  {
    hide Put32, U32;
    var b, len := PutBlock(o, r), 12 + |r.body|;
    assert blob[off..off + len] == b;
    assert blob[off..off + 4] == b[..4] && blob[off + 4..off + 8] == b[4..8];
    GetPut32(o, r.typ, blob, off);
    GetPut32(o, len, blob, off + 4);
    assert blob[off + 8..off + len - 4] == b[8..len - 4] == r.body;
  }

  /** A block cut short ends the walk. */
  lemma CutBlock(o: Order, blob: seq<byte>, off: nat, r: Raw)
    requires Sized(r) && off <= |blob| < off + 12 + |r.body| && blob[off..] <= PutBlock(o, r)
    ensures Blocks(o, blob, off) == []
  {
    hide Put32, U32;
    if off + 12 <= |blob| {
      var b := PutBlock(o, r);
      assert blob[off + 4..off + 8] == blob[off..][4..8] == b[4..8];
      GetPut32(o, 12 + |r.body|, blob, off + 4);
    }
  }

  /** Walking a file cut anywhere finds exactly its complete blocks. */
  lemma {:induction false} WalkFindsComplete(o: Order, rs: seq<Raw>, blob: seq<byte>, off: nat)
    requires forall k :: 0 <= k < |rs| ==> Sized(rs[k])
    requires off <= |blob| && blob[off..] <= PutBlocks(o, rs)
    ensures Blocks(o, blob, off) == rs[..Complete(rs, |blob| - off)]
    decreases |rs|
  {
    hide PutBlock, Blocks;
    if rs == [] {
      Nothing(o, blob, off);
    } else {
      var b, rest := PutBlock(o, rs[0]), blob[off..];
      if |rest| < |b| {
        assert rest == PutBlocks(o, rs)[..|rest|] == b[..|rest|];
        CutBlock(o, blob, off, rs[0]);
      } else {
        assert rest[..|b|] == b;
        FirstBlock(o, blob, off, rs[0]);
        assert blob[off + |b|..] == rest[|b|..] <= PutBlocks(o, rs[1..]);
        WalkFindsComplete(o, rs[1..], blob, off + |b|);
      }
    }
  }

  lemma Nothing(o: Order, blob: seq<byte>, off: nat)
    requires off <= |blob| < off + 12
    ensures Blocks(o, blob, off) == []
  {
  }

  // ---- records ------------------------------------------------------------------------

  const LINKTYPE_USB_LINUX := 189
  const LINKTYPE_USB_LINUX_MMAPPED := 220

  /** Python's `b[from:to]` for non-negative bounds. */
  function Slice(b: seq<byte>, from: nat, to: nat): seq<byte> {
    b[Min(from, |b|)..Max(Min(from, |b|), Min(to, |b|))]
  }

  /** A transfer from one captured usbmon packet; packets shorter than a header give none. */
  function UsbRecord(o: Order, pkt: seq<byte>, headerLength: nat): Option<Rec> {
    if |pkt| < 48 then None
    else
      var urb := if pkt[8] == 0x53 then 'S' else if pkt[8] == 0x43 then 'C' else if pkt[8] == 0x45 then 'E' else '?';
      var setup := if pkt[9] == 2 && pkt[14] == 0
        then Some(Setup(pkt[40], pkt[41], U16(Little, pkt, 42), U16(Little, pkt, 44), U16(Little, pkt, 46)))
        else None;
      var captured := U32(o, pkt, 36);
      Some(Rec(urb, pkt[10], pkt[11], Some(U32(o, pkt, 32)), setup, Slice(pkt, headerLength, headerLength + captured)))
  }

  function HeaderLength(linktype: nat): nat {
    if linktype == LINKTYPE_USB_LINUX then 48 else 64
  }

  function LinkOf(links: seq<nat>, iface: nat): nat {
    if iface < |links| then links[iface] else LINKTYPE_USB_LINUX_MMAPPED
  }

  /** Blocks on which unpacking a fixed field fails. */
  /** Link type 189 has headers of 48 bytes; all others, and interfaces nobody described, have 64. */
  lemma HeaderLengths(links: seq<nat>, iface: nat)
    ensures HeaderLength(LinkOf(links, iface)) == if iface < |links| && links[iface] == 189 then 48 else 64
  {
  }

  predicate Short(r: Raw) {
    (r.typ == IDB && |r.body| < 2) || (r.typ == EPB && |r.body| < 16)
  }

  predicate NoneShort(rs: seq<Raw>) {
    forall k :: 0 <= k < |rs| ==> !Short(rs[k])
  }

  function Links(o: Order, rs: seq<Raw>): seq<nat>
    requires NoneShort(rs)
  {
    if rs == [] then []
    else
      var r := rs[|rs| - 1];
      assert !Short(r);
      Links(o, rs[..|rs| - 1]) + if r.typ == IDB then [U16(o, r.body, 0)] else []
  }

  /** The record of one block, given the interfaces described before it. */
  function BlockRecord(o: Order, r: Raw, links: seq<nat>): Option<Rec>
    requires !Short(r)
  {
    if r.typ != EPB then None
    else
      var link := LinkOf(links, U32(o, r.body, 0));
      UsbRecord(o, Slice(r.body, 20, 20 + U32(o, r.body, 12)), HeaderLength(link))
  }

  function Records(o: Order, rs: seq<Raw>): seq<Rec>
    requires NoneShort(rs)
  {
    if rs == [] then []
    else
      var before := rs[..|rs| - 1];
      Records(o, before) +
      match BlockRecord(o, rs[|rs| - 1], Links(o, before)) case Some(rec) => [rec] case None => []
  }

  datatype Parsed = Parsed(recs: seq<Rec>) | NotPcapng | UnpackError

  predicate IsPcapng(blob: seq<byte>) {
    |blob| >= 12 && blob[..4] == [0x0A, 0x0D, 0x0D, 0x0A]
  }

  function OrderOf(blob: seq<byte>): Order
    requires |blob| >= 12
  {
    if U32(Little, blob, 8) == MAGIC then Little else Big
  }

  /** What one block adds to the interfaces and to the records; `ok` is false if unpacking it fails. */
  method TakeBlock(o: Order, btype: nat, body: seq<byte>, links: seq<nat>)
    returns (ok: bool, link: seq<nat>, found: seq<Rec>)
    ensures ok <==> !Short(Raw(btype, body))
    ensures ok ==> link == (if btype == IDB then [U16(o, body, 0)] else [])
    ensures ok ==> found == match BlockRecord(o, Raw(btype, body), links) case Some(rec) => [rec] case None => []
  {
    hide U32, U16, UsbRecord, Slice, LinkOf;
    ok, link, found := true, [], [];
    if btype == IDB {
      if |body| < 2 { return false, link, found; }
      link := [U16(o, body, 0)];
    } else if btype == EPB {
      if |body| < 16 { return false, link, found; }
      var iface, capLen := U32(o, body, 0), U32(o, body, 12);
      var rec := UsbRecord(o, Slice(body, 20, 20 + capLen), HeaderLength(LinkOf(links, iface)));
      if rec.Some? { found := [rec.value]; }
    }
  }

  /** The walk has passed the blocks `done` and is at `off`. */
  ghost predicate Walked(o: Order, blob: seq<byte>, done: seq<Raw>, off: nat)
    requires off <= |blob|
  {
    Blocks(o, blob, 0) == done + Blocks(o, blob, off)
  }

  /** The walk over the blocks. */
  method Walk(end: Order, blob: seq<byte>) returns (p: Parsed)
    ensures if NoneShort(Blocks(end, blob, 0)) then p == Parsed(Records(end, Blocks(end, blob, 0))) else p.UnpackError?
  {
    var recs, links := [], [];
    var off, n := 0, |blob|;
    ghost var done: seq<Raw> := [];
    Step0(end, blob);
    hide Walked, Blocks, NoneShort, Short, Links, Records, BlockRecord, U32, U16;
    while off + 12 <= n
      invariant off <= n && Walked(end, blob, done, off)
      invariant NoneShort(done)
      invariant links == Links(end, done) && recs == Records(end, done)
      decreases n - off
    {
      var btype, blen := U32(end, blob, off), U32(end, blob, off + 4);
      if blen < 12 || off + blen > n { break; }
      var body := blob[off + 8..off + blen - 4];
      WalkOn(end, blob, done, off);
      Step(end, done, Raw(btype, body));
      var ok, link, found := TakeBlock(end, btype, body, links);
      if !ok {
        ShortStays(end, blob, done + [Raw(btype, body)], off + blen);
        return UnpackError;
      }
      links, recs := links + link, recs + found;
      done := done + [Raw(btype, body)];
      off := off + blen;
    }
    WalkEnds(end, blob, done, off);
    return Parsed(recs);
  }

  method ParsePcapng(blob: seq<byte>) returns (p: Parsed)
    ensures p.NotPcapng? <==> !IsPcapng(blob)
    ensures IsPcapng(blob) ==>
              var o := OrderOf(blob);
              var rs := Blocks(o, blob, 0);
              if NoneShort(rs) then p == Parsed(Records(o, rs)) else p.UnpackError?
  {
    hide Blocks, NoneShort, Records;
    if |blob| < 12 || blob[..4] != [0x0A, 0x0D, 0x0D, 0x0A] { return NotPcapng; }
    p := Walk(OrderOf(blob), blob);
  }

  lemma Step0(o: Order, blob: seq<byte>)
    ensures Walked(o, blob, [], 0) && NoneShort([]) && Links(o, []) == [] && Records(o, []) == []
  {
  }

  lemma WalkOn(o: Order, blob: seq<byte>, done: seq<Raw>, off: nat)
    requires off + 12 <= |blob| && Walked(o, blob, done, off)
    ensures var len := U32(o, blob, off + 4);
            len >= 12 && off + len <= |blob| ==>
              Walked(o, blob, done + [Raw(U32(o, blob, off), blob[off + 8..off + len - 4])], off + len)
  {
    hide U32;
    var len := U32(o, blob, off + 4);
    if len >= 12 && off + len <= |blob| {
      var r, rest := Raw(U32(o, blob, off), blob[off + 8..off + len - 4]), Blocks(o, blob, off + len);
      assert done + ([r] + rest) == done + [r] + rest;
    }
  }

  lemma WalkEnds(o: Order, blob: seq<byte>, done: seq<Raw>, off: nat)
    requires off <= |blob| && Walked(o, blob, done, off)
    requires off + 12 > |blob| || U32(o, blob, off + 4) < 12 || off + U32(o, blob, off + 4) > |blob|
    ensures Blocks(o, blob, 0) == done
  {
    hide U32;
  }

  lemma ShortStays(o: Order, blob: seq<byte>, done: seq<Raw>, off: nat)
    requires off <= |blob| && Walked(o, blob, done, off)
    requires done != [] && Short(done[|done| - 1])
    ensures !NoneShort(Blocks(o, blob, 0))
  {
    hide Blocks, Short;
    assert Blocks(o, blob, 0)[|done| - 1] == done[|done| - 1];
  }

  lemma Step(o: Order, done: seq<Raw>, r: Raw)
    requires NoneShort(done)
    ensures !Short(r) ==> NoneShort(done + [r])
    ensures !Short(r) ==>
      Links(o, done + [r]) == Links(o, done) + (if r.typ == IDB then [U16(o, r.body, 0)] else []) &&
      Records(o, done + [r]) == Records(o, done) +
        match BlockRecord(o, r, Links(o, done)) case Some(rec) => [rec] case None => []
  {
    hide U32, U16, UsbRecord, Slice, LinkOf;
    assert (done + [r])[..|done|] == done;
  }
}
