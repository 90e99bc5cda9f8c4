/**
 Whole captures: a well-formed single-section pcapng file, possibly cut off, and
 the script that the capture tool derives from it.
 */
module Capture {
  import opened Bytes
  import opened Script
  import opened ScriptPrint
  import opened Extract
  import opened Pcapng

  /** The blocks of a section, as section 4 of the draft lays them out. */
  datatype Block =
    | Interface(link: uint16, rest: seq<byte>)
    | Packet(iface: nat, stamp: seq<byte>, captured: seq<byte>, original: nat, rest: seq<byte>)
    | Other(typ: nat, body: seq<byte>)

  predicate WellFormed(b: Block) {
    match b
    case Interface(_, rest) => |rest| < 0x1000_0000
    case Packet(iface, stamp, captured, original, rest) =>
      iface < 0x1_0000_0000 && original < 0x1_0000_0000 && |stamp| == 8 && |captured| + |rest| < 0x1000_0000
    case Other(typ, body) =>
      typ < 0x1_0000_0000 && typ != 1 && typ != 6 && typ != 0x0A0D0D0A && |body| < 0x1000_0000
  }

  predicate AllWellFormed(bs: seq<Block>) {
    forall k :: 0 <= k < |bs| ==> WellFormed(bs[k])
  }

  function RawOf(o: Order, b: Block): (r: Raw)
    requires WellFormed(b)
    ensures Sized(r) && !Short(r)
  {
    match b
    case Interface(link, rest) => Raw(1, Put16(o, link) + rest)
    case Packet(iface, stamp, captured, original, rest) =>
      Raw(6, Put32(o, iface) + stamp + Put32(o, |captured|) + Put32(o, original) + captured + rest)
    case Other(typ, body) => Raw(typ, body)
  }

  function RawsOf(o: Order, bs: seq<Block>): (rs: seq<Raw>)
    requires AllWellFormed(bs)
    ensures |rs| == |bs| && NoneShort(rs)
    ensures forall k :: 0 <= k < |rs| ==> rs[k] == RawOf(o, bs[k])
  {
    seq(|bs|, k requires 0 <= k < |bs| => RawOf(o, bs[k]))
  }

  /** Link types of the interfaces, in order of description. */
  function LinkTypes(bs: seq<Block>): seq<nat> {
    if bs == [] then []
    else LinkTypes(bs[..|bs| - 1]) + match bs[|bs| - 1] case Interface(link, _) => [link] case _ => []
  }

  /** One record per packet block with a usbmon header, read by the link type of its interface. */
  function Transfers(o: Order, bs: seq<Block>): seq<Rec> {
    if bs == [] then []
    else
      var before := bs[..|bs| - 1];
      Transfers(o, before) +
      match bs[|bs| - 1]
      case Packet(iface, _, captured, _, _) =>
        (match UsbRecord(o, captured, HeaderLength(LinkOf(LinkTypes(before), iface)))
         case Some(rec) => [rec] case None => [])
      case _ => []
  }

  lemma InterfaceRead(o: Order, b: Block)
    requires WellFormed(b) && b.Interface?
    ensures U16(o, RawOf(o, b).body, 0) == b.link
  {
    var body := RawOf(o, b).body;
    assert body[0..2] == Put16(o, b.link);
    GetPut16(o, b.link, body, 0);
  }

  lemma PacketRead(o: Order, b: Block, links: seq<nat>)
    requires WellFormed(b) && b.Packet?
    ensures BlockRecord(o, RawOf(o, b), links) == UsbRecord(o, b.captured, HeaderLength(LinkOf(links, b.iface)))
  {
    hide Put32, U32, UsbRecord;
    var body, n := RawOf(o, b).body, |b.captured|;
    assert body[0..4] == Put32(o, b.iface) && body[12..16] == Put32(o, n);
    GetPut32(o, b.iface, body, 0);
    GetPut32(o, n, body, 12);
    assert body[20..20 + n] == b.captured;
  }

  lemma {:induction false} RecordsAreTransfers(o: Order, bs: seq<Block>)
    requires AllWellFormed(bs)
    ensures Links(o, RawsOf(o, bs)) == LinkTypes(bs)
    ensures Records(o, RawsOf(o, bs)) == Transfers(o, bs)
  {
    hide RawOf, UsbRecord, U16, BlockRecord;
    if bs != [] {
      var before, b, rs := bs[..|bs| - 1], bs[|bs| - 1], RawsOf(o, bs);
      assert rs[..|rs| - 1] == RawsOf(o, before);
      RecordsAreTransfers(o, before);
      LastBlock(o, b, LinkTypes(before));
    }
  }

  lemma LastBlock(o: Order, b: Block, links: seq<nat>)
    requires WellFormed(b)
    ensures b.Interface? ==> RawOf(o, b).typ == IDB && U16(o, RawOf(o, b).body, 0) == b.link
    ensures !b.Interface? ==> RawOf(o, b).typ != IDB
    ensures BlockRecord(o, RawOf(o, b), links) ==
            match b
            case Packet(iface, _, captured, _, _) => UsbRecord(o, captured, HeaderLength(LinkOf(links, iface)))
            case _ => None
  {
    match b
    case Interface(_, _) => InterfaceRead(o, b);
    case Packet(_, _, _, _, _) => PacketRead(o, b, links);
    case Other(_, _) =>
  }

  // ---- files ------------------------------------------------------------------------

  function HeaderBlock(o: Order, rest: seq<byte>): (r: Raw)
    requires |rest| < 0x1000_0000
    ensures Sized(r) && !Short(r)
  {
    Raw(0x0A0D0D0A, Put32(o, 0x1A2B3C4D) + rest)
  }

  function File(o: Order, rest: seq<byte>, bs: seq<Block>): seq<byte>
    requires |rest| < 0x1000_0000 && AllWellFormed(bs)
  {
    PutBlocks(o, [HeaderBlock(o, rest)] + RawsOf(o, bs))
  }

  /** How many of the section's blocks survive a cut to `n` bytes. */
  function Survivors(o: Order, rest: seq<byte>, bs: seq<Block>, n: nat): (m: nat)
    requires |rest| < 0x1000_0000 && AllWellFormed(bs)
    ensures m <= |bs|
  {
    if n < 16 + |rest| then 0 else Complete(RawsOf(o, bs), n - 16 - |rest|)
  }

  lemma MagicTellsOrder(o: Order, b: seq<byte>, p: nat)
    requires p + 4 <= |b| && b[p..p + 4] == Put32(o, MAGIC)
    ensures U32(Little, b, p) == MAGIC <==> o == Little
  {
    var s := b[p..p + 4];
    assert b[p] == s[0] && b[p + 1] == s[1] && b[p + 2] == s[2] && b[p + 3] == s[3];
  }

  lemma SameTypeInBothOrders(o: Order)
    ensures Put32(o, SHB) == [0x0A, 0x0D, 0x0D, 0x0A]
  {
  }

  /** The first bytes identify the format and the byte order. */
  lemma OrderRecognised(o: Order, rest: seq<byte>, bs: seq<Block>, n: nat)
    requires |rest| < 0x1000_0000 && AllWellFormed(bs)
    requires 12 <= n <= |File(o, rest, bs)|
    ensures var blob := File(o, rest, bs)[..n]; IsPcapng(blob) && OrderOf(blob) == o
  {
    hide RawOf, Put32, U32;
    var h := HeaderBlock(o, rest);
    var rs := [h] + RawsOf(o, bs);
    var file, b := File(o, rest, bs), PutBlock(o, h);
    var blob := file[..n];
    assert rs[0] == h && b <= file;
    assert blob[..4] == b[..4] == Put32(o, SHB);
    assert blob[8..12] == b[8..12] == Put32(o, MAGIC);
    MagicTellsOrder(o, blob, 8);
    SameTypeInBothOrders(o);
  }

  /** A file cut anywhere after its first 12 bytes parses to the transfers of its complete blocks. */
  lemma CutFileParses(o: Order, rest: seq<byte>, bs: seq<Block>, n: nat)
    requires |rest| < 0x1000_0000 && AllWellFormed(bs)
    requires 12 <= n <= |File(o, rest, bs)|
    ensures var blob := File(o, rest, bs)[..n];
            var rs := Blocks(o, blob, 0);
            IsPcapng(blob) && OrderOf(blob) == o && NoneShort(rs) &&
            Records(o, rs) == Transfers(o, bs[..Survivors(o, rest, bs, n)])
  {
    hide PutBlock, PutBlocks, Put32, RawOf, Blocks, Records;
    OrderRecognised(o, rest, bs, n);
    var h := HeaderBlock(o, rest);
    var rs := [h] + RawsOf(o, bs);
    var blob := File(o, rest, bs)[..n];
    assert blob[0..] == blob;
    WalkFindsComplete(o, rs, blob, 0);
    var m := Survivors(o, rest, bs, n);
    assert rs[1..] == RawsOf(o, bs);
    if n < 16 + |rest| {
      assert rs[..0] == [] && bs[..0] == [];
      NoRecords(o);
    } else {
      assert RawsOf(o, bs)[..m] == RawsOf(o, bs[..m]);
      assert rs[..Complete(rs, n)] == [h] + RawsOf(o, bs[..m]);
      HeaderSilent(o, h, RawsOf(o, bs[..m]));
      RecordsAreTransfers(o, bs[..m]);
    }
  }

  lemma NoRecords(o: Order)
    ensures Records(o, []) == []
  {
  }

  /** A block that is neither interface nor packet may be put in front unnoticed. */
  lemma {:induction false} HeaderSilent(o: Order, h: Raw, rs: seq<Raw>)
    requires h.typ != IDB && h.typ != EPB && NoneShort(rs)
    ensures NoneShort([h] + rs)
    ensures Links(o, [h] + rs) == Links(o, rs) && Records(o, [h] + rs) == Records(o, rs)
  {
    hide BlockRecord, Links, Records, NoneShort, Short;
    if rs == [] {
      assert [h] + rs == [h] && [h][..0] == [];
      Unnoticed(o, h);
    } else {
      var n := |rs| - 1;
      var front, last := rs[..n], rs[n];
      assert [h] + rs == [h] + front + [last] && rs == front + [last];
      WithoutLast(rs);
      HeaderSilent(o, h, front);
      Step(o, front, last);
      Step(o, [h] + front, last);
    }
  }

  lemma Unnoticed(o: Order, h: Raw)
    requires h.typ != IDB && h.typ != EPB
    ensures NoneShort([h]) && NoneShort([])
    ensures Links(o, [h]) == Links(o, []) == [] && Records(o, [h]) == Records(o, []) == []
  {
    assert [h][..0] == [];
  }

  lemma WithoutLast(rs: seq<Raw>)
    requires rs != [] && NoneShort(rs)
    ensures NoneShort(rs[..|rs| - 1]) && !Short(rs[|rs| - 1])
  {
  }

  /** A capture holding the whole payload keeps exactly the bytes after the header. */
  lemma WholePayload(o: Order, pkt: seq<byte>, headerLength: nat)
    requires 48 <= headerLength <= |pkt| && U32(o, pkt, 36) == |pkt| - headerLength
    ensures UsbRecord(o, pkt, headerLength).Some?
    ensures UsbRecord(o, pkt, headerLength).value.data == pkt[headerLength..]
  {
  }

  // ---- from capture to replay -----------------------------------------------------------

  predicate Asks32(r: Rec) {
    r.urbLen.Some? && r.urbLen.value < 0x1_0000_0000
  }

  lemma {:induction false} TransfersAsk32(o: Order, bs: seq<Block>)
    ensures forall k :: 0 <= k < |Transfers(o, bs)| ==> Asks32(Transfers(o, bs)[k])
  {
    hide LinkTypes, LinkOf, HeaderLength, Slice, U16;
    if bs != [] {
      TransfersAsk32(o, bs[..|bs| - 1]);
    }
  }

  lemma {:induction false} RecordsPrintable(recs: seq<Rec>, device: byte)
    requires forall k :: 0 <= k < |recs| ==> Asks32(recs[k])
    ensures PrintableAll(OpsFrom(recs, device))
  {
    if recs != [] {
      RecordsPrintable(recs[..|recs| - 1], device);
    }
  }

  /** Capture file to script to replay: the operations replayed are those of the captured transfers. */
  lemma CaptureToReplay(o: Order, rest: seq<byte>, bs: seq<Block>, n: nat, device: byte, comments: seq<string>)
    requires |rest| < 0x1000_0000 && AllWellFormed(bs)
    requires 12 <= n <= |File(o, rest, bs)|
    requires forall k :: 0 <= k < |comments| ==> IsComment(comments[k])
    ensures var blob := File(o, rest, bs)[..n];
            var rs := Blocks(o, blob, 0);
            var ops := OpsFrom(Transfers(o, bs[..Survivors(o, rest, bs, n)]), device);
            NoneShort(rs) &&
            Ops(Header(comments) + Print(OpsFrom(Records(o, rs), device))) == ReadBackAll(ops)
  {
    hide File, Blocks, Records, Transfers, Print, Ops, OpsFrom, ReadBackAll;
    var m := Survivors(o, rest, bs, n);
    CutFileParses(o, rest, bs, n);
    TransfersAsk32(o, bs[..m]);
    RecordsPrintable(Transfers(o, bs[..m]), device);
    CaptureReplays(Transfers(o, bs[..m]), device, comments);
  }
}
