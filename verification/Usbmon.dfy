/**
 Captured URBs: the usbmon packets of Linux captures written field by field, and
 what the capture tool makes of them (tools/analyze_capture.py, _usbmon_record
 and extract_scan).
 */
module Usbmon {
  import opened Bytes
  import opened Script
  import opened ScriptPrint
  import opened Extract
  import opened Pcapng
  import opened Capture

  /**
   The fields of a packet in their order: `stamp` holds both parts of the time
   stamp, `setup` the setup bytes, `extra` the 16 bytes only the longer header has.
   */
  datatype Urb = Urb(
    id: seq<byte>, letter: byte, transfer: byte, endpoint: byte, device: byte, bus: uint16, setupFlag: byte, dataFlag: byte,
    stamp: seq<byte>, status: nat, length: nat, setup: seq<byte>, extra: seq<byte>, payload: seq<byte>)

  /** The fields have their sizes, for a header of 48 bytes or, if `long`, of 64. */
  predicate Sound(u: Urb, long: bool) {
    |u.id| == 8 && |u.stamp| == 12 && u.status < 0x1_0000_0000 && u.length < 0x1_0000_0000 && |u.setup| == 8 &&
    |u.extra| == (if long then 16 else 0) && |u.payload| < 0x100_0000
  }

  function Start(o: Order, u: Urb): (b: seq<byte>)
    requires |u.id| == 8 && |u.stamp| == 12 && u.status < 0x1_0000_0000
    ensures |b| == 32
  {
    u.id + [u.letter, u.transfer, u.endpoint, u.device] + Put16(o, u.bus) + [u.setupFlag, u.dataFlag] + u.stamp +
    Put32(o, u.status)
  }

  function PutUrb(o: Order, u: Urb, long: bool): (b: seq<byte>)
    requires Sound(u, long)
    ensures |b| == (if long then 64 else 48) + |u.payload|
  {
    Start(o, u) + Put32(o, u.length) + Put32(o, |u.payload|) + u.setup + u.extra + u.payload
  }

  function SetupOf(b: seq<byte>): Setup
    requires |b| == 8
  {
    Setup(b[0], b[1], b[2] + 256 * b[3] as int, b[4] + 256 * b[5] as int, b[6] + 256 * b[7] as int)
  }

  /** The record of a packet, from its fields. */
  function RecordOf(u: Urb): Rec
    requires |u.setup| == 8
  {
    Rec(if u.letter == 0x53 then 'S' else if u.letter == 0x43 then 'C' else if u.letter == 0x45 then 'E' else '?',
        u.endpoint, u.device, Some(u.length), if u.transfer == 2 && u.setupFlag == 0 then Some(SetupOf(u.setup)) else None,
        u.payload)
  }

  lemma StartReads(o: Order, u: Urb, long: bool)
    requires Sound(u, long)
    ensures var b := PutUrb(o, u, long);
            b[8] == u.letter && b[9] == u.transfer && b[10] == u.endpoint && b[11] == u.device && b[14] == u.setupFlag
  {
    hide Put16, Put32;
    var b, s := PutUrb(o, u, long), Start(o, u);
    assert forall k :: 0 <= k < 32 ==> b[k] == s[k];
  }

  lemma LengthsRead(o: Order, u: Urb, long: bool)
    requires Sound(u, long)
    ensures U32(o, PutUrb(o, u, long), 32) == u.length && U32(o, PutUrb(o, u, long), 36) == |u.payload|
  {
    hide Put32, U32, Start;
    var b := PutUrb(o, u, long);
    assert b[32..36] == Put32(o, u.length) && b[36..40] == Put32(o, |u.payload|);
    GetPut32(o, u.length, b, 32);
    GetPut32(o, |u.payload|, b, 36);
  }

  lemma RestReads(o: Order, u: Urb, long: bool)
    requires Sound(u, long)
    ensures PutUrb(o, u, long)[40..48] == u.setup && PutUrb(o, u, long)[if long then 64 else 48..] == u.payload
  {
    hide Put32, Start;
  }

  lemma SetupReads(b: seq<byte>)
    requires |b| >= 48
    ensures SetupOf(b[40..48]) == Setup(b[40], b[41], U16(Little, b, 42), U16(Little, b, 44), U16(Little, b, 46))
  {
  }

  /** A written packet is read as the record of its fields, in either byte order and with either header. */
  lemma UrbReads(o: Order, u: Urb, long: bool)
    requires Sound(u, long)
    ensures UsbRecord(o, PutUrb(o, u, long), if long then 64 else 48) == Some(RecordOf(u))
  {
    StartReads(o, u, long);
    LengthsRead(o, u, long);
    RestReads(o, u, long);
    hide PutUrb, U32, Put32;
    var b := PutUrb(o, u, long);
    SetupReads(b);
    var header := if long then 64 else 48;
    assert b[header..header + |u.payload|] == b[header..];
  }

  // ---- what is replayed --------------------------------------------------------------------

  /**
   The operation of a packet: only submissions (letter 0x53) of the device are
   replayed.  Endpoint 0x86 reads the image, endpoint 1 with data is a command, and
   of the other endpoints the requests A4 and A9 that carry setup bytes are control transfers.
   */
  function Replayed(u: Urb, device: byte): Option<Op>
    requires |u.setup| == 8
  {
    if u.letter != 0x53 || u.device != device then None
    else if u.endpoint == 0x86 then Some(Image(u.length))
    else if u.endpoint == 1 && |u.payload| > 0 then Some(Send(u.payload))
    else if u.transfer == 2 && u.setupFlag == 0 && (u.setup[1] == 0xA4 || u.setup[1] == 0xA9)
    then Some(Control(SetupOf(u.setup), u.payload))
    else None
  }

  lemma ReplayedOp(u: Urb, device: byte)
    requires |u.setup| == 8
    ensures OpOf(RecordOf(u), device) == Replayed(u, device)
  {
  }

  /** Records without a length are read as 20480 bytes. */
  lemma LengthDefault(r: Rec, device: byte)
    requires r.dev == device && r.urb == 'S' && r.ep == 0x86 && r.urbLen.None?
    ensures OpOf(r, device) == Some(Image(20480))
  {
  }

  // ---- a capture of URBs ---------------------------------------------------------------------

  /** Link type 189 has the short header, 220 the long one. */
  predicate AllSound(us: seq<Urb>, link: nat) {
    (link == 189 || link == 220) && forall k :: 0 <= k < |us| ==> Sound(us[k], link == 220)
  }

  function PacketOf(o: Order, u: Urb, link: nat): (b: Block)
    requires (link == 189 || link == 220) && Sound(u, link == 220)
    ensures WellFormed(b)
  {
    var packet := PutUrb(o, u, link == 220);
    Packet(0, u.stamp[..8], packet, |packet|, seq((4 - |packet| % 4) % 4, i => 0))
  }

  /** One interface, then one padded packet block for each URB. */
  function BlocksFor(o: Order, us: seq<Urb>, link: nat): (bs: seq<Block>)
    requires AllSound(us, link)
    ensures |bs| == |us| + 1 && AllWellFormed(bs)
  {
    [Interface(link, [])] + seq(|us|, k requires 0 <= k < |us| => PacketOf(o, us[k], link))
  }

  function RecordsOf(us: seq<Urb>): (recs: seq<Rec>)
    requires forall k :: 0 <= k < |us| ==> |us[k].setup| == 8
    ensures |recs| == |us|
  {
    seq(|us|, k requires 0 <= k < |us| => RecordOf(us[k]))
  }

  lemma {:induction false} BlocksForSnoc(o: Order, us: seq<Urb>, link: nat)
    requires AllSound(us, link) && us != []
    ensures var n := |us| - 1;
            BlocksFor(o, us, link) == BlocksFor(o, us[..n], link) + [PacketOf(o, us[n], link)] &&
            RecordsOf(us) == RecordsOf(us[..n]) + [RecordOf(us[n])]
  {
    hide PacketOf;
  }

  lemma {:induction false} UrbTransfers(o: Order, us: seq<Urb>, link: nat)
    requires AllSound(us, link)
    ensures LinkTypes(BlocksFor(o, us, link)) == [link] && Transfers(o, BlocksFor(o, us, link)) == RecordsOf(us)
  {
    hide PutUrb, UsbRecord;
    if us == [] {
      var bs := BlocksFor(o, us, link);
      assert bs == [Interface(link, [])] && bs[..0] == [];
    } else {
      var n := |us| - 1;
      UrbTransfers(o, us[..n], link);
      BlocksForSnoc(o, us, link);
      UrbReads(o, us[n], link == 220);
      hide BlocksFor;
      TransferMore(o, BlocksFor(o, us[..n], link), us[n], link);
    }
  }

  lemma TransferMore(o: Order, bs: seq<Block>, u: Urb, link: nat)
    requires (link == 189 || link == 220) && Sound(u, link == 220) && LinkTypes(bs) == [link]
    ensures LinkTypes(bs + [PacketOf(o, u, link)]) == [link]
    ensures Transfers(o, bs + [PacketOf(o, u, link)]) == Transfers(o, bs) + [RecordOf(u)]
  {
    hide PutUrb, UsbRecord;
    UrbReads(o, u, link == 220);
    var more := bs + [PacketOf(o, u, link)];
    assert more[..|bs|] == bs;
  }

  /** A file of such packets, cut anywhere, parses to the records of the URBs that are complete, field by field. */
  lemma UrbFileParses(o: Order, rest: seq<byte>, us: seq<Urb>, link: nat, n: nat)
    requires |rest| < 0x1000_0000 && AllSound(us, link)
    requires 12 <= n <= |File(o, rest, BlocksFor(o, us, link))|
    ensures var bs := BlocksFor(o, us, link);
            var blob, m := File(o, rest, bs)[..n], Survivors(o, rest, bs, n);
            OrderOf(blob) == o && NoneShort(Blocks(o, blob, 0)) &&
            Records(o, Blocks(o, blob, 0)) == if m == 0 then [] else RecordsOf(us[..m - 1])
  {
    hide File, Blocks, Records, Survivors;
    var bs := BlocksFor(o, us, link);
    var m := Survivors(o, rest, bs, n);
    CutFileParses(o, rest, bs, n);
    if m > 0 {
      assert bs[..m] == BlocksFor(o, us[..m - 1], link);
      UrbTransfers(o, us[..m - 1], link);
    } else {
      assert bs[..0] == [];
    }
  }

  lemma {:induction false} AllComplete(o: Order, rs: seq<Raw>)
    requires forall k :: 0 <= k < |rs| ==> Sized(rs[k])
    ensures Complete(rs, |PutBlocks(o, rs)|) == |rs|
  {
    hide PutBlock;
    if rs != [] {
      AllComplete(o, rs[1..]);
    }
  }

  /** Of a whole file all blocks survive. */
  lemma WholeFileSurvives(o: Order, rest: seq<byte>, bs: seq<Block>)
    requires |rest| < 0x1000_0000 && AllWellFormed(bs)
    ensures 12 <= |File(o, rest, bs)| && Survivors(o, rest, bs, |File(o, rest, bs)|) == |bs|
  {
    hide PutBlock, RawOf;
    var h := HeaderBlock(o, rest);
    var rs := RawsOf(o, bs);
    assert ([h] + rs)[1..] == rs && |PutBlock(o, h)| == 16 + |rest|;
    assert |File(o, rest, bs)| == 16 + |rest| + |PutBlocks(o, rs)|;
    AllComplete(o, rs);
  }

  /** The operations of the URBs of a device, in order. */
  function ReplayedOps(us: seq<Urb>, device: byte): seq<Op>
    requires forall k :: 0 <= k < |us| ==> |us[k].setup| == 8
  {
    if us == [] then []
    else
      var n := |us| - 1;
      ReplayedOps(us[..n], device) + match Replayed(us[n], device) case Some(op) => [op] case None => []
  }

  lemma {:induction false} RecordsReplay(us: seq<Urb>, device: byte)
    requires forall k :: 0 <= k < |us| ==> |us[k].setup| == 8
    ensures OpsFrom(RecordsOf(us), device) == ReplayedOps(us, device)
  {
    hide OpOf, Replayed, RecordOf;
    if us != [] {
      var n := |us| - 1;
      RecordsReplay(us[..n], device);
      assert RecordsOf(us)[..n] == RecordsOf(us[..n]);
      ReplayedOp(us[n], device);
    }
  }

  /** From the URBs on the wire to the operations replayed: a whole capture file, printed as a script and read again. */
  lemma UrbFileReplays(o: Order, rest: seq<byte>, us: seq<Urb>, link: nat, device: byte, comments: seq<string>)
    requires |rest| < 0x1000_0000 && AllSound(us, link) && forall k :: 0 <= k < |comments| ==> IsComment(comments[k])
    ensures var blob := File(o, rest, BlocksFor(o, us, link));
            |blob| >= 12 && OrderOf(blob) == o && NoneShort(Blocks(o, blob, 0)) &&
            Ops(Header(comments) + Print(OpsFrom(Records(o, Blocks(o, blob, 0)), device))) ==
            ReadBackAll(ReplayedOps(us, device))
  {
    hide File, Blocks, Records, Survivors, Transfers, Print, Ops, OpsFrom, ReadBackAll, ReplayedOps, BlocksFor;
    var bs := BlocksFor(o, us, link);
    var blob := File(o, rest, bs);
    WholeFileSurvives(o, rest, bs);
    assert blob[..|blob|] == blob && bs[..|bs|] == bs;
    OrderRecognised(o, rest, bs, |blob|);
    UrbTransfers(o, us, link);
    CaptureToReplay(o, rest, bs, |blob|, device, comments);
    CutFileParses(o, rest, bs, |blob|);
    RecordsReplay(us, device);
  }
}
