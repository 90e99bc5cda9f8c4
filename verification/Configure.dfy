/**
 Programming the calibration registers (src/pakon_calib.c, pakon_calib_configure
 and the encoders), and what a receiver of the frames ends up with.
 */
module Configure {
  import opened Bytes
  import opened Session
  import P = Proto

  const TIMING := 0x82
  const AFE := 0x84
  const AD_PICM := 0x24
  const WRITE := 0x03

  datatype Config = Config(
    control: uint16, exposure: seq<uint16>, timing4: uint16, timing5: uint16, height: uint16, timing9: uint16,
    timing10: uint16, afe0: uint16, afe1: uint16, gain: seq<int>, offset: seq<int>)

  predicate Valid(c: Config) {
    |c.exposure| == 3 && |c.gain| == 3 && |c.offset| == 3
  }

  // ---- encoders -----------------------------------------------------------------------

  function Clamp(v: int, low: int, high: int): int {
    if v < low then low else if v > high then high else v
  }

  function EncGain(gain: int): uint16 {
    var g := if gain < 0 then 0 else gain;
    if g > 63 then 63 else g
  }

  function EncExposure(exposure: int): uint16 {
    var e := if exposure < 0 then 0 else exposure;
    if e > 0xfff then 0xfff else e
  }

  /** Sign and magnitude: bit 8 is the sign. */
  function EncOffset(offset: int): uint16 {
    var mag := if offset < 0 then -offset else offset;
    var v := if mag > 255 then 255 else mag;
    if offset < 0 then v + 0x100 else v
  }

  /** How the sensor reads an offset register. */
  function DecOffset(v: uint16): int {
    var mag := v % 0x100;
    if v / 0x100 % 2 == 1 then -mag else mag
  }

  /** Decoding an encoded offset gives the offset, limited to what the field can hold. */
  lemma OffsetRoundTrip(offset: int)
    ensures DecOffset(EncOffset(offset)) == Clamp(offset, -255, 255)
    ensures EncOffset(offset) < 0x200
  {
  }

  // ---- frames ---------------------------------------------------------------------------

  datatype Entry = Entry(bank: byte, reg: byte, val: uint16)

  function WriteFrame(e: Entry): P.Frame {
    P.Frame(0x02, [AD_PICM, WRITE, e.bank, e.reg, e.val % 0x100, e.val / 0x100])
  }

  /** `pakon_calib_build_write`; only the two known banks can be written. */
  method BuildWrite(pkt: P.Packet, e: Entry) returns (r: P.Code)
    requires pkt.data.Length == P.DATA_MAX
    modifies pkt, pkt.data
    ensures r == if e.bank == TIMING || e.bank == AFE then P.OK else P.PARAM
    ensures r.OK? ==> pkt.Holds(WriteFrame(e))
  {
    if e.bank != TIMING && e.bank != AFE { return P.PARAM; }
    r := pkt.Build(0x02, [AD_PICM, WRITE, e.bank, e.reg, e.val % 0x100, e.val / 0x100 % 0x100]);
  }

  /** The table in program order: timing bank, then analogue front end. */
  function Table(c: Config): (t: seq<Entry>)
    requires Valid(c)
    ensures |t| == 17
  {
    [ Entry(TIMING, 0, c.control),
      Entry(TIMING, 1, EncExposure(c.exposure[0])),
      Entry(TIMING, 2, EncExposure(c.exposure[1])),
      Entry(TIMING, 3, EncExposure(c.exposure[2])),
      Entry(TIMING, 4, c.timing4),
      Entry(TIMING, 5, c.timing5),
      Entry(TIMING, 6, c.height),
      Entry(TIMING, 9, c.timing9),
      Entry(TIMING, 10, c.timing10),
      Entry(AFE, 0, c.afe0),
      Entry(AFE, 1, c.afe1),
      Entry(AFE, 2, EncGain(c.gain[0])),
      Entry(AFE, 3, EncGain(c.gain[1])),
      Entry(AFE, 4, EncGain(c.gain[2])),
      Entry(AFE, 5, EncOffset(c.offset[0])),
      Entry(AFE, 6, EncOffset(c.offset[1])),
      Entry(AFE, 7, EncOffset(c.offset[2])) ]
  }

  /** Register writes and nothing else. */
  ghost predicate Writes(ev: seq<Event>, t: seq<Entry>) {
    |ev| == |t| && forall k :: 0 <= k < |ev| ==> ev[k].Framed? && ev[k].frame == P.Wire(WriteFrame(t[k]))
  }

  // ---- programming -----------------------------------------------------------------------

  /** One register write: build, serialize, send. */
  method WriteRegister(dev: Device, e: Entry) returns (ok: bool, ghost ev: seq<Event>)
    modifies dev`clock, dev`trace
    ensures dev.trace == old(dev.trace) + ev
    ensures e.bank != TIMING && e.bank != AFE ==> !ok && ev == []
    ensures e.bank == TIMING || e.bank == AFE ==> Writes(ev, [e]) && ok == ev[0].ok
  {
    ev := [];
    var pkt := new P.Packet();
    var r := BuildWrite(pkt, e);
    if !r.OK? { return false, ev; }
    var wire := new byte[P.PACKET_SIZE];
    var s, n := pkt.Serialize(wire);
    if !s.OK? { return false, ev; }
    assert pkt.data[..pkt.count] == WriteFrame(e).data;
    var st;
    ghost var raw := wire[..n];
    ok, st := dev.Command(wire[..n]);
    ev := [Framed(raw, ok, st)];
  }

  /** Writes the table up to the first write that fails; OK iff all are accepted. */
  method ConfigureAll(dev: Device, c: Config) returns (ok: bool, ghost ev: seq<Event>)
    requires Valid(c)
    modifies dev`clock, dev`trace
    ensures dev.trace == old(dev.trace) + ev
    ensures |ev| <= 17 && Writes(ev, Table(c)[..|ev|])
    ensures ok <==> |ev| == 17 && forall k :: 0 <= k < |ev| ==> ev[k].ok
    ensures !ok ==> ev != [] && !ev[|ev| - 1].ok && forall k :: 0 <= k < |ev| - 1 ==> ev[k].ok
  {
    var regs := Table(c);
    Banks(c);
    ev := [];
    var i := 0;
    while i < |regs|
      invariant i == |ev| <= |regs| && dev.trace == old(dev.trace) + ev
      invariant Writes(ev, regs[..i]) && forall k :: 0 <= k < i ==> ev[k].ok
    {
      hide Table, WriteFrame, Writes;
      ghost var more;
      ok, more := WriteRegister(dev, regs[i]);
      WritesMore(ev, regs, more);
      ev := ev + more;
      if !ok { return; }
      i := i + 1;
    }
    ok := true;
  }

  lemma WritesMore(ev: seq<Event>, t: seq<Entry>, more: seq<Event>)
    requires |ev| < |t| && Writes(ev, t[..|ev|]) && Writes(more, [t[|ev|]])
    ensures |more| == 1 && Writes(ev + more, t[..|ev| + 1]) && (ev + more)[|ev|] == more[0]
  {
    hide WriteFrame;
    assert t[..|ev| + 1] == t[..|ev|] + [t[|ev|]];
  }

  lemma Banks(c: Config)
    requires Valid(c)
    ensures forall k :: 0 <= k < |Table(c)| ==> Table(c)[k].bank == TIMING || Table(c)[k].bank == AFE
  {
  }

  /** A register write on the wire: type, count, address, write command, bank, register, value with its low byte first. */
  lemma WriteBytes(w: Entry)
    ensures P.Wire(WriteFrame(w)) == [0x02, 0x06, 0x24, 0x03, w.bank, w.reg, w.val % 256, w.val / 256]
  {
  }

  /** The banks and registers of a configuration, in the order they are written. */
  lemma ConfigurationOrder(c: Config, k: nat)
    requires Valid(c) && k < 17
    ensures Table(c)[k].bank == (if k < 9 then 0x82 else 0x84)
    ensures Table(c)[k].reg == [0, 1, 2, 3, 4, 5, 6, 9, 10, 0, 1, 2, 3, 4, 5, 6, 7][k]
  {
  }

  /** Offsets are written as a magnitude of at most 255 and a sign bit, gains and exposures within their fields. */
  lemma FieldValues(v: int)
    ensures EncOffset(v) == if v < 0 then 256 + Min(255, -v) else Min(255, v)
    ensures EncGain(v) == Max(0, Min(63, v)) && EncExposure(v) == Max(0, Min(4095, v))
  {
  }

  // ---- the register file ---------------------------------------------------------------------

  /** What the device holds, by bank and register. */
  type Registers = (byte, byte) -> uint16

  /** The event is a command to write this register. */
  predicate Touches(e: Event, bank: byte, reg: byte) {
    e.Framed? && |e.frame| == 8 && e.frame[..4] == [0x02, 0x06, AD_PICM, WRITE] && e.frame[4] == bank && e.frame[5] == reg
  }

  /** The effect of a received frame on the register file. */
  function Apply(regs: Registers, raw: seq<byte>): Registers {
    if |raw| == 8 && raw[..4] == [0x02, 0x06, AD_PICM, WRITE]
    then
      var bank, reg, val := raw[4], raw[5], Value(raw[6], raw[7]);
      (b: byte, r: byte) => if b == bank && r == reg then val else regs(b, r)
    else regs
  }

  function Value(lo: byte, hi: byte): uint16 {
    lo + 0x100 * hi as int
  }

  /**
   The register file after the first `k` events.  An acknowledged command has
   arrived; `arrived` says which of the failed ones have, by their position.
   */
  function RegsAt(regs: Registers, ev: seq<Event>, arrived: nat -> bool, k: nat): Registers
    requires k <= |ev|
  {
    if k == 0 then regs
    else
      var before, e := RegsAt(regs, ev, arrived, k - 1), ev[k - 1];
      if e.Framed? && (e.ok || arrived(k - 1)) then Apply(before, e.frame) else before
  }

  predicate IsWrite(e: Event, w: Entry) {
    e.Framed? && e.frame == P.Wire(WriteFrame(w))
  }

  lemma WriteTouches(e: Event, w: Entry, bank: byte, reg: byte)
    requires IsWrite(e, w)
    ensures Touches(e, bank, reg) <==> w.bank == bank && w.reg == reg
    ensures |e.frame| == 8 && e.frame[..4] == [0x02, 0x06, AD_PICM, WRITE] && e.frame[4] == w.bank && e.frame[5] == w.reg
    ensures Value(e.frame[6], e.frame[7]) == w.val
  {
    assert e.frame == [0x02, 0x06, AD_PICM, WRITE, w.bank, w.reg, w.val % 0x100, w.val / 0x100];
    assert e.frame[..4] == [0x02, 0x06, AD_PICM, WRITE];
  }

  /** A write that arrives sets its register. */
  lemma WriteLands(regs: Registers, ev: seq<Event>, arrived: nat -> bool, i: nat, w: Entry)
    requires i < |ev| && IsWrite(ev[i], w) && (ev[i].ok || arrived(i))
    ensures RegsAt(regs, ev, arrived, i + 1)(w.bank, w.reg) == w.val
  {
    WriteTouches(ev[i], w, w.bank, w.reg);
  }

  /** Between two points a register changes only by a write to it that arrives. */
  lemma {:induction false} Untouched(regs: Registers, ev: seq<Event>, arrived: nat -> bool, i: nat, k: nat, bank: byte, reg: byte)
    requires i <= k <= |ev|
    requires forall j :: i <= j < k && Touches(ev[j], bank, reg) ==> !ev[j].ok && !arrived(j)
    ensures RegsAt(regs, ev, arrived, k)(bank, reg) == RegsAt(regs, ev, arrived, i)(bank, reg)
  {
    if i < k {
      Untouched(regs, ev, arrived, i, k - 1, bank, reg);
    }
  }

  /** The same events as a part of a run. */
  lemma {:induction false} RegsAtSuffix(regs: Registers, ev: seq<Event>, arrived: nat -> bool, m: nat, k: nat)
    requires m + k <= |ev|
    ensures RegsAt(regs, ev, arrived, m + k)
         == RegsAt(RegsAt(regs, ev, arrived, m), ev[m..], (j: nat) => arrived(m + j), k)
  {
    if k > 0 {
      RegsAtSuffix(regs, ev, arrived, m, k - 1);
      assert ev[m..][k - 1] == ev[m + k - 1];
    }
  }

  /** Whatever the registers held and whichever failed commands arrived, the register holds the value after `k` events. */
  ghost predicate Certain(ev: seq<Event>, k: nat, bank: byte, reg: byte, val: int)
    requires k <= |ev|
  {
    forall regs: Registers, arrived: nat -> bool :: RegsAt(regs, ev, arrived, k)(bank, reg) == val
  }

  function Other(v: uint16): uint16 {
    if v == 0 then 1 else 0
  }

  /** A failed write may have been lost, and the register may hold anything. */
  lemma LostWrite(ev: seq<Event>, i: nat, k: nat, w: Entry, was: uint16)
    requires i < k <= |ev| && IsWrite(ev[i], w) && !ev[i].ok
    requires forall j :: 0 <= j < k && j != i ==> !Touches(ev[j], w.bank, w.reg)
    ensures RegsAt((b: byte, r: byte) => was, ev, (j: nat) => false, k)(w.bank, w.reg) == was
  {
    Untouched((b: byte, r: byte) => was, ev, (j: nat) => false, 0, k, w.bank, w.reg);
  }

  /** The only write of a register settles its value exactly if it was acknowledged. */
  lemma SoleWriteIff(ev: seq<Event>, i: nat, k: nat, w: Entry)
    requires i < k <= |ev| && IsWrite(ev[i], w)
    requires forall j :: 0 <= j < k && j != i ==> !Touches(ev[j], w.bank, w.reg)
    ensures Certain(ev, k, w.bank, w.reg, w.val) <==> ev[i].ok
  {
    if ev[i].ok {
      forall regs: Registers, arrived: nat -> bool ensures RegsAt(regs, ev, arrived, k)(w.bank, w.reg) == w.val {
        WriteLands(regs, ev, arrived, i, w);
        Untouched(regs, ev, arrived, i + 1, k, w.bank, w.reg);
      }
    } else {
      LostWrite(ev, i, k, w, Other(w.val));
    }
  }

  /** No two entries write the same register. */
  predicate Distinct(t: seq<Entry>) {
    forall i, j :: 0 <= i < j < |t| ==> t[i].bank != t[j].bank || t[i].reg != t[j].reg
  }

  ghost predicate AllCertain(ev: seq<Event>, t: seq<Entry>) {
    forall k :: 0 <= k < |t| ==> Certain(ev, |ev|, t[k].bank, t[k].reg, t[k].val)
  }

  lemma WriteAt(ev: seq<Event>, t: seq<Entry>, i: nat)
    requires Writes(ev, t) && Distinct(t) && i < |ev|
    ensures IsWrite(ev[i], t[i])
    ensures forall j :: 0 <= j < |ev| && j != i ==> !Touches(ev[j], t[i].bank, t[i].reg)
  {
    hide WriteFrame, Touches;
    forall j | 0 <= j < |ev| && j != i ensures !Touches(ev[j], t[i].bank, t[i].reg) {
      WriteTouches(ev[j], t[j], t[i].bank, t[i].reg);
    }
  }

  /** The writes of a table settle all its registers exactly if all were acknowledged. */
  lemma TableAppliedIff(ev: seq<Event>, t: seq<Entry>)
    requires Writes(ev, t) && Distinct(t)
    ensures AllCertain(ev, t) <==> forall k :: 0 <= k < |ev| ==> ev[k].ok
  {
    hide WriteFrame, Touches, Certain;
    forall i | 0 <= i < |t| ensures Certain(ev, |ev|, t[i].bank, t[i].reg, t[i].val) <==> ev[i].ok {
      WriteAt(ev, t, i);
      SoleWriteIff(ev, i, |ev|, t[i]);
    }
  }

  /** Registers the table does not name are not touched, whatever arrived. */
  lemma OthersUnchanged(regs: Registers, ev: seq<Event>, t: seq<Entry>, arrived: nat -> bool, bank: byte, reg: byte)
    requires Writes(ev, t) && forall k :: 0 <= k < |t| ==> t[k].bank != bank || t[k].reg != reg
    ensures RegsAt(regs, ev, arrived, |ev|)(bank, reg) == regs(bank, reg)
  {
    hide WriteFrame, Touches;
    forall j | 0 <= j < |ev| ensures !Touches(ev[j], bank, reg) {
      WriteTouches(ev[j], t[j], bank, reg);
    }
    Untouched(regs, ev, arrived, 0, |ev|, bank, reg);
  }

  function Code(e: Entry): nat {
    0x100 * e.bank as int + e.reg
  }

  /** Every entry writes a register above all earlier ones, so no register is written twice. */
  lemma Ascending(c: Config)
    requires Valid(c)
    ensures forall k :: 0 < k < |Table(c)| ==> Code(Table(c)[k - 1]) < Code(Table(c)[k])
  {
  }

  lemma {:induction false} AscendingDistinct(t: seq<Entry>, i: nat, j: nat)
    requires forall k :: 0 < k < |t| ==> Code(t[k - 1]) < Code(t[k])
    requires i < j < |t|
    ensures Code(t[i]) < Code(t[j])
  {
    if i < j - 1 {
      AscendingDistinct(t, i, j - 1);
    }
  }

  /** The registers a configuration names. */
  predicate Named(bank: byte, reg: byte) {
    (bank == TIMING && (reg <= 6 || reg == 9 || reg == 10)) || (bank == AFE && reg <= 7)
  }

  lemma TableNames(c: Config, k: nat)
    requires Valid(c) && k < 17
    ensures Named(Table(c)[k].bank, Table(c)[k].reg)
  {
  }

  /** The values of a programmed configuration, field by field, limited to the range of each field. */
  ghost predicate Programmed(r: Registers, c: Config)
    requires Valid(c)
  {
    && r(TIMING, 0) == c.control
    && r(TIMING, 4) == c.timing4
    && r(TIMING, 5) == c.timing5
    && r(TIMING, 6) == c.height
    && r(TIMING, 9) == c.timing9
    && r(TIMING, 10) == c.timing10
    && r(AFE, 0) == c.afe0
    && r(AFE, 1) == c.afe1
    && (forall k :: 0 <= k < 3 ==> r(TIMING, 1 + k) == Clamp(c.exposure[k], 0, 0xfff))
    && (forall k :: 0 <= k < 3 ==> r(AFE, 2 + k) == Clamp(c.gain[k], 0, 63))
    && (forall k :: 0 <= k < 3 ==> DecOffset(r(AFE, 5 + k)) == Clamp(c.offset[k], -255, 255))
  }

  ghost predicate InPlace(r: Registers, t: seq<Entry>) {
    forall k :: 0 <= k < |t| ==> r(t[k].bank, t[k].reg) == t[k].val
  }

  lemma TableProgrammed(r: Registers, c: Config)
    requires Valid(c) && InPlace(r, Table(c))
    ensures Programmed(r, c)
  {
    hide EncOffset, DecOffset;
    var t := Table(c);
    forall k | 0 <= k < 17 ensures r(t[k].bank, t[k].reg) == t[k].val {
    }
    assert t[0].reg == 0 && t[4].reg == 4 && t[5].reg == 5 && t[6].reg == 6 && t[7].reg == 9 && t[8].reg == 10;
    assert t[9].reg == 0 && t[10].reg == 1;
    forall k | 0 <= k < 3 ensures r(TIMING, 1 + k) == Clamp(c.exposure[k], 0, 0xfff) {
      assert t[1 + k] == Entry(TIMING, 1 + k, EncExposure(c.exposure[k]));
    }
    forall k | 0 <= k < 3 ensures r(AFE, 2 + k) == Clamp(c.gain[k], 0, 63) {
      assert t[11 + k] == Entry(AFE, 2 + k, EncGain(c.gain[k]));
    }
    forall k | 0 <= k < 3 ensures DecOffset(r(AFE, 5 + k)) == Clamp(c.offset[k], -255, 255) {
      assert t[14 + k] == Entry(AFE, 5 + k, EncOffset(c.offset[k]));
      OffsetRoundTrip(c.offset[k]);
    }
  }

  /** A register of the table that holds another value spoils the configuration. */
  lemma OtherSpoils(r: Registers, c: Config, i: nat)
    requires Valid(c) && i < 17
    requires var e := Table(c)[i]; r(e.bank, e.reg) == Other(e.val)
    ensures !Programmed(r, c)
  {
    var e := Table(c)[i];
    if 1 <= i < 4 {
      assert e == Entry(TIMING, 1 + (i - 1), EncExposure(c.exposure[i - 1]));
    } else if 11 <= i < 14 {
      assert e == Entry(AFE, 2 + (i - 11), EncGain(c.gain[i - 11]));
    } else if i >= 14 {
      assert e == Entry(AFE, 5 + (i - 14), EncOffset(c.offset[i - 14]));
      OffsetRoundTrip(c.offset[i - 14]);
    }
  }

  lemma TableDistinct(c: Config)
    requires Valid(c)
    ensures Distinct(Table(c))
  {
    hide Table;
    var t := Table(c);
    Ascending(c);
    forall i, j | 0 <= i < j < |t| ensures t[i].bank != t[j].bank || t[i].reg != t[j].reg {
      AscendingDistinct(t, i, j);
    }
  }

  /** Whatever was there before and whichever failed commands arrived, the device is configured after the events. */
  ghost predicate Configured(ev: seq<Event>, c: Config)
    requires Valid(c)
  {
    forall regs: Registers, arrived: nat -> bool :: Programmed(RegsAt(regs, ev, arrived, |ev|), c)
  }

  lemma AcknowledgedConfigures(ev: seq<Event>, c: Config)
    requires Valid(c) && Writes(ev, Table(c)) && forall k :: 0 <= k < |ev| ==> ev[k].ok
    ensures Configured(ev, c)
  {
    hide Table, Programmed, Writes;
    var t := Table(c);
    TableDistinct(c);
    TableAppliedIff(ev, t);
    forall regs: Registers, arrived: nat -> bool ensures Programmed(RegsAt(regs, ev, arrived, |ev|), c) {
      var r := RegsAt(regs, ev, arrived, |ev|);
      forall k | 0 <= k < |t| ensures r(t[k].bank, t[k].reg) == t[k].val {
        assert Certain(ev, |ev|, t[k].bank, t[k].reg, t[k].val);
      }
      TableProgrammed(r, c);
    }
  }

  /** An entry that was not sent, or failed, leaves the configuration open. */
  lemma MissingSpoils(ev: seq<Event>, c: Config, i: nat)
    requires Valid(c) && |ev| <= 17 && Writes(ev, Table(c)[..|ev|]) && i < 17 && (i >= |ev| || !ev[i].ok)
    ensures !Configured(ev, c)
  {
    hide Programmed, WriteFrame, Touches;
    var t := Table(c);
    var w := t[i];
    var regs: Registers := (b: byte, r: byte) => Other(w.val);
    TableDistinct(c);
    hide Table;
    forall j | 0 <= j < |ev| && j != i ensures !Touches(ev[j], w.bank, w.reg) {
      WriteTouches(ev[j], t[j], w.bank, w.reg);
    }
    Untouched(regs, ev, (j: nat) => false, 0, |ev|, w.bank, w.reg);
    OtherSpoils(RegsAt(regs, ev, (j: nat) => false, |ev|), c, i);
  }

  /** The device is certain to be configured exactly if all 17 writes were sent and acknowledged. */
  lemma ConfigurationHoldsIff(ev: seq<Event>, c: Config)
    requires Valid(c) && |ev| <= 17 && Writes(ev, Table(c)[..|ev|])
    ensures Configured(ev, c) <==> |ev| == 17 && forall k :: 0 <= k < |ev| ==> ev[k].ok
  {
    hide Table, Configured, WriteFrame;
    if |ev| < 17 {
      MissingSpoils(ev, c, |ev|);
    } else if i :| 0 <= i < 17 && !ev[i].ok {
      MissingSpoils(ev, c, i);
    } else {
      assert Table(c)[..17] == Table(c);
      AcknowledgedConfigures(ev, c);
    }
  }

  /** Every other register is left alone, whatever arrived. */
  lemma ConfigurationTouchesNoOther(regs: Registers, ev: seq<Event>, arrived: nat -> bool, c: Config, bank: byte, reg: byte)
    requires Valid(c) && |ev| <= 17 && Writes(ev, Table(c)[..|ev|]) && !Named(bank, reg)
    ensures RegsAt(regs, ev, arrived, |ev|)(bank, reg) == regs(bank, reg)
  {
    hide Writes, WriteFrame, Touches;
    var t := Table(c)[..|ev|];
    forall k | 0 <= k < |t| ensures t[k].bank != bank || t[k].reg != reg {
      TableNames(c, k);
    }
    OthersUnchanged(regs, ev, t, arrived, bank, reg);
  }
}
