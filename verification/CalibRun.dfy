/**
 The driven calibration (src/pakon_calib.c, calib_acquire and pakon_calib_run):
 acquisition, the dark-offset loop and the gain loop, over an arbitrary device.
 A history of (setting, measurement) rounds states what each loop did.
 */
module CalibRun {
  import opened Bytes
  import opened Session
  import opened Configure
  import opened CalibMath
  import opened CalibMeasure
  import P = Proto

  const HOST_ARM: seq<byte> := [0x02, 0x04, 0x10, 0x01, 0x84, 0x02]
  const PICL_ARM: seq<byte> := [0x04, 0x03, 0x20, 0x00, 0x8a]
  const MAX_LINES := 64
  const DARK_ITERS := 8
  const GAIN_ITERS := 4
  const OFFSET_INIT := 100
  const WARMUP_BRIGHT := 30000
  const WARMUP_MAX := 2

  // ---- register writes ------------------------------------------------------------------

  /** Nothing but kicks and image reads, which write no register. */
  ghost predicate WritesNothing(ev: seq<Event>) {
    forall k :: 0 <= k < |ev| ==> ev[k].Read? || (ev[k].Framed? && |ev[k].frame| < 8)
  }

  /** Three consecutive registers of a bank hold the values. */
  ghost predicate HoldThree(r: Registers, bank: byte, first: byte, vals: seq<uint16>)
    requires |vals| == 3 && first < 0x80
  {
    r(bank, first) == vals[0] && r(bank, first + 1) == vals[1] && r(bank, first + 2) == vals[2]
  }

  /** The entries of three consecutive registers. */
  function Three(bank: byte, first: byte, vals: seq<uint16>): (t: seq<Entry>)
    requires |vals| == 3 && first < 0x80
    ensures |t| == 3
  {
    [Entry(bank, first, vals[0]), Entry(bank, first + 1, vals[1]), Entry(bank, first + 2, vals[2])]
  }

  /** The writes of three consecutive registers, in order, and nothing else. */
  ghost predicate Programs(ev: seq<Event>, bank: byte, first: byte, vals: seq<uint16>)
    requires |vals| == 3 && first < 0x80
  {
    Writes(ev, Three(bank, first, vals))
  }

  /** Write three registers, whatever the replies. */
  method WriteThree(dev: Device, bank: byte, first: byte, vals: seq<uint16>) returns (ghost ev: seq<Event>)
    requires (bank == TIMING || bank == AFE) && |vals| == 3 && first < 0x80
    modifies dev`clock, dev`trace
    ensures dev.trace == old(dev.trace) + ev && Programs(ev, bank, first, vals)
  {
    hide WriteFrame;
    var ok0, e0 := WriteRegister(dev, Entry(bank, first, vals[0]));
    var ok1, e1 := WriteRegister(dev, Entry(bank, first + 1, vals[1]));
    var ok2, e2 := WriteRegister(dev, Entry(bank, first + 2, vals[2]));
    ev := e0 + e1 + e2;
    assert ev == [e0[0], e1[0], e2[0]];
  }

  // ---- acquisition -------------------------------------------------------------------------

  /** Empty image reads since the last one with data. */
  ghost function EmptyReads(ev: seq<Event>): nat {
    if ev == [] then 0
    else match ev[|ev| - 1]
      case Read(_, _, bytes) => if bytes == [] then EmptyReads(ev[..|ev| - 1]) + 1 else 0
      case _ => EmptyReads(ev[..|ev| - 1])
  }

  /** The acquisition ended because of five empty reads in a row or a transfer error. */
  ghost predicate GaveUp(ev: seq<Event>) {
    EmptyReads(ev) >= 5 || (ev != [] && ev[|ev| - 1].Read? && ev[|ev| - 1].result.FAILED?)
  }

  predicate IsFrame(e: Event, frame: seq<byte>) {
    e.Framed? && e.frame == frame
  }

  /** Bursts of two kicks and a read of all that is missing, each only while something is missing and there is hope. */
  ghost predicate Bursts(ev: seq<Event>, want: nat) {
    ev == [] ||
    (|ev| >= 3 &&
     var n := |ev| - 3;
     Bursts(ev[..n], want) && |ImageBytes(ev[..n])| < want && !GaveUp(ev[..n]) &&
     IsFrame(ev[n], HOST_ARM) && IsFrame(ev[n + 1], PICL_ARM) &&
     ev[n + 2].Read? && ev[n + 2].want == want - |ImageBytes(ev[..n])|)
  }

  /** An acquisition of `want` bytes: bursts until all are there or the stream is given up. */
  ghost predicate Acquired(ev: seq<Event>, want: nat) {
    Bursts(ev, want) && |ImageBytes(ev)| <= want && (|ImageBytes(ev)| == want || GaveUp(ev))
  }

  /** The bytes of a burst, and what is asked for. */
  lemma BurstBytes(ev: seq<Event>, want: nat)
    requires Bursts(ev, want) && ev != []
    ensures var n := |ev| - 3;
            n >= 0 && ev[n].Framed? && ev[n].frame == [0x02, 0x04, 0x10, 0x01, 0x84, 0x02] &&
            ev[n + 1].Framed? && ev[n + 1].frame == [0x04, 0x03, 0x20, 0x00, 0x8a] &&
            ev[n + 2].Read? && ev[n + 2].want == want - |ImageBytes(ev[..n])| && Bursts(ev[..n], want)
  {
    hide ImageBytes, GaveUp;
  }

  /** The read at `k` was empty, and none after it brought data. */
  predicate EmptySince(ev: seq<Event>, k: nat) {
    k < |ev| && ev[k].Read? && forall j :: k <= j < |ev| && ev[j].Read? ==> ev[j].bytes == []
  }

  lemma EmptyBefore(ev: seq<Event>, k: nat)
    requires ev != [] && k < |ev| - 1
    ensures EmptySince(ev, k) <==> EmptySince(ev[..|ev| - 1], k) && !(ev[|ev| - 1].Read? && ev[|ev| - 1].bytes != [])
  {
    var front := ev[..|ev| - 1];
    assert forall j :: 0 <= j < |front| ==> front[j] == ev[j];
  }

  lemma EmptyMore(ev: seq<Event>)
    requires ev != []
    ensures var e := ev[|ev| - 1];
            EmptyReads(ev) ==
            if e.Read? then (if e.bytes == [] then EmptyReads(ev[..|ev| - 1]) + 1 else 0) else EmptyReads(ev[..|ev| - 1])
  {
  }

  /** The fifth empty read since the last one with data ends an acquisition, or a failed one. */
  lemma GaveUpIff(ev: seq<Event>)
    ensures GaveUp(ev) <==>
            |set k: nat | k < |ev| && EmptySince(ev, k)| >= 5 ||
            (ev != [] && ev[|ev| - 1].Read? && ev[|ev| - 1].result == FAILED)
  {
    hide EmptyReads, EmptySince;
    EmptyCounts(ev);
    assert EmptyAt(ev) == set k: nat | k < |ev| && EmptySince(ev, k);
  }

  function EmptyAt(ev: seq<Event>): set<nat> {
    set k: nat | k < |ev| && EmptySince(ev, k)
  }

  lemma EmptyStep(ev: seq<Event>)
    requires ev != []
    ensures var n := |ev| - 1;
            EmptyAt(ev) ==
            if !ev[n].Read? then EmptyAt(ev[..n]) else if ev[n].bytes == [] then EmptyAt(ev[..n]) + {n} else {}
  {
    var n := |ev| - 1;
    assert EmptySince(ev, n) <==> ev[n].Read? && ev[n].bytes == [];
    hide EmptySince;
    forall k: nat | k < n
      ensures EmptySince(ev, k) <==> EmptySince(ev[..n], k) && !(ev[n].Read? && ev[n].bytes != [])
    {
      EmptyBefore(ev, k);
    }
  }

  lemma {:induction false} EmptyCounts(ev: seq<Event>)
    ensures EmptyReads(ev) == |EmptyAt(ev)|
  {
    if ev != [] {
      var n := |ev| - 1;
      EmptyCounts(ev[..n]);
      EmptyMore(ev);
      EmptyStep(ev);
      assert n !in EmptyAt(ev[..n]);
    }
  }

  lemma BurstMore(ev: seq<Event>, want: nat, k1: Event, k2: Event, e: Event)
    requires Bursts(ev, want) && |ImageBytes(ev)| < want && !GaveUp(ev)
    requires IsFrame(k1, HOST_ARM) && IsFrame(k2, PICL_ARM) && e.Read? && e.want == want - |ImageBytes(ev)|
    ensures Bursts(ev + [k1, k2, e], want)
  {
    hide ImageBytes, GaveUp;
    assert (ev + [k1, k2, e])[..|ev|] == ev;
  }

  /** One turn adds two kicks and a read. */
  lemma Turned(ev: seq<Event>, k1: Event, k2: Event, e: Event)
    requires WritesNothing(ev) && k1.Framed? && |k1.frame| < 8 && k2.Framed? && |k2.frame| < 8 && e.Read?
    ensures WritesNothing(ev + [k1, k2, e])
    ensures ImageBytes(ev + [k1, k2, e]) == ImageBytes(ev) + e.bytes
    ensures EmptyReads(ev + [k1, k2, e]) == if e.bytes == [] then EmptyReads(ev) + 1 else 0
    ensures GaveUp(ev + [k1, k2, e]) <==> EmptyReads(ev + [k1, k2, e]) >= 5 || e.result.FAILED?
  {
    hide WritesNothing, ImageBytes, EmptyReads;
    OneEvent(ev, k1);
    OneEvent(ev + [k1], k2);
    OneEvent(ev + [k1] + [k2], e);
    assert ev + [k1, k2, e] == ev + [k1] + [k2] + [e];
  }

  lemma OneEvent(ev: seq<Event>, e: Event)
    requires WritesNothing(ev) && (e.Read? || (e.Framed? && |e.frame| < 8))
    ensures WritesNothing(ev + [e])
    ensures ImageBytes(ev + [e]) == if e.Read? then ImageBytes(ev) + e.bytes else ImageBytes(ev)
    ensures EmptyReads(ev + [e]) == if e.Framed? then EmptyReads(ev) else if e.bytes == [] then EmptyReads(ev) + 1 else 0
  {
    assert (ev + [e])[..|ev|] == ev;
  }

  /** Read up to `nlines` lines into `buf`, kicking the readout before every read. */
  method Acquire(dev: Device, nlines: nat, buf: array<byte>) returns (total: nat, ghost ev: seq<Event>)
    modifies dev`clock, dev`trace, buf
    ensures dev.trace == old(dev.trace) + ev && WritesNothing(ev)
    ensures total <= Min(nlines * LINE_BYTES, buf.Length) && buf[..total] == ImageBytes(ev)
    ensures Acquired(ev, Min(nlines * LINE_BYTES, buf.Length))
  {
    hide WritesNothing, ImageBytes, EmptyReads, Bursts, GaveUp;
    var want := nlines * LINE_BYTES;
    if want > buf.Length { want := buf.Length; }
    total, ev := 0, [];
    var empties := 0;
    NoEvents();
    while total < want
      invariant total <= want && empties <= 4
      invariant dev.trace == old(dev.trace) + ev && WritesNothing(ev)
      invariant buf[..total] == ImageBytes(ev) && empties == EmptyReads(ev)
      invariant Bursts(ev, want) && !GaveUp(ev)
      decreases want - total, 5 - empties
    {
      var ok1, s1 := dev.Command(HOST_ARM);
      var ok2, s2 := dev.Command(PICL_ARM);
      ghost var soFar := buf[..total];
      var result, got := dev.Receive(buf, total, want - total);
      ghost var e := Read(want - total, result, buf[total..total + got]);
      BurstMore(ev, want, Framed(HOST_ARM, ok1, s1), Framed(PICL_ARM, ok2, s2), e);
      Turned(ev, Framed(HOST_ARM, ok1, s1), Framed(PICL_ARM, ok2, s2), e);
      ev := ev + [Framed(HOST_ARM, ok1, s1), Framed(PICL_ARM, ok2, s2), e];
      assert buf[..total] == soFar;
      assert buf[..total + got] == buf[..total] + buf[total..total + got];
      if got > 0 {
        total, empties := total + got, 0;
      } else {
        empties := empties + 1;
        if empties > 4 { break; }
      }
      if result.FAILED? { break; }
    }
  }

  lemma NoEvents()
    ensures WritesNothing([]) && ImageBytes([]) == [] && EmptyReads([]) == 0 && !GaveUp([])
    ensures forall want :: Bursts([], want)
  {
  }

  // ---- the dark-offset loop ------------------------------------------------------------------

  /** What was programmed and what was then measured, for the channels R, G, B. */
  datatype Round = Round(setting: seq<int>, meas: seq<nat>)

  predicate RoundOk(r: Round) {
    |r.setting| == 3 && |r.meas| == 3 && forall k :: 0 <= k < 3 ==> r.meas[k] <= 0xFFFF
  }

  /** The offsets after the correction for a measurement. */
  function Corrected(r: Round): (s: seq<int>)
    requires RoundOk(r)
    ensures |s| == 3
  {
    [r.setting[0] + OffsetStep(r.meas[0]), r.setting[1] + OffsetStep(r.meas[1]), r.setting[2] + OffsetStep(r.meas[2])]
  }

  predicate AllDark(r: Round)
    requires RoundOk(r)
  {
    DarkConverged(r.meas[0]) && DarkConverged(r.meas[1]) && DarkConverged(r.meas[2])
  }

  ghost predicate RoundsOk(hist: seq<Round>) {
    forall i :: 0 <= i < |hist| ==> RoundOk(hist[i])
  }

  /** The rounds of a dark loop so far: each setting corrects the one before, and no round but the last converged. */
  ghost predicate DarkHistory(hist: seq<Round>) {
    RoundsOk(hist) && |hist| <= DARK_ITERS &&
    (hist != [] ==> hist[0].setting == [OFFSET_INIT, OFFSET_INIT, OFFSET_INIT]) &&
    (forall i {:trigger hist[i]} :: 0 < i < |hist| ==> hist[i].setting == Corrected(hist[i - 1])) &&
    (forall i :: 0 <= i < |hist| - 1 ==> !AllDark(hist[i]))
  }

  ghost predicate SomeRound(hist: seq<Round>, k: nat, ok: nat -> bool)
    requires RoundsOk(hist) && k < 3
  {
    exists i :: 0 <= i < |hist| && ok(hist[i].meas[k])
  }

  /** The outcome of the dark phase: offsets corrected once more, means as measured, flags latched. */
  ghost predicate DarkOutcome(hist: seq<Round>, offset: seq<int>, dark: seq<nat>, converged: bool) {
    DarkHistory(hist) && hist != [] &&
    (|hist| < DARK_ITERS ==> AllDark(hist[|hist| - 1])) &&
    offset == Corrected(hist[|hist| - 1]) && dark == hist[|hist| - 1].meas &&
    (converged <==> forall k :: 0 <= k < 3 ==> SomeRound(hist, k, DarkConverged))
  }

  function EncThree(offset: seq<int>): (v: seq<uint16>)
    requires |offset| == 3
    ensures |v| == 3
  {
    [EncOffset(offset[0]), EncOffset(offset[1]), EncOffset(offset[2])]
  }

  /** What a buffer filled with `bytes` measures. */
  ghost predicate MeasuredFrom(bytes: seq<byte>, col0: nat, col1: nat, mean: seq<nat>, peak: seq<uint16>) {
    exists raw :: bytes <= raw && Measured(raw, |bytes|, col0, col1, mean, peak)
  }

  /** What was acquired, how much of it, and which columns are measured. */
  datatype Window = Window(want: nat, col0: nat, col1: nat)

  /** The three registers are programmed, then `win.want` bytes are acquired, and these measure `mean` and `peak`. */
  ghost predicate Took(turn: seq<Event>, first: byte, vals: seq<uint16>, win: Window, mean: seq<nat>, peak: seq<uint16>)
    requires |vals| == 3 && first < 0x80
  {
    |turn| >= 3 && Programs(turn[..3], AFE, first, vals) && WritesNothing(turn[3..]) && Acquired(turn[3..], win.want) &&
    MeasuredFrom(ImageBytes(turn[3..]), win.col0, win.col1, mean, peak)
  }

  /** The events of one round: of the dark loop, which looks at the means, or of the gain loop, which looks at the peaks. */
  ghost predicate RoundEvents(dark: bool, turn: seq<Event>, r: Round, win: Window) {
    RoundOk(r) &&
    if dark then exists peak :: Took(turn, 5, EncThree(r.setting), win, r.meas, peak)
    else exists mean :: Took(turn, 2, GainThree(r.setting), win, mean, r.meas)
  }

  /** The events of the rounds of a loop, after `start`. */
  ghost predicate LoopEvents(dark: bool, start: seq<Event>, ev: seq<Event>, hist: seq<Round>, win: Window)
    decreases |hist|
  {
    if hist == [] then ev == start
    else
      var n := |hist| - 1;
      exists m :: 0 <= m <= |ev| && LoopEvents(dark, start, ev[..m], hist[..n], win) && RoundEvents(dark, ev[m..], hist[n], win)
  }

  lemma LoopMore(dark: bool, start: seq<Event>, ev: seq<Event>, hist: seq<Round>, win: Window, turn: seq<Event>, r: Round)
    requires LoopEvents(dark, start, ev, hist, win) && RoundEvents(dark, turn, r, win)
    ensures LoopEvents(dark, start, ev + turn, hist + [r], win)
  {
    hide RoundEvents;
    var all, more := ev + turn, hist + [r];
    assert more[..|hist|] == hist && more[|hist|] == r;
    assert all[..|ev|] == ev && all[|ev|..] == turn;
  }

  lemma LastTurn(dark: bool, start: seq<Event>, ev: seq<Event>, hist: seq<Round>, win: Window) returns (m: nat)
    requires hist != [] && LoopEvents(dark, start, ev, hist, win)
    ensures m <= |ev| && RoundEvents(dark, ev[m..], hist[|hist| - 1], win)
    ensures LoopEvents(dark, start, ev[..m], hist[..|hist| - 1], win)
  {
    hide RoundEvents;
    var n := |hist| - 1;
    m :| 0 <= m <= |ev| && LoopEvents(dark, start, ev[..m], hist[..n], win) && RoundEvents(dark, ev[m..], hist[n], win);
  }

  // ---- what the registers hold while a round acquires ---------------------------------------

  /** The first register a loop varies, and the values a round gives it and the next two. */
  function FirstOf(dark: bool): (first: byte)
    ensures first < 0x80
  {
    if dark then 5 else 2
  }

  function ValuesOf(dark: bool, setting: seq<int>): (vals: seq<uint16>)
    requires |setting| == 3
    ensures |vals| == 3
  {
    if dark then EncThree(setting) else GainThree(setting)
  }

  /** At every image read, and at the end, the three registers hold the values, whatever they held and whatever arrived. */
  ghost predicate HeldAtReads(ev: seq<Event>, first: byte, vals: seq<uint16>)
    requires |vals| == 3 && first < 0x80
  {
    forall regs: Registers, arrived: nat -> bool, k: nat :: k <= |ev| && (k == |ev| || ev[k].Read?) ==>
      HoldThree(RegsAt(regs, ev, arrived, k), AFE, first, vals)
  }

  predicate ThreeAcknowledged(ev: seq<Event>) {
    |ev| >= 3 && (forall j :: 0 <= j < 3 ==> ev[j].Framed? && ev[j].ok)
  }

  /** Nothing after the first three events writes any of three registers. */
  ghost predicate WrittenFirst(ev: seq<Event>, first: byte)
    requires first < 0x80
  {
    forall j, r: byte :: 3 <= j < |ev| && first <= r < first + 3 ==> !Touches(ev[j], AFE, r)
  }

  lemma WriteOfThree(ev: seq<Event>, first: byte, vals: seq<uint16>, i: nat)
    requires |vals| == 3 && first < 0x80 && |ev| >= 3 && Programs(ev[..3], AFE, first, vals) && i < 3
    requires WrittenFirst(ev, first)
    ensures IsWrite(ev[i], Three(AFE, first, vals)[i])
    ensures forall j :: 0 <= j < |ev| && j != i ==> !Touches(ev[j], AFE, first + i)
  {
    hide WriteFrame, Touches;
    var t := Three(AFE, first, vals);
    assert forall j :: 0 <= j < 3 ==> ev[..3][j] == ev[j];
    forall j | 0 <= j < |ev| && j != i ensures !Touches(ev[j], AFE, first + i) {
      if j < 3 {
        WriteTouches(ev[j], t[j], AFE, first + i);
      }
    }
  }

  /** If the three writes were acknowledged, no read sees another value. */
  lemma AcknowledgedHeld(ev: seq<Event>, first: byte, vals: seq<uint16>)
    requires |vals| == 3 && first < 0x80 && |ev| >= 3 && Programs(ev[..3], AFE, first, vals) && WrittenFirst(ev, first)
    requires ThreeAcknowledged(ev)
    ensures HeldAtReads(ev, first, vals)
  {
    hide WriteFrame, Touches, Certain, WrittenFirst, Programs;
    var t := Three(AFE, first, vals);
    forall regs: Registers, arrived: nat -> bool, k: nat | k <= |ev| && (k == |ev| || ev[k].Read?)
      ensures HoldThree(RegsAt(regs, ev, arrived, k), AFE, first, vals)
    {
      forall i | 0 <= i < 3 ensures RegsAt(regs, ev, arrived, k)(AFE, first + i) == vals[i] {
        WriteOfThree(ev, first, vals, i);
        WriteLands(regs, ev, arrived, i, t[i]);
        Untouched(regs, ev, arrived, i + 1, k, AFE, first + i);
      }
      assert RegsAt(regs, ev, arrived, k)(AFE, first + 0) == vals[0];
    }
  }

  /** If one of them failed, it may have been lost, and every later read may see the old value. */
  lemma FailedNotHeld(ev: seq<Event>, first: byte, vals: seq<uint16>, i: nat, k: nat)
    requires |vals| == 3 && first < 0x80 && |ev| >= 3 && Programs(ev[..3], AFE, first, vals) && WrittenFirst(ev, first)
    requires i < 3 && 3 <= k <= |ev| && !ThreeAcknowledged(ev) && ev[i].Framed? && !ev[i].ok
    ensures exists regs: Registers, arrived: nat -> bool :: !HoldThree(RegsAt(regs, ev, arrived, k), AFE, first, vals)
  {
    hide WriteFrame, Touches, WrittenFirst, Programs;
    var was := Other(vals[i]);
    WriteOfThree(ev, first, vals, i);
    LostWrite(ev, i, k, Three(AFE, first, vals)[i], was);
    var r := RegsAt((b: byte, r: byte) => was, ev, (j: nat) => false, k);
    assert r(AFE, first + i) == was;
    assert !HoldThree(r, AFE, first, vals);
  }

  lemma WritesAreFramed(ev: seq<Event>, first: byte, vals: seq<uint16>)
    requires |vals| == 3 && first < 0x80 && |ev| >= 3 && Programs(ev[..3], AFE, first, vals)
    ensures forall j :: 0 <= j < 3 ==> ev[j].Framed?
  {
    hide WriteFrame;
    assert forall j :: 0 <= j < 3 ==> ev[..3][j] == ev[j];
  }

  lemma TurnOf(dark: bool, turn: seq<Event>, r: Round, win: Window)
    requires RoundEvents(dark, turn, r, win)
    ensures RoundOk(r) && |turn| >= 3 && Programs(turn[..3], AFE, FirstOf(dark), ValuesOf(dark, r.setting))
    ensures WritesNothing(turn[3..]) && Acquired(turn[3..], win.want)
  {
    hide Acquired, MeasuredFrom, WritesNothing, Programs;
  }

  /**
   The bytes of a round's writes: registers 5 to 7 of bank 0x84 for the offsets, as a
   sign bit and a magnitude of at most 255, or 2 to 4 for the gains, 0 to 63.
   */
  lemma RoundBytes(dark: bool, turn: seq<Event>, r: Round, win: Window, k: nat)
    requires RoundEvents(dark, turn, r, win) && k < 3
    ensures RoundOk(r) && |turn| >= 3 && turn[k].Framed?
    ensures var s := r.setting[k];
            var v := if !dark then Max(0, Min(63, s)) else if s < 0 then 256 + Min(255, -s) else Min(255, s);
            turn[k].frame == [0x02, 0x06, 0x24, 0x03, 0x84, (if dark then 5 else 2) + k, v % 256, v / 256]
  {
    TurnOf(dark, turn, r, win);
    hide RoundEvents, WriteFrame, EncOffset, EncGain, Acquired;
    var w := Three(AFE, FirstOf(dark), ValuesOf(dark, r.setting))[k];
    assert turn[..3][k] == turn[k];
    WriteBytes(w);
    FieldValues(r.setting[k]);
  }

  lemma QuietAfterThree(turn: seq<Event>, first: byte)
    requires |turn| >= 3 && WritesNothing(turn[3..]) && first < 0x80
    ensures WrittenFirst(turn, first)
  {
    assert forall j :: 3 <= j < |turn| ==> turn[3..][j - 3] == turn[j];
  }

  /**
   At every image read of a round, and at its end, the registers hold the round's
   setting, whatever they held before and whichever failed commands arrived,
   exactly if its three writes were acknowledged.
   */
  lemma HeldInRoundIff(dark: bool, turn: seq<Event>, r: Round, win: Window)
    requires RoundEvents(dark, turn, r, win)
    ensures HeldAtReads(turn, FirstOf(dark), ValuesOf(dark, r.setting)) <==> ThreeAcknowledged(turn)
  {
    hide RoundEvents, WriteFrame, Acquired, WritesNothing, WrittenFirst, FirstOf, ValuesOf, Programs, HoldThree;
    TurnOf(dark, turn, r, win);
    var first, vals := FirstOf(dark), ValuesOf(dark, r.setting);
    QuietAfterThree(turn, first);
    WritesAreFramed(turn, first, vals);
    if ThreeAcknowledged(turn) {
      AcknowledgedHeld(turn, first, vals);
    } else {
      var i :| 0 <= i < 3 && !turn[i].ok;
      FailedNotHeld(turn, first, vals, i, |turn|);
    }
  }

  /** So the reported measurement is taken at the last setting if that round's writes were acknowledged. */
  lemma LastRoundHeld(dark: bool, start: seq<Event>, ev: seq<Event>, hist: seq<Round>, win: Window,
                      regs: Registers, arrived: nat -> bool, k: nat)
    returns (m: nat)
    requires LoopEvents(dark, start, ev, hist, win) && hist != []
    ensures m <= |ev| && RoundEvents(dark, ev[m..], hist[|hist| - 1], win)
    ensures ThreeAcknowledged(ev[m..]) && m <= k < |ev| && ev[k].Read? ==>
              HoldThree(RegsAt(regs, ev, arrived, k), AFE, FirstOf(dark), ValuesOf(dark, hist[|hist| - 1].setting))
  {
    m := LastTurn(dark, start, ev, hist, win);
    hide RoundEvents, LoopEvents, FirstOf, ValuesOf, HoldThree, HeldAtReads, ThreeAcknowledged;
    var turn, r := ev[m..], hist[|hist| - 1];
    TurnOf(dark, turn, r, win);
    HeldInRoundIff(dark, turn, r, win);
    if ThreeAcknowledged(turn) && m <= k < |ev| && ev[k].Read? {
      HeldInSuffix(ev, m, FirstOf(dark), ValuesOf(dark, r.setting), regs, arrived, k);
    }
  }

  lemma HeldInSuffix(ev: seq<Event>, m: nat, first: byte, vals: seq<uint16>, regs: Registers, arrived: nat -> bool, k: nat)
    requires |vals| == 3 && first < 0x80 && m <= k < |ev| && ev[k].Read? && HeldAtReads(ev[m..], first, vals)
    ensures HoldThree(RegsAt(regs, ev, arrived, k), AFE, first, vals)
  {
    hide HoldThree;
    RegsAtSuffix(regs, ev, arrived, m, k - m);
    assert ev[m..][k - m] == ev[k];
  }

  lemma OffsetWritesLeaveGain(turn: seq<Event>, r: Round, win: Window, j: nat, reg: byte)
    requires RoundEvents(true, turn, r, win) && j < |turn| && reg < 5
    ensures !Touches(turn[j], AFE, reg)
  {
    hide RoundEvents, WriteFrame, Acquired, Touches, EncThree;
    TurnOf(true, turn, r, win);
    if j < 3 {
      assert turn[..3][j] == turn[j];
      WriteTouches(turn[j], Three(AFE, 5, EncThree(r.setting))[j], AFE, reg);
    } else {
      assert turn[3..][j - 3] == turn[j];
      QuietTouchesNothing(turn[j], AFE, reg);
    }
  }

  lemma QuietTouchesNothing(e: Event, bank: byte, reg: byte)
    requires e.Read? || (e.Framed? && |e.frame| < 8)
    ensures !Touches(e, bank, reg)
  {
  }

  lemma {:induction false} LoopLeavesGain(start: seq<Event>, ev: seq<Event>, hist: seq<Round>, win: Window)
    requires LoopEvents(true, start, ev, hist, win)
    ensures start <= ev && forall j, reg: byte :: |start| <= j < |ev| && reg < 5 ==> !Touches(ev[j], AFE, reg)
    decreases |hist|
  {
    hide RoundEvents, Touches;
    if hist != [] {
      var n := |hist| - 1;
      var m := LastTurn(true, start, ev, hist, win);
      LoopLeavesGain(start, ev[..m], hist[..n], win);
      forall j, reg: byte | |start| <= j < |ev| && reg < 5 ensures !Touches(ev[j], AFE, reg) {
        if j < m {
          assert ev[..m][j] == ev[j];
        } else {
          assert ev[m..][j - m] == ev[j];
          OffsetWritesLeaveGain(ev[m..], hist[n], win, j - m, reg);
        }
      }
    }
  }

  /** A round of at least one byte reads the image. */
  lemma SomeRead(ev: seq<Event>, want: nat)
    requires Acquired(ev, want) && want > 0
    ensures ev != [] && ev[|ev| - 1].Read?
  {
    hide ImageBytes;
    if ev == [] {
      NoEvents();
    }
  }

  lemma LoopReads(dark: bool, start: seq<Event>, ev: seq<Event>, hist: seq<Round>, win: Window)
    requires LoopEvents(dark, start, ev, hist, win) && hist != [] && win.want > 0
    ensures ev != [] && ev[|ev| - 1].Read?
  {
    hide RoundEvents, LoopEvents, Acquired, WritesNothing, Programs;
    var m := LastTurn(dark, start, ev, hist, win);
    var turn := ev[m..];
    TurnOf(dark, turn, hist[|hist| - 1], win);
    SomeRead(turn[3..], win.want);
    assert turn[3..][|turn| - 4] == turn[|turn| - 1] == ev[|ev| - 1];
  }

  /** At every image read of the dark phase all three gains are zero, whatever they were and whatever arrived. */
  ghost predicate GainZeroAtReads(ev: seq<Event>) {
    forall regs: Registers, arrived: nat -> bool, k: nat :: k < |ev| && ev[k].Read? ==>
      HoldThree(RegsAt(regs, ev, arrived, k), AFE, 2, [0, 0, 0])
  }

  /** This is so exactly if the three gain writes at its start were acknowledged. */
  lemma DarkAtGainZeroIff(ev: seq<Event>, hist: seq<Round>, win: Window)
    requires DarkEvents(ev, hist, win) && hist != [] && win.want > 0
    ensures GainZeroAtReads(ev) <==> ThreeAcknowledged(ev)
  {
    hide LoopEvents, WriteFrame, Programs, HoldThree, Touches;
    var start :| Programs(start, AFE, 2, [0, 0, 0]) && LoopEvents(true, start, ev, hist, win);
    var vals: seq<uint16> := [0, 0, 0];
    LoopLeavesGain(start, ev, hist, win);
    LoopReads(true, start, ev, hist, win);
    ProgramsLength(start, 2, vals);
    assert ev[..3] == start;
    WritesAreFramed(ev, 2, vals);
    assert WrittenFirst(ev, 2);
    if ThreeAcknowledged(ev) {
      AcknowledgedHeld(ev, 2, vals);
    } else {
      var i :| 0 <= i < 3 && !ev[i].ok;
      FailedNotHeld(ev, 2, vals, i, |ev| - 1);
    }
  }

  lemma ProgramsLength(ev: seq<Event>, first: byte, vals: seq<uint16>)
    requires |vals| == 3 && first < 0x80 && Programs(ev, AFE, first, vals)
    ensures |ev| == 3
  {
  }

  /** Program three settings and measure. */
  method ProgramAndMeasure(dev: Device, first: byte, vals: seq<uint16>, nlines: nat, col0: nat, col1: nat, buf: array<byte>)
    returns (mean: seq<nat>, peak: seq<uint16>, ghost ev: seq<Event>)
    requires |vals| == 3 && first < 0x80
    modifies dev`clock, dev`trace, buf
    ensures dev.trace == old(dev.trace) + ev
    ensures |mean| == 3 && |peak| == 3 && forall k :: 0 <= k < 3 ==> mean[k] <= peak[k] <= 0xFFFF
    ensures Took(ev, first, vals, Window(Min(nlines * LINE_BYTES, buf.Length), col0, col1), mean, peak)
  {
    hide Measured, Acquired, WritesNothing, ImageBytes;
    var writes := WriteThree(dev, AFE, first, vals);
    var got, rest := Acquire(dev, nlines, buf);
    mean, peak := Measure(buf, got, col0, col1);
    MeasuredRange(buf[..], got, col0, col1, mean, peak);
    assert ImageBytes(rest) <= buf[..];
    ev := writes + rest;
    assert ev[..3] == writes && ev[3..] == rest;
  }

  /** Phase 1: the gain is zero; correct the offsets until the dark means are on target. */
  method DarkPhase(dev: Device, nlines: nat, col0: nat, col1: nat, buf: array<byte>)
    returns (offset: seq<int>, dark: seq<nat>, converged: bool, ghost hist: seq<Round>, ghost ev: seq<Event>)
    modifies dev`clock, dev`trace, buf
    ensures dev.trace == old(dev.trace) + ev
    ensures DarkOutcome(hist, offset, dark, converged)
    ensures DarkEvents(ev, hist, Window(Min(nlines * LINE_BYTES, buf.Length), col0, col1))
  {
    hide Programs, LoopEvents, Took, EncThree, DarkConverged, OffsetStep, DarkHistory, Latched, SomeRound;
    ghost var win := Window(Min(nlines * LINE_BYTES, buf.Length), col0, col1);
    ev := WriteThree(dev, AFE, 2, [EncGain(0), EncGain(0), EncGain(0)]);
    ghost var start := ev;
    offset, dark := [OFFSET_INIT, OFFSET_INIT, OFFSET_INIT], [0, 0, 0];
    var conv := [false, false, false];
    hist := [];
    var it, all := 0, false;
    NoRounds(DarkConverged);
    NoTurns(true, start, win);
    while it < DARK_ITERS && !all
      invariant it == |hist| <= DARK_ITERS && |conv| == 3 && |offset| == 3 && RoundsOk(hist)
      invariant dev.trace == old(dev.trace) + ev && LoopEvents(true, start, ev, hist, win)
      invariant DarkHistory(hist) && all == (hist != [] && AllDark(hist[|hist| - 1]))
      invariant offset == NextOffsets(hist)
      invariant hist != [] ==> dark == hist[|hist| - 1].meas
      invariant Latched(hist, conv, DarkConverged)
    {
      var mean, peak, more := ProgramAndMeasure(dev, 5, EncThree(offset), nlines, col0, col1, buf);
      ghost var r := Round(offset, mean);
      LoopMore(true, start, ev, hist, win, more, r);
      all := DarkConverged(mean[0]) && DarkConverged(mean[1]) && DarkConverged(mean[2]);
      LatchMore(hist, conv, r, DarkConverged);
      DarkMore(hist, r);
      conv := [conv[0] || DarkConverged(mean[0]), conv[1] || DarkConverged(mean[1]), conv[2] || DarkConverged(mean[2])];
      offset := [offset[0] + OffsetStep(mean[0]), offset[1] + OffsetStep(mean[1]), offset[2] + OffsetStep(mean[2])];
      dark := mean;
      hist, ev := hist + [r], ev + more;
      it := it + 1;
    }
    converged := conv[0] && conv[1] && conv[2];
    FlagsSay(hist, conv, DarkConverged);
  }

  lemma NoTurns(dark: bool, start: seq<Event>, win: Window)
    ensures LoopEvents(dark, start, start, [], win)
  {
  }

  /** The events of the dark phase: all gains to zero, then the rounds. */
  ghost predicate DarkEvents(ev: seq<Event>, hist: seq<Round>, win: Window) {
    exists start :: Programs(start, AFE, 2, [0, 0, 0]) && LoopEvents(true, start, ev, hist, win)
  }

  /** The offsets to program next. */
  ghost function NextOffsets(hist: seq<Round>): seq<int>
    requires RoundsOk(hist)
  {
    if hist == [] then [OFFSET_INIT, OFFSET_INIT, OFFSET_INIT] else Corrected(hist[|hist| - 1])
  }

  lemma NoRounds(ok: nat -> bool)
    ensures DarkHistory([]) && Latched([], [false, false, false], ok)
  {
  }

  lemma DarkMore(hist: seq<Round>, r: Round)
    requires DarkHistory(hist) && |hist| < DARK_ITERS && (hist != [] ==> !AllDark(hist[|hist| - 1]))
    requires RoundOk(r) && r.setting == NextOffsets(hist)
    ensures DarkHistory(hist + [r]) && RoundsOk(hist + [r]) && (hist + [r])[|hist|] == r
  {
    hide AllDark, Corrected;
    var more := hist + [r];
    assert forall i :: 0 <= i < |hist| ==> more[i] == hist[i];
    assert more[|hist|] == r;
  }

  lemma FlagsSay(hist: seq<Round>, conv: seq<bool>, ok: nat -> bool)
    requires Latched(hist, conv, ok)
    ensures conv[0] && conv[1] && conv[2] <==> forall k :: 0 <= k < 3 ==> SomeRound(hist, k, ok)
  {
    hide SomeRound;
    assert conv[0] <==> SomeRound(hist, 0, ok);
    assert conv[1] <==> SomeRound(hist, 1, ok);
    assert conv[2] <==> SomeRound(hist, 2, ok);
  }

  /** A flag is set iff some round was within tolerance. */
  ghost predicate Latched(hist: seq<Round>, conv: seq<bool>, ok: nat -> bool) {
    |conv| == 3 && RoundsOk(hist) && forall k :: 0 <= k < 3 ==> (conv[k] <==> SomeRound(hist, k, ok))
  }

  lemma LatchMore(hist: seq<Round>, conv: seq<bool>, r: Round, ok: nat -> bool)
    requires Latched(hist, conv, ok) && RoundOk(r)
    ensures Latched(hist + [r], [conv[0] || ok(r.meas[0]), conv[1] || ok(r.meas[1]), conv[2] || ok(r.meas[2])], ok)
  {
    var more := hist + [r];
    forall k | 0 <= k < 3 ensures SomeRound(more, k, ok) <==> SomeRound(hist, k, ok) || ok(r.meas[k]) {
      if SomeRound(hist, k, ok) {
        var i :| 0 <= i < |hist| && ok(hist[i].meas[k]);
        assert more[i] == hist[i];
      }
      assert more[|hist|] == r;
    }
  }

  // ---- the gain loop ---------------------------------------------------------------------------

  /** The gains to program after a round. */
  function Regained(r: Round): (g: seq<int>)
    requires RoundOk(r)
    ensures |g| == 3
  {
    [ GainNext(GainFactor(r.setting[0]), r.meas[0]),
      GainNext(GainFactor(r.setting[1]), r.meas[1]),
      GainNext(GainFactor(r.setting[2]), r.meas[2]) ]
  }

  predicate AllWhite(r: Round)
    requires RoundOk(r)
  {
    WhiteConverged(r.meas[0]) && WhiteConverged(r.meas[1]) && WhiteConverged(r.meas[2])
  }

  ghost predicate GainHistory(hist: seq<Round>) {
    RoundsOk(hist) && |hist| <= GAIN_ITERS &&
    (hist != [] ==> hist[0].setting == [0, 0, 0]) &&
    (forall i {:trigger hist[i]} :: 0 < i < |hist| ==> hist[i].setting == Regained(hist[i - 1])) &&
    (forall i :: 0 <= i < |hist| - 1 ==> !AllWhite(hist[i]))
  }

  /** The outcome of the gain phase: the gains that were in force for the reported peaks. */
  ghost predicate GainOutcome(hist: seq<Round>, gain: seq<int>, white: seq<nat>, converged: bool) {
    GainHistory(hist) && hist != [] &&
    (|hist| < GAIN_ITERS ==> AllWhite(hist[|hist| - 1])) &&
    gain == hist[|hist| - 1].setting && white == hist[|hist| - 1].meas &&
    (converged <==> forall k :: 0 <= k < 3 ==> SomeRound(hist, k, WhiteConverged))
  }

  function GainThree(gain: seq<int>): (v: seq<uint16>)
    requires |gain| == 3
    ensures |v| == 3
  {
    [EncGain(gain[0]), EncGain(gain[1]), EncGain(gain[2])]
  }

  /** The gains to program next. */
  ghost function NextGains(hist: seq<Round>): seq<int>
    requires RoundsOk(hist)
  {
    if hist == [] then [0, 0, 0] else Regained(hist[|hist| - 1])
  }

  lemma NoGainRounds(ok: nat -> bool)
    ensures GainHistory([]) && Latched([], [false, false, false], ok) && GainFactor(0) == 1.0
  {
  }

  lemma GainMore(hist: seq<Round>, r: Round)
    requires GainHistory(hist) && |hist| < GAIN_ITERS && (hist != [] ==> !AllWhite(hist[|hist| - 1]))
    requires RoundOk(r) && r.setting == NextGains(hist)
    ensures GainHistory(hist + [r]) && RoundsOk(hist + [r]) && (hist + [r])[|hist|] == r
  {
    hide AllWhite, Regained;
    var more := hist + [r];
    assert forall i :: 0 <= i < |hist| ==> more[i] == hist[i];
    assert more[|hist|] == r;
  }

  function Top(peak: seq<uint16>): nat
    requires |peak| == 3
  {
    Max(Max(peak[0], peak[1]), peak[2])
  }

  /** One acquisition, and a second if the first was not bright. */
  ghost predicate WarmupEvents(ev: seq<Event>, win: Window) {
    exists m, mean, peak :: 0 <= m <= |ev| && |peak| == 3 &&
      Acquired(ev[..m], win.want) && MeasuredFrom(ImageBytes(ev[..m]), win.col0, win.col1, mean, peak) &&
      if Top(peak) >= WARMUP_BRIGHT then m == |ev| else Acquired(ev[m..], win.want)
  }

  /** Discard up to two acquisitions until the light is up; the last measured peak. */
  method Warmup(dev: Device, nlines: nat, buf: array<byte>, col0: nat, col1: nat) returns (best: nat, ghost ev: seq<Event>)
    modifies dev`clock, dev`trace, buf
    ensures dev.trace == old(dev.trace) + ev && WritesNothing(ev)
    ensures WarmupEvents(ev, Window(Min(nlines * LINE_BYTES, buf.Length), col0, col1))
  {
    hide Measured, Acquired, ImageBytes;
    ghost var win := Window(Min(nlines * LINE_BYTES, buf.Length), col0, col1);
    best, ev := 0, [];
    var w := 0;
    while w < WARMUP_MAX
      invariant w <= 2 && (w == 0 ==> ev == [])
      invariant dev.trace == old(dev.trace) + ev && WritesNothing(ev)
      invariant w == 1 ==> Dim(ev, win)
      invariant w == 2 ==> WarmupEvents(ev, win)
    {
      var got, more := Acquire(dev, nlines, buf);
      var mean, peak := Measure(buf, got, col0, col1);
      assert ImageBytes(more) <= buf[..];
      assert MeasuredFrom(ImageBytes(more), col0, col1, mean, peak);
      WarmupMore(w, ev, more, win, mean, peak);
      ev := ev + more;
      best := Max(Max(peak[0], peak[1]), peak[2]);
      if best >= WARMUP_BRIGHT { break; }
      w := w + 1;
    }
  }

  /** One acquisition that was not bright. */
  ghost predicate Dim(ev: seq<Event>, win: Window) {
    Acquired(ev, win.want) &&
    exists mean, peak :: |peak| == 3 && MeasuredFrom(ImageBytes(ev), win.col0, win.col1, mean, peak) && Top(peak) < WARMUP_BRIGHT
  }

  lemma WarmupMore(w: nat, ev: seq<Event>, more: seq<Event>, win: Window, mean: seq<nat>, peak: seq<uint16>)
    requires w < 2 && (w == 0 ==> ev == []) && (w == 1 ==> Dim(ev, win))
    requires Acquired(more, win.want) && |peak| == 3 && MeasuredFrom(ImageBytes(more), win.col0, win.col1, mean, peak)
    ensures w == 0 && Top(peak) < WARMUP_BRIGHT ==> Dim(ev + more, win)
    ensures w == 1 || Top(peak) >= WARMUP_BRIGHT ==> WarmupEvents(ev + more, win)
  {
    hide Acquired, MeasuredFrom, ImageBytes;
    var all := ev + more;
    if w == 0 {
      assert all == more && all[..|more|] == more;
    } else {
      assert all[..|ev|] == ev && all[|ev|..] == more;
    }
  }

  /** The C conversion of an unsigned int to an int. */
  function CInt(u: nat): int {
    var m := u % 0x1_0000_0000;
    if m >= 0x8000_0000 then m - 0x1_0000_0000 else m
  }

  /** The start of the gain phase: exposure and control are programmed, and then the lamp is warmed up. */
  ghost predicate GainStart(start: seq<Event>, exposure: nat, win: Window) {
    var e := EncExposure(CInt(exposure));
    |start| >= 4 && Programs(start[..3], TIMING, 1, [e, e, e]) && Writes(start[3..4], [Entry(TIMING, 0, 0x0161)]) &&
    WarmupEvents(start[4..], win)
  }

  /** The bytes of the start: the exposure in registers 1 to 3 of bank 0x82, 0 to 4095, and 0x0161 in register 0. */
  lemma GainStartBytes(start: seq<Event>, exposure: nat, win: Window, k: nat)
    requires GainStart(start, exposure, win) && k < 3
    ensures var u := exposure % 0x1_0000_0000;
            var e := if u >= 0x8000_0000 then 0 else Min(4095, u);
            |start| >= 4 && start[k].Framed? && start[3].Framed? &&
            start[k].frame == [0x02, 0x06, 0x24, 0x03, 0x82, 1 + k, e % 256, e / 256] &&
            start[3].frame == [0x02, 0x06, 0x24, 0x03, 0x82, 0, 0x61, 0x01]
  {
    hide WriteFrame, WarmupEvents, EncExposure;
    var e := EncExposure(CInt(exposure));
    FieldValues(CInt(exposure));
    var w := Three(TIMING, 1, [e, e, e])[k];
    assert start[..3][k] == start[k] && start[3..4][0] == start[3];
    WriteBytes(w);
    WriteBytes(Entry(TIMING, 0, 0x0161));
  }

  /** The lamp counts as warm once some channel peaks at 30000 or more. */
  lemma LampIsWarmIff(peak: seq<uint16>)
    requires |peak| == 3
    ensures Top(peak) >= WARMUP_BRIGHT <==> exists k :: 0 <= k < 3 && peak[k] >= 30000
  {
    assert Top(peak) == peak[0] || Top(peak) == peak[1] || Top(peak) == peak[2];
  }

  /** The events of the gain phase. */
  ghost predicate GainEvents(ev: seq<Event>, hist: seq<Round>, exposure: nat, win: Window) {
    exists start :: GainStart(start, exposure, win) && LoopEvents(false, start, ev, hist, win)
  }

  /** Exposure, control, warm-up. */
  method PrepareGain(dev: Device, nlines: nat, col0: nat, col1: nat, exposure: nat, buf: array<byte>)
    returns (ghost ev: seq<Event>)
    modifies dev`clock, dev`trace, buf
    ensures dev.trace == old(dev.trace) + ev
    ensures GainStart(ev, exposure, Window(Min(nlines * LINE_BYTES, buf.Length), col0, col1))
  {
    hide WarmupEvents, WriteFrame;
    var e := EncExposure(CInt(exposure));
    ghost var e1 := WriteThree(dev, TIMING, 1, [e, e, e]);
    var ok, e2 := WriteRegister(dev, Entry(TIMING, 0, 0x0161));
    var warm, e3 := Warmup(dev, nlines, buf, col0, col1);
    ev := e1 + e2 + e3;
    assert ev[..3] == e1 && ev[3..4] == e2 && ev[4..] == e3;
  }

  /** Phase 2: fixed exposure and control, warm-up, then raise the gains until the peaks are on target. */
  method GainPhase(dev: Device, nlines: nat, col0: nat, col1: nat, exposure: nat, buf: array<byte>)
    returns (gain: seq<int>, white: seq<nat>, converged: bool, ghost hist: seq<Round>, ghost ev: seq<Event>)
    modifies dev`clock, dev`trace, buf
    ensures dev.trace == old(dev.trace) + ev
    ensures GainOutcome(hist, gain, white, converged)
    ensures GainEvents(ev, hist, exposure, Window(Min(nlines * LINE_BYTES, buf.Length), col0, col1))
  {
    hide Programs, LoopEvents, Took, GainStart, GainThree, WhiteConverged, GainHistory, Latched, SomeRound, GainFactor, GainNext;
    ghost var win := Window(Min(nlines * LINE_BYTES, buf.Length), col0, col1);
    ev := PrepareGain(dev, nlines, col0, col1, exposure, buf);
    ghost var start := ev;
    gain, white := [0, 0, 0], [0, 0, 0];
    var factor := [1.0, 1.0, 1.0];
    var next := [0, 0, 0];
    var conv := [false, false, false];
    hist := [];
    var it, all := 0, false;
    NoGainRounds(WhiteConverged);
    NoTurns(false, start, win);
    while it < GAIN_ITERS && !all
      invariant it == |hist| <= GAIN_ITERS && |conv| == 3 && |next| == 3 && RoundsOk(hist)
      invariant dev.trace == old(dev.trace) + ev && LoopEvents(false, start, ev, hist, win)
      invariant GainHistory(hist) && all == (hist != [] && AllWhite(hist[|hist| - 1]))
      invariant !all ==> next == NextGains(hist)
      invariant factor == [GainFactor(next[0]), GainFactor(next[1]), GainFactor(next[2])]
      invariant hist != [] ==> gain == hist[|hist| - 1].setting && white == hist[|hist| - 1].meas
      invariant Latched(hist, conv, WhiteConverged)
    {
      var mean, peak, more := ProgramAndMeasure(dev, 2, GainThree(next), nlines, col0, col1, buf);
      ghost var r := Round(next, peak);
      LoopMore(false, start, ev, hist, win, more, r);
      all := WhiteConverged(peak[0]) && WhiteConverged(peak[1]) && WhiteConverged(peak[2]);
      LatchMore(hist, conv, r, WhiteConverged);
      GainMore(hist, r);
      conv := [conv[0] || WhiteConverged(peak[0]), conv[1] || WhiteConverged(peak[1]), conv[2] || WhiteConverged(peak[2])];
      white, gain := peak, next;
      hist, ev := hist + [r], ev + more;
      if !all {
        next := [GainNext(factor[0], peak[0]), GainNext(factor[1], peak[1]), GainNext(factor[2], peak[2])];
        factor := [GainFactor(next[0]), GainFactor(next[1]), GainFactor(next[2])];
      }
      it := it + 1;
    }
    converged := conv[0] && conv[1] && conv[2];
    FlagsSay(hist, conv, WhiteConverged);
  }

  // ---- the whole calibration ---------------------------------------------------------------------

  /** The caller's result record. */
  class CalibResult {
    var gain: seq<int>
    var offset: seq<int>
    var dark: seq<nat>
    var white: seq<nat>
    var offsetConverged: bool
    var gainConverged: bool

    constructor ()
      ensures gain == [0, 0, 0] && offset == [0, 0, 0]
    {
      gain, offset, dark, white := [0, 0, 0], [0, 0, 0], [0, 0, 0], [0, 0, 0];
      offsetConverged, gainConverged := false, false;
    }
  }

  datatype Opts = Opts(nlines: nat, col0: nat, col1: nat, exposure: nat, doDark: bool, doGain: bool)

  /** Zero means default; without options both phases run. */
  function Defaults(opts: Option<Opts>): Opts {
    match opts
    case None => Opts(32, 100, 1900, 256, true, true)
    case Some(o) =>
      Opts(if o.nlines == 0 then 32 else o.nlines,
           if o.col1 == 0 then 100 else o.col0,
           if o.col1 == 0 then 1900 else o.col1,
           if o.exposure == 0 then 256 else o.exposure,
           o.doDark, o.doGain)
  }

  /** What is acquired in each round: whole lines, at most 64. */
  function WindowOf(o: Opts): Window {
    Window(Min(o.nlines, MAX_LINES) * LINE_BYTES, o.col0, o.col1)
  }

  /** Without options: 32 lines, the columns 100 to 1900, exposure 256, both phases. */
  lemma NoOptions()
    ensures WindowOf(Defaults(None)) == Window(512000, 100, 1900)
    ensures Defaults(None).exposure == 256 && Defaults(None).doDark && Defaults(None).doGain
  {
  }

  /** Options: 0 lines mean 32 and more than 64 mean 64; column 0 as the end means 100 to 1900; exposure 0 means 256. */
  lemma OptionsMean(o: Opts)
    ensures var d := Defaults(Some(o));
            WindowOf(d).want == 16000 * (if o.nlines == 0 then 32 else if o.nlines > 64 then 64 else o.nlines) &&
            (o.col1 == 0 ==> WindowOf(d).col0 == 100 && WindowOf(d).col1 == 1900) &&
            (o.col1 != 0 ==> WindowOf(d).col0 == o.col0 && WindowOf(d).col1 == o.col1) &&
            d.exposure == (if o.exposure == 0 then 256 else o.exposure) && d.doDark == o.doDark && d.doGain == o.doGain
  {
  }

  method Calibrate(dev: Device, opts: Option<Opts>, result: CalibResult)
    returns (ghost dark: seq<Round>, ghost white: seq<Round>, ghost ev1: seq<Event>, ghost ev2: seq<Event>)
    modifies dev`clock, dev`trace, result
    ensures dev.trace == old(dev.trace) + ev1 + ev2
    ensures var o := Defaults(opts);
            if o.doDark
            then DarkOutcome(dark, result.offset, result.dark, result.offsetConverged) && DarkEvents(ev1, dark, WindowOf(o))
            else ev1 == [] && result.offset == [0, 0, 0] && result.dark == [0, 0, 0] && !result.offsetConverged
    ensures var o := Defaults(opts);
            if o.doGain
            then GainOutcome(white, result.gain, result.white, result.gainConverged) &&
                 GainEvents(ev2, white, o.exposure, WindowOf(o))
            else ev2 == [] && result.gain == [0, 0, 0] && result.white == [0, 0, 0] && !result.gainConverged
  {
    hide DarkOutcome, GainOutcome, DarkEvents, GainEvents, Programs;
    var o := Defaults(opts);
    result.gain, result.offset := [0, 0, 0], [0, 0, 0];
    result.dark, result.white := [0, 0, 0], [0, 0, 0];
    result.offsetConverged, result.gainConverged := false, false;
    var nlines := if o.nlines > MAX_LINES then MAX_LINES else o.nlines;
    var buf := new byte[MAX_LINES * LINE_BYTES];
    assert Min(nlines * LINE_BYTES, buf.Length) == WindowOf(o).want;
    dark, white, ev1, ev2 := [], [], [], [];
    if o.doDark {
      var offset, mean, conv;
      offset, mean, conv, dark, ev1 := DarkPhase(dev, nlines, o.col0, o.col1, buf);
      result.offset, result.dark, result.offsetConverged := offset, mean, conv;
    }
    if o.doGain {
      var gain, peak, conv;
      gain, peak, conv, white, ev2 := GainPhase(dev, nlines, o.col0, o.col1, o.exposure, buf);
      result.gain, result.white, result.gainConverged := gain, peak, conv;
    }
  }
}
