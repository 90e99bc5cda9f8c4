/** What follows for the reported calibration, whatever the device measures. */
module CalibLaws {
  import opened Bytes
  import opened Configure
  import opened CalibMath
  import opened CalibMeasure
  import opened CalibRun
  import opened Session
  import P = Proto

  /**
   The last correction moves no channel exactly if every reported mean is within
   262..338, and so whenever the dark loop ends converged.
   */
  lemma ConvergedOffsetsStand(hist: seq<Round>, offset: seq<int>, dark: seq<nat>, converged: bool)
    requires DarkOutcome(hist, offset, dark, converged)
    ensures dark == hist[|hist| - 1].meas
    ensures offset == hist[|hist| - 1].setting <==> forall k :: 0 <= k < 3 ==> 262 <= dark[k] <= 338
    ensures AllDark(hist[|hist| - 1]) ==> offset == hist[|hist| - 1].setting
  {
    hide OffsetStep, DarkConverged, SomeRound;
    var r := hist[|hist| - 1];
    forall k | 0 <= k < 3
      ensures offset[k] == r.setting[k] + OffsetStep(r.meas[k])
      ensures OffsetStep(r.meas[k]) == 0 <==> 262 <= r.meas[k] <= 338
      ensures DarkConverged(r.meas[k]) ==> OffsetStep(r.meas[k]) == 0
    {
      StepZeroIff(r.meas[k]);
      if DarkConverged(r.meas[k]) {
        ConvergedIsFixed(r.meas[k]);
      }
    }
    assert |r.setting| == 3;
    assert offset == r.setting <==> forall k :: 0 <= k < 3 ==> offset[k] == r.setting[k];
  }

  lemma {:induction false} SettingRange(hist: seq<Round>, i: nat, k: nat)
    requires DarkHistory(hist) && i < |hist| && k < 3
    ensures OFFSET_INIT - 1698 * i <= hist[i].setting[k] <= OFFSET_INIT + 7 * i
  {
    hide OffsetStep, AllDark;
    if i > 0 {
      SettingRange(hist, i - 1, k);
      StepRange(hist[i - 1].meas[k]);
      assert hist[i].setting == Corrected(hist[i - 1]);
    }
  }

  /**
   The register held the reported offset of a channel while its reported mean was
   measured exactly if the mean is within 262..338 and the setting fits the
   register, or if the setting was below it and the correction ends at its limit.
   */
  lemma OffsetInForceIff(hist: seq<Round>, offset: seq<int>, dark: seq<nat>, converged: bool, k: nat)
    requires DarkOutcome(hist, offset, dark, converged) && k < 3
    ensures var setting := hist[|hist| - 1].setting[k];
            DecOffset(EncOffset(setting)) == offset[k] <==>
              (262 <= dark[k] <= 338 && -255 <= setting <= 255) || (setting < -255 && offset[k] == -255)
  {
    hide OffsetStep, AllDark, SomeRound, EncOffset, DecOffset;
    var n := |hist| - 1;
    OffsetRoundTrip(hist[n].setting[k]);
    SettingRange(hist, n, k);
    StepZeroIff(dark[k]);
    CorrectedAt(hist[n], k);
  }

  /** A converged run that reports -1598 while the register held -255. */
  lemma ReportedNotInForce() returns (hist: seq<Round>)
    ensures DarkOutcome(hist, [-1598, -1598, -1598], [300, 300, 300], true)
    ensures hist[|hist| - 1].setting == [-1598, -1598, -1598] && DecOffset(EncOffset(-1598)) == -255
  {
    hide OffsetStep, DarkConverged, EncOffset, DecOffset;
    StepsAt();
    OffsetRoundTrip(-1598);
    hist := [Round([100, 100, 100], [0xFFFF, 0xFFFF, 0xFFFF]), Round([-1598, -1598, -1598], [300, 300, 300])];
    forall k | 0 <= k < 3 ensures SomeRound(hist, k, DarkConverged) {
      LastCounts(hist, k, DarkConverged);
    }
  }

  /** The gains of a calibration's dark phase, with the options it was called with. */
  lemma CalibrationAtGainZeroIff(opts: Option<Opts>, ev: seq<Event>, hist: seq<Round>, offset: seq<int>, dark: seq<nat>, converged: bool)
    requires DarkOutcome(hist, offset, dark, converged) && DarkEvents(ev, hist, WindowOf(Defaults(opts)))
    ensures GainZeroAtReads(ev) <==> ThreeAcknowledged(ev)
  {
    hide DarkEvents, GainZeroAtReads, ThreeAcknowledged;
    DarkAtGainZeroIff(ev, hist, WindowOf(Defaults(opts)));
  }

  /** Reported offsets stay in this range over all possible measurements. */
  lemma OffsetRange(hist: seq<Round>, offset: seq<int>, dark: seq<nat>, converged: bool, k: nat)
    requires DarkOutcome(hist, offset, dark, converged) && k < 3
    ensures -13484 <= offset[k] <= 156
  {
    hide OffsetStep, AllDark, SomeRound;
    var n := |hist| - 1;
    SettingRange(hist, n, k);
    StepRange(hist[n].meas[k]);
  }

  lemma StepsAt()
    ensures OffsetStep(300) == 0 && OffsetStep(0) == 7 && OffsetStep(0xFFFF) == -1698
    ensures DarkConverged(300) && !DarkConverged(0) && !DarkConverged(0xFFFF)
  {
  }

  lemma CorrectedAt(r: Round, k: nat)
    requires RoundOk(r) && k < 3
    ensures Corrected(r)[k] == r.setting[k] + OffsetStep(r.meas[k])
  {
    hide OffsetStep;
  }

  /** Round `i` of a sensor stuck at `m`, whose every correction is `step`. */
  function Stuck(m: uint16, step: int, i: nat): Round {
    var v := OFFSET_INIT + step * i;
    Round([v, v, v], [m, m, m])
  }

  lemma StuckNext(m: uint16, step: int, i: nat)
    requires OffsetStep(m) == step
    ensures RoundOk(Stuck(m, step, i)) && Stuck(m, step, i + 1).setting == Corrected(Stuck(m, step, i))
  {
    hide OffsetStep;
    assert step * (i + 1) == step * i + step;
  }

  lemma StuckOutcome(m: uint16, step: int) returns (hist: seq<Round>)
    requires OffsetStep(m) == step && !DarkConverged(m)
    ensures DarkOutcome(hist, Stuck(m, step, 8).setting, [m, m, m], false)
    ensures hist == seq(8, i requires 0 <= i => Stuck(m, step, i))
  {
    hide OffsetStep, DarkConverged, Corrected;
    hist := seq(8, i requires 0 <= i => Stuck(m, step, i));
    forall i | 0 <= i < 8 ensures hist[i] == Stuck(m, step, i) && RoundOk(hist[i]) && !AllDark(hist[i]) {
      StuckNext(m, step, i);
    }
    forall i: nat | 0 < i < 8 ensures hist[i].setting == Corrected(hist[i - 1]) {
      StuckNext(m, step, i - 1);
    }
    StuckNext(m, step, 7);
    assert !SomeRound(hist, 0, DarkConverged);
  }

  // ---- a run in which every command fails -------------------------------------------------

  function Lost(e: Entry): Event {
    Framed(P.Wire(WriteFrame(e)), false, 0)
  }

  function LostWrites(first: byte, vals: seq<uint16>): (ev: seq<Event>)
    requires |vals| == 3 && first < 0x80
    ensures |ev| == 3
  {
    var t := Three(AFE, first, vals);
    [Lost(t[0]), Lost(t[1]), Lost(t[2])]
  }

  /** Two kicks and a read that fail. */
  function LostBurst(want: nat): seq<Event> {
    [Framed(HOST_ARM, false, 0), Framed(PICL_ARM, false, 0), Read(want, FAILED, [])]
  }

  lemma LostWritesProgram(first: byte, vals: seq<uint16>)
    requires |vals| == 3 && first < 0x80
    ensures Programs(LostWrites(first, vals), AFE, first, vals)
  {
    hide WriteFrame;
  }

  lemma LostBurstAcquires(want: nat)
    requires want > 0
    ensures Acquired(LostBurst(want), want) && WritesNothing(LostBurst(want)) && ImageBytes(LostBurst(want)) == []
  {
    hide ImageBytes, EmptyReads, Bursts, WritesNothing;
    NoEvents();
    var k1, k2, e := Framed(HOST_ARM, false, 0), Framed(PICL_ARM, false, 0), Read(want, FAILED, []);
    BurstMore([], want, k1, k2, e);
    Turned([], k1, k2, e);
    assert [] + [k1, k2, e] == LostBurst(want);
  }

  lemma NothingMeasured(win: Window)
    ensures MeasuredFrom([], win.col0, win.col1, [0, 0, 0], [0, 0, 0])
  {
    var raw: seq<byte> := [];
    assert raw <= raw && Measured(raw, 0, win.col0, win.col1, [0, 0, 0], [0, 0, 0]);
  }

  /** Round `i` of such a run: three writes and one burst. */
  function LostTurn(i: nat, win: Window): seq<Event> {
    LostWrites(5, EncThree(Stuck(0, 7, i).setting)) + LostBurst(win.want)
  }

  lemma LostTurnIsRound(i: nat, win: Window)
    requires win.want > 0
    ensures RoundEvents(true, LostTurn(i, win), Stuck(0, 7, i), win)
  {
    hide EncThree, Programs, Acquired, WritesNothing, ImageBytes, MeasuredFrom, LostWrites, LostBurst;
    var vals := EncThree(Stuck(0, 7, i).setting);
    LostWritesProgram(5, vals);
    LostBurstAcquires(win.want);
    NothingMeasured(win);
    var turn := LostTurn(i, win);
    assert turn[..3] == LostWrites(5, vals) && turn[3..] == LostBurst(win.want);
    var zero: seq<uint16> := [0, 0, 0];
    assert Took(turn, 5, vals, win, zero, zero);
  }

  /** The events of `n` rounds. */
  function LostLoop(n: nat, win: Window): seq<Event> {
    if n == 0 then LostWrites(2, [0, 0, 0]) else LostLoop(n - 1, win) + LostTurn(n - 1, win)
  }

  /** The rounds of a sensor that delivers nothing. */
  function LostHist(n: nat): (hist: seq<Round>)
    ensures |hist| == n
  {
    seq(n, i requires 0 <= i => Stuck(0, 7, i))
  }

  lemma {:induction false} LostLoopEvents(n: nat, win: Window)
    requires win.want > 0
    ensures LoopEvents(true, LostWrites(2, [0, 0, 0]), LostLoop(n, win), LostHist(n), win)
  {
    hide RoundEvents, LoopEvents, LostWrites, LostTurn;
    var start := LostWrites(2, [0, 0, 0]);
    if n == 0 {
      NoTurns(true, start, win);
      assert LostHist(0) == [];
    } else {
      LostLoopEvents(n - 1, win);
      LostTurnIsRound(n - 1, win);
      LoopMore(true, start, LostLoop(n - 1, win), LostHist(n - 1), win, LostTurn(n - 1, win), Stuck(0, 7, n - 1));
      assert LostHist(n - 1) + [Stuck(0, 7, n - 1)] == LostHist(n);
    }
  }

  lemma {:induction false} LostLoopArrives(n: nat, win: Window)
    ensures NoneArrives(LostLoop(n, win))
  {
    hide LostWrites, EncThree;
    if n == 0 {
      NoneLost(2, [0, 0, 0]);
    } else {
      LostLoopArrives(n - 1, win);
      NoneLost(5, EncThree(Stuck(0, 7, n - 1).setting));
    }
  }

  ghost predicate NoneArrives(ev: seq<Event>) {
    forall j :: 0 <= j < |ev| ==> (ev[j].Framed? && !ev[j].ok) || ev[j].Read?
  }

  lemma NoneLost(first: byte, vals: seq<uint16>)
    requires |vals| == 3 && first < 0x80
    ensures NoneArrives(LostWrites(first, vals))
  {
    hide WriteFrame;
  }

  /** The registers keep their values if no write arrives. */
  lemma {:induction false} NothingChanges(regs: Registers, ev: seq<Event>, arrived: nat -> bool, k: nat)
    requires NoneArrives(ev) && k <= |ev| && forall j: nat :: !arrived(j)
    ensures RegsAt(regs, ev, arrived, k) == regs
  {
    if k > 0 {
      NothingChanges(regs, ev, arrived, k - 1);
    }
  }

  lemma LostLoopIsDark(hist: seq<Round>, win: Window)
    requires win.want > 0 && hist == LostHist(8)
    ensures DarkEvents(LostLoop(8, win), hist, win) && NoneArrives(LostLoop(8, win))
  {
    hide Programs, LoopEvents, Stuck, LostWrites, LostLoop, NoneArrives;
    LostLoopEvents(8, win);
    LostLoopArrives(8, win);
    LostWritesProgram(2, [0, 0, 0]);
  }

  /**
   A run in which no command is acknowledged and no image arrives goes through
   all eight rounds; if no failed write arrived, the registers keep what they
   held up to its last image read, whatever that was.
   */
  lemma UnacknowledgedRun(win: Window, regs: Registers, arrived: nat -> bool) returns (hist: seq<Round>, ev: seq<Event>)
    requires win.want > 0 && forall j: nat :: !arrived(j)
    ensures DarkOutcome(hist, [156, 156, 156], [0, 0, 0], false) && DarkEvents(ev, hist, win)
    ensures NoneArrives(ev) && ev != [] && ev[|ev| - 1].Read?
    ensures forall k :: 0 <= k <= |ev| ==> RegsAt(regs, ev, arrived, k) == regs
  {
    hide DarkOutcome, DarkEvents, LostLoop, NoneArrives, RegsAt;
    StepsAt();
    hist := StuckOutcome(0, 7);
    assert Stuck(0, 7, 8).setting == [156, 156, 156];
    assert hist == LostHist(8);
    ev := LostLoop(8, win);
    LostLoopIsDark(hist, win);
    forall k | 0 <= k <= |ev| ensures RegsAt(regs, ev, arrived, k) == regs {
      NothingChanges(regs, ev, arrived, k);
    }
    DarkReads(ev, hist, win);
  }

  lemma DarkReads(ev: seq<Event>, hist: seq<Round>, win: Window)
    requires DarkEvents(ev, hist, win) && hist != [] && win.want > 0
    ensures ev != [] && ev[|ev| - 1].Read?
  {
    hide LoopEvents, Programs;
    var start :| Programs(start, AFE, 2, [0, 0, 0]) && LoopEvents(true, start, ev, hist, win);
    LoopReads(true, start, ev, hist, win);
  }

  /** Both ends of the range are reached: by a sensor stuck at full scale and by one stuck at zero. */
  lemma OffsetRangeTight()
    ensures exists hist :: DarkOutcome(hist, [-13484, -13484, -13484], [0xFFFF, 0xFFFF, 0xFFFF], false)
    ensures exists hist :: DarkOutcome(hist, [156, 156, 156], [0, 0, 0], false)
  {
    hide DarkOutcome;
    StepsAt();
    var low := StuckOutcome(0xFFFF, -1698);
    assert Stuck(0xFFFF, -1698, 8).setting == [-13484, -13484, -13484];
    var high := StuckOutcome(0, 7);
    assert Stuck(0, 7, 8).setting == [156, 156, 156];
  }

  /** Some round measured channel `k` within these bounds. */
  ghost predicate SomeWithin(hist: seq<Round>, k: nat, low: nat, high: nat)
    requires RoundsOk(hist) && k < 3
  {
    exists i :: 0 <= i < |hist| && low <= hist[i].meas[k] <= high
  }

  lemma SomeRoundWithin(hist: seq<Round>, k: nat, ok: nat -> bool, low: nat, high: nat)
    requires RoundsOk(hist) && k < 3
    requires forall m :: 0 <= m <= 0xFFFF ==> (ok(m) <==> low <= m <= high)
    ensures SomeRound(hist, k, ok) <==> SomeWithin(hist, k, low, high)
  {
    if SomeRound(hist, k, ok) {
      var i :| 0 <= i < |hist| && ok(hist[i].meas[k]);
      assert low <= hist[i].meas[k] <= high;
    }
    if SomeWithin(hist, k, low, high) {
      var i :| 0 <= i < |hist| && low <= hist[i].meas[k] <= high;
      assert ok(hist[i].meas[k]);
    }
  }

  /** The reported flag: every channel was within tolerance in some round, not necessarily the last. */
  lemma FlagIsLatched(hist: seq<Round>, offset: seq<int>, dark: seq<nat>, converged: bool)
    requires DarkOutcome(hist, offset, dark, converged)
    ensures converged <==> forall k :: 0 <= k < 3 ==> SomeWithin(hist, k, 268, 332)
    ensures AllDark(hist[|hist| - 1]) ==> converged
  {
    hide Corrected, SomeRound, SomeWithin;
    forall k | 0 <= k < 3 ensures SomeRound(hist, k, DarkConverged) <==> SomeWithin(hist, k, 268, 332) {
      SomeRoundWithin(hist, k, DarkConverged, 268, 332);
    }
    if AllDark(hist[|hist| - 1]) {
      forall k | 0 <= k < 3 ensures SomeRound(hist, k, DarkConverged) {
        LastCounts(hist, k, DarkConverged);
      }
    }
  }

  lemma LastCounts(hist: seq<Round>, k: nat, ok: nat -> bool)
    requires RoundsOk(hist) && hist != [] && k < 3 && ok(hist[|hist| - 1].meas[k])
    ensures SomeRound(hist, k, ok)
  {
  }

  /** Round `i` of a run that hits the target on each channel once, never on all of them together. */
  function Misleading(i: nat): Round {
    if i == 0 then Round([100, 100, 100], [300, 300, 0])
    else if i == 1 then Round([100, 100, 107], [0, 0, 300])
    else Round([93 + 7 * i, 93 + 7 * i, 93 + 7 * i], [0, 0, 0])
  }

  lemma MisleadingNext(i: nat)
    ensures RoundOk(Misleading(i)) && Misleading(i + 1).setting == Corrected(Misleading(i)) && !AllDark(Misleading(i))
  {
    hide OffsetStep, DarkConverged;
    StepsAt();
  }

  /** The flag may be set although at the end every channel is out of tolerance. */
  lemma FlagMayMislead() returns (hist: seq<Round>)
    ensures DarkOutcome(hist, [149, 149, 149], [0, 0, 0], true)
    ensures !DarkConverged(0)
  {
    hide OffsetStep, DarkConverged, Corrected, AllDark;
    StepsAt();
    hist := seq(8, i requires 0 <= i => Misleading(i));
    forall i | 0 <= i < 8 ensures hist[i] == Misleading(i) && RoundOk(hist[i]) && !AllDark(hist[i]) {
      MisleadingNext(i);
    }
    forall i: nat | 0 < i < 8 ensures hist[i].setting == Corrected(hist[i - 1]) {
      MisleadingNext(i - 1);
    }
    MisleadingNext(7);
    assert hist[0].meas[0] == 300 && hist[0].meas[1] == 300 && hist[1].meas[2] == 300;
    assert SomeRound(hist, 0, DarkConverged) && SomeRound(hist, 1, DarkConverged) && SomeRound(hist, 2, DarkConverged);
  }

  // ---- a linear sensor --------------------------------------------------------------------

  /** Channel `k` measures `zero + slope * offset` as long as the offset is one the register can hold. */
  ghost predicate Linear(hist: seq<Round>, k: nat, zero: int, slope: nat)
    requires RoundsOk(hist) && k < 3
  {
    forall i :: 0 <= i < |hist| ==>
      -255 <= hist[i].setting[k] <= 255 && hist[i].meas[k] == zero + slope * hist[i].setting[k]
  }

  function ErrorAt(hist: seq<Round>, i: nat, k: nat): int
    requires RoundsOk(hist) && i < |hist| && k < 3
  {
    DARK_TARGET - hist[i].meas[k]
  }

  lemma ErrorStep(hist: seq<Round>, k: nat, zero: int, slope: nat, i: nat)
    requires DarkHistory(hist) && k < 3 && Linear(hist, k, zero, slope) && 0 < i < |hist|
    ensures ErrorAt(hist, i, k) == NextError(ErrorAt(hist, i - 1, k), slope)
  {
    hide StepFor, AllDark;
    var a, b, step := hist[i - 1].setting[k], hist[i].setting[k], StepFor(ErrorAt(hist, i - 1, k));
    assert hist[i].setting == Corrected(hist[i - 1]);
    CorrectedAt(hist[i - 1], k);
    Distribute(slope, a, step, b);
  }

  lemma Distribute(slope: nat, a: int, step: int, b: int)
    requires b == a + step
    ensures slope * b == slope * a + slope * step
  {
  }

  /** On a linear sensor of slope up to 76 the distance to the target never grows from round to round. */
  lemma {:induction false} ErrorNeverGrows(hist: seq<Round>, k: nat, zero: int, slope: nat, i: nat, j: nat)
    requires DarkHistory(hist) && k < 3 && slope <= 76 && Linear(hist, k, zero, slope)
    requires i <= j < |hist|
    ensures Abs(ErrorAt(hist, j, k)) <= Abs(ErrorAt(hist, i, k))
  {
    hide AllDark, Corrected, NextError;
    if i < j {
      ErrorNeverGrows(hist, k, zero, slope, i, j - 1);
      ErrorStep(hist, k, zero, slope, j);
      StepImproves(ErrorAt(hist, j - 1, k), slope);
    }
  }

  /** With a positive slope every round that is 39 or more off brings the next one closer. */
  lemma ErrorShrinks(hist: seq<Round>, k: nat, zero: int, slope: nat, i: nat)
    requires DarkHistory(hist) && k < 3 && 0 < slope <= 76 && Linear(hist, k, zero, slope)
    requires i + 1 < |hist| && Abs(ErrorAt(hist, i, k)) >= 39
    ensures Abs(ErrorAt(hist, i + 1, k)) < Abs(ErrorAt(hist, i, k))
    ensures slope <= 38 ==> (ErrorAt(hist, i, k) > 0 ==> ErrorAt(hist, i + 1, k) >= 0) &&
                            (ErrorAt(hist, i, k) < 0 ==> ErrorAt(hist, i + 1, k) <= 0)
  {
    hide AllDark, Corrected, NextError;
    ErrorStep(hist, k, zero, slope, i + 1);
    StepImproves(ErrorAt(hist, i, k), slope);
    if slope <= 38 {
      StepStaysOnSide(ErrorAt(hist, i, k), slope);
    }
  }

  // ---- gain ---------------------------------------------------------------------------------

  /** Reported gains fit the register, so encoding them changes nothing. */
  lemma GainsFit(hist: seq<Round>, gain: seq<int>, white: seq<nat>, converged: bool, k: nat)
    requires GainOutcome(hist, gain, white, converged) && k < 3
    ensures 0 <= gain[k] <= GAIN_MAX && EncGain(gain[k]) == gain[k]
  {
    hide GainFactor, GainNext, AllWhite, SomeRound;
    var n := |hist| - 1;
    if n > 0 {
      assert hist[n].setting == Regained(hist[n - 1]);
      assert 0 <= GainNext(GainFactor(hist[n - 1].setting[k]), hist[n - 1].meas[k]) <= GAIN_MAX;
    }
  }

  /** The white flag: every channel reached 64000 in some round. */
  lemma WhiteFlag(hist: seq<Round>, gain: seq<int>, white: seq<nat>, converged: bool)
    requires GainOutcome(hist, gain, white, converged)
    ensures converged <==> forall k :: 0 <= k < 3 ==> SomeWithin(hist, k, 64000, 0xFFFF)
  {
    hide Regained, AllWhite, SomeRound, SomeWithin;
    forall k | 0 <= k < 3 ensures SomeRound(hist, k, WhiteConverged) <==> SomeWithin(hist, k, 64000, 0xFFFF) {
      SomeRoundWithin(hist, k, WhiteConverged, 64000, 0xFFFF);
    }
  }
}
