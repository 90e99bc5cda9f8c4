/** The feedback arithmetic of the calibration (src/pakon_calib.c, lines 54-85). */
module CalibMath {
  import opened Arith
  import opened Bytes

  const DARK_TARGET := 300
  const DARK_TOL := 0x20
  const OFFSET_NUM := 0x1400
  const OFFSET_DEN := 0x30000
  const WHITE_TARGET := 64000
  const WHITE_TOL_LO := 0
  const WHITE_TOL_HI := 0x800
  const GAIN_MAX := 63

  /** C division of a possibly negative number: the quotient is rounded toward zero. */
  function TruncDiv(a: int, b: int): (q: int)
    requires b > 0
  {
    if a >= 0 then a / b else -((-a) / b)
  }

  predicate Converged(meas: nat, target: nat, tolLo: nat, tolHi: nat) {
    (if target > tolLo then target - tolLo else 0) <= meas <= target + tolHi
  }

  predicate DarkConverged(mean: nat) {
    Converged(mean, DARK_TARGET, DARK_TOL, DARK_TOL)
  }

  predicate WhiteConverged(peak: nat) {
    Converged(peak, WHITE_TARGET, WHITE_TOL_LO, WHITE_TOL_HI)
  }

  /** The correction for a given distance below the target. */
  function StepFor(err: int): int {
    TruncDiv(err * OFFSET_NUM, OFFSET_DEN)
  }

  function OffsetStep(mean: nat): int {
    StepFor(DARK_TARGET - mean)
  }

  /** The factor 5/192 in lowest terms. */
  lemma StepRatio(err: int)
    ensures StepFor(err) == TruncDiv(5 * err, 192)
    ensures StepFor(-err) == -StepFor(err)
    ensures err >= 0 ==> 192 * StepFor(err) <= 5 * err < 192 * (StepFor(err) + 1)
  {
  }

  lemma StepZeroIff(mean: nat)
    ensures OffsetStep(mean) == 0 <==> 262 <= mean <= 338
  {
    StepRatio(DARK_TARGET - mean);
    StepRatio(mean - DARK_TARGET);
  }

  /** A channel within tolerance is not moved. */
  lemma ConvergedIsFixed(mean: nat)
    requires DarkConverged(mean)
    ensures OffsetStep(mean) == 0
  {
    StepZeroIff(mean);
  }

  lemma StepRange(mean: uint16)
    ensures -1698 <= OffsetStep(mean) <= 7
  {
    StepRatio(DARK_TARGET - mean);
    StepRatio(mean - DARK_TARGET);
  }

  /** The upper white limit is beyond 16 bits, so only the lower one decides. */
  lemma WhiteIff(peak: uint16)
    ensures WhiteConverged(peak) <==> peak >= WHITE_TARGET
  {
  }

  // ---- a device whose dark mean is linear in the offset ----------------------------------

  /** Distance to the target after one step, for `slope` counts per offset unit. */
  function NextError(err: int, slope: int): int {
    err - slope * StepFor(err)
  }

  lemma NextErrorOdd(err: int, slope: int)
    ensures NextError(-err, slope) == -NextError(err, slope)
  {
    StepRatio(err);
  }

  lemma {:induction false} Scaled(slope: nat, limit: nat, step: nat)
    requires slope <= limit
    ensures slope * step <= limit * step
    ensures step > 0 && slope > 0 ==> slope * step > 0
  {
  }

  /** For slopes up to 76 no step makes the error worse, and steps at errors of 39 and more improve it. */
  lemma StepImproves(err: int, slope: nat)
    requires slope <= 76
    ensures Abs(NextError(err, slope)) <= Abs(err)
    ensures slope > 0 ==> (Abs(NextError(err, slope)) < Abs(err) <==> Abs(err) >= 39)
  {
    if err < 0 {
      NextErrorOdd(-err, slope);
      BelowTargetImproves(-err, slope);
    } else {
      BelowTargetImproves(err, slope);
    }
  }

  lemma BelowTargetImproves(err: nat, slope: nat)
    requires slope <= 76
    ensures Abs(NextError(err, slope)) <= err
    ensures slope > 0 ==> (Abs(NextError(err, slope)) < err <==> err >= 39)
  {
    hide StepFor;
    StepRatio(err);
    var step := StepFor(err);
    Scaled(slope, 76, step);
    var move := slope * step;
    assert 0 <= move <= 76 * step && NextError(err, slope) == err - move;
    assert step == 0 <==> err < 39;
  }

  /** 76 is the exact limit. */
  lemma NeverWorseIff(slope: int)
    ensures (forall err: int :: Abs(NextError(err, slope)) <= Abs(err)) <==> 0 <= slope <= 76
  {
    if 0 <= slope <= 76 {
      forall err: int ensures Abs(NextError(err, slope)) <= Abs(err) {
        StepImproves(err, slope);
      }
    } else {
      assert StepFor(192) == 5;
      assert Abs(NextError(192, slope)) > Abs(192);
    }
  }

  /** The step stays on the same side of the target. */
  predicate NoOvershoot(err: int, slope: int) {
    (err >= 0 ==> NextError(err, slope) >= 0) && (err <= 0 ==> NextError(err, slope) <= 0)
  }

  lemma StepStaysOnSide(err: int, slope: nat)
    requires slope <= 38
    ensures NoOvershoot(err, slope)
  {
    if err < 0 {
      NextErrorOdd(-err, slope);
      BelowTargetStays(-err, slope);
    } else {
      BelowTargetStays(err, slope);
    }
  }

  lemma BelowTargetStays(err: nat, slope: nat)
    requires slope <= 38
    ensures NextError(err, slope) >= 0
  {
    hide StepFor;
    StepRatio(err);
    Scaled(slope, 38, StepFor(err));
  }

  /** No step overshoots exactly for slopes up to 38. */
  lemma NoOvershootIff(slope: nat)
    ensures (forall err: int :: NoOvershoot(err, slope)) <==> slope <= 38
  {
    if slope <= 38 {
      forall err: int ensures NoOvershoot(err, slope) {
        StepStaysOnSide(err, slope);
      }
    } else {
      assert StepFor(192) == 5;
      assert !NoOvershoot(192, slope);
    }
  }

  // ---- gain ---------------------------------------------------------------------------------

  function GainFactor(gain: int): (f: real)
    ensures f > 0.0
  {
    var denom := 1.0 - gain as real / 64.0;
    1.0 / if denom < 0.000001 then 0.000001 else denom
  }

  function GainNext(factor: real, peak: nat): (g: int)
    ensures 0 <= g <= GAIN_MAX
  {
    if peak == 0 then GAIN_MAX
    else
      var g := factor * 64000.0 / peak as real + 0.5;
      if g < 0.0 then 0 else if g > 63.0 then GAIN_MAX else g.Floor
  }

  const WANTED := 4096000 // 64 * WHITE_TARGET

  /** `n` is `WANTED / d` rounded to the nearest whole number, halves upward, or 63 where that is more. */
  predicate Nearest(n: int, d: nat) {
    (2 * n - 1) * d <= 2 * WANTED && (n < GAIN_MAX ==> 2 * WANTED < (2 * n + 1) * d)
  }

  lemma NearestUnique(n: int, m: int, d: nat)
    requires Nearest(n, d) && Nearest(m, d) && n <= GAIN_MAX && m <= GAIN_MAX && d > 0
    ensures n == m
  {
    if n < m {
      MulLe(2 * n + 1, 2 * m - 1, d);
    } else if m < n {
      MulLe(2 * m + 1, 2 * n - 1, d);
    }
  }

  lemma FactorTimes(gain: int)
    requires 0 <= gain <= GAIN_MAX
    ensures GainFactor(gain) * (64 - gain) as real == 64.0
  {
    var denom := 1.0 - gain as real / 64.0;
    assert denom == (64 - gain) as real / 64.0 >= 1.0 / 64.0;
    assert GainFactor(gain) == 1.0 / denom;
  }

  lemma NextTimes(factor: real, peak: nat, room: int, q: real)
    requires peak > 0 && room > 0 && factor * room as real == 64.0 && q == factor * 64000.0 / peak as real
    ensures q * (room * peak) as real == WANTED as real
  {
    assert (room * peak) as real == room as real * peak as real;
    assert q * peak as real == factor * 64000.0;
    calc {
      q * (room as real * peak as real);
      (q * peak as real) * room as real;
      (factor * 64000.0) * room as real;
      (factor * room as real) * 64000.0;
      64.0 * 64000.0;
    }
  }

  lemma RoundReal(q: real, d: nat, n: int)
    requires d > 0 && q * d as real == WANTED as real
    requires n as real - 0.5 <= q && (n < GAIN_MAX ==> q < n as real + 0.5)
    ensures Nearest(n, d)
  {
    var e := d as real;
    RealMulLe(n as real - 0.5, q, e);
    assert (n as real - 0.5) * e == ((2 * n - 1) * d) as real / 2.0;
    if n < GAIN_MAX {
      RealMulLt(q, n as real + 0.5, e);
      assert (n as real + 0.5) * e == ((2 * n + 1) * d) as real / 2.0;
    }
  }

  lemma RealMulLe(a: real, b: real, c: real)
    requires a <= b && c > 0.0
    ensures a * c <= b * c
  {
  }

  lemma RealMulLt(a: real, b: real, c: real)
    requires a < b && c > 0.0
    ensures a * c < b * c
  {
  }

  /**
   The gain step in whole numbers: the next gain is `64 * 64000` over the peak times
   `64 - gain`, rounded to the nearest whole number and limited to the register.
   */
  lemma GainNextIff(gain: int, peak: nat, n: int)
    requires 0 <= gain <= GAIN_MAX && peak > 0 && 0 <= n <= GAIN_MAX
    ensures GainNext(GainFactor(gain), peak) == n <==> Nearest(n, (64 - gain) * peak)
  {
    hide GainFactor, Nearest;
    var factor, room := GainFactor(gain), 64 - gain;
    var q := factor * 64000.0 / peak as real;
    FactorTimes(gain);
    NextTimes(factor, peak, room, q);
    var next := GainNext(factor, peak);
    assert q > 0.0;
    assert next as real - 0.5 <= q && (next < GAIN_MAX ==> q < next as real + 0.5);
    RoundReal(q, room * peak, next);
    if Nearest(n, room * peak) {
      NearestUnique(n, next, room * peak);
    }
  }

  /** Where there is no light the gain goes to its limit. */
  lemma NoLight(gain: int)
    ensures GainNext(GainFactor(gain), 0) == GAIN_MAX
  {
  }

  /** A brighter peak never asks for more gain. */
  lemma GainAntitone(factor: real, p: nat, q: nat)
    requires factor > 0.0 && p <= q
    ensures GainNext(factor, q) <= GainNext(factor, p)
  {
    if p > 0 {
      var x, y := factor * 64000.0 / p as real, factor * 64000.0 / q as real;
      assert x * p as real == factor * 64000.0 == y * q as real;
      assert y <= x;
    }
  }
}
