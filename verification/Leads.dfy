/**
 Measuring the line lead of one sensor row over another by correlation
 (tools/pakon_image.py, _vlead), in exact arithmetic.  A correlation is compared
 through its signed square, which orders correlations the same way and needs no
 square root.
 */
module Leads {
  import opened Bytes

  type Row = seq<uint16>
  type Vec = seq<real>

  // ---- vectors -----------------------------------------------------------------------

  function Dot(x: Vec, y: Vec): real
    requires |x| == |y|
  {
    if x == [] then 0.0 else Dot(x[..|x| - 1], y[..|y| - 1]) + x[|x| - 1] * y[|y| - 1]
  }

  function Norm2(x: Vec): real {
    Dot(x, x)
  }

  function Total(x: Vec): real {
    if x == [] then 0.0 else Total(x[..|x| - 1]) + x[|x| - 1]
  }

  /** The vector less its mean. */
  function Centered(x: Vec): (c: Vec)
    ensures |c| == |x|
  {
    seq<real>(|x|, i requires 0 <= i < |x| => x[i] - Total(x) / |x| as real)
  }

  /** `p * x - q * y`. */
  function Combine(x: Vec, y: Vec, p: real, q: real): (c: Vec)
    requires |x| == |y|
    ensures |c| == |x|
  {
    seq<real>(|x|, i requires 0 <= i < |x| => p * x[i] - q * y[i])
  }

  lemma {:induction false} Norm2NonNegative(x: Vec)
    ensures Norm2(x) >= 0.0
  {
    if x != [] {
      Norm2NonNegative(x[..|x| - 1]);
      SquareNonNegative(x[|x| - 1]);
    }
  }

  lemma SquareNonNegative(a: real)
    ensures a * a >= 0.0
  {
  }

  /** `|p x - q y|^2` from the inner products of `x` and `y`. */
  function Expanded(p: real, q: real, xx: real, xy: real, yy: real): real {
    p * p * xx - 2.0 * (p * q) * xy + q * q * yy
  }

  lemma ExpandedStep(p: real, q: real, xx: real, xy: real, yy: real, a: real, b: real)
    ensures Expanded(p, q, xx, xy, yy) + (p * a - q * b) * (p * a - q * b)
         == Expanded(p, q, xx + a * a, xy + a * b, yy + b * b)
  {
  }

  lemma CombineFront(x: Vec, y: Vec, p: real, q: real)
    requires |x| == |y| > 0
    ensures var n := |x| - 1;
            Combine(x, y, p, q)[..n] == Combine(x[..n], y[..n], p, q) &&
            Combine(x, y, p, q)[n] == p * x[n] - q * y[n]
  {
    var n := |x| - 1;
    var c, front := Combine(x, y, p, q), Combine(x[..n], y[..n], p, q);
    forall i | 0 <= i < n ensures c[..n][i] == front[i] {
    }
  }

  lemma {:induction false} Norm2Combine(x: Vec, y: Vec, p: real, q: real)
    requires |x| == |y|
    ensures Norm2(Combine(x, y, p, q)) == Expanded(p, q, Norm2(x), Dot(x, y), Norm2(y))
  {
    if x != [] {
      hide Expanded, Combine;
      var n := |x| - 1;
      CombineFront(x, y, p, q);
      Norm2Combine(x[..n], y[..n], p, q);
      ExpandedStep(p, q, Norm2(x[..n]), Dot(x[..n], y[..n]), Norm2(y[..n]), x[n], y[n]);
    }
  }

  /** Cauchy-Schwarz. */
  lemma CauchySchwarz(x: Vec, y: Vec)
    requires |x| == |y| && Norm2(y) > 0.0
    ensures Dot(x, y) * Dot(x, y) <= Norm2(x) * Norm2(y)
  {
    hide Dot, Combine;
    var a, b, d := Norm2(x), Norm2(y), Dot(x, y);
    Norm2Combine(x, y, b, d);
    Norm2NonNegative(Combine(x, y, b, d));
    Factor(a, b, d);
  }

  lemma Factor(a: real, b: real, d: real)
    requires b > 0.0 && Expanded(b, d, a, d, b) >= 0.0
    ensures d * d <= a * b
  {
    var e := a * b - d * d;
    assert Expanded(b, d, a, d, b) == b * e;
    SignOfFactor(b, e);
  }

  lemma SignOfFactor(b: real, e: real)
    requires b > 0.0 && b * e >= 0.0
    ensures e >= 0.0
  {
  }

  // ---- scores --------------------------------------------------------------------------

  function Signed(d: real): real {
    if d < 0.0 then -(d * d) else d * d
  }

  function Ratio(d: real, a: real, b: real): Option<real> {
    if a * b == 0.0 then None else Some(Signed(d) / (a * b))
  }

  /** Signed square of the correlation of two centred vectors; none if one of them is constant. */
  function Correlation(x: Vec, y: Vec): Option<real>
    requires Norm2(x) * Norm2(y) != 0.0 ==> |x| == |y|
  {
    if Norm2(x) * Norm2(y) == 0.0 then None else Ratio(Dot(x, y), Norm2(x), Norm2(y))
  }

  lemma ProductPositive(a: real, b: real)
    requires a >= 0.0 && b >= 0.0 && a * b != 0.0
    ensures a > 0.0 && b > 0.0 && a * b > 0.0
  {
  }

  lemma QuotientBounds(s: real, m: real)
    requires m > 0.0 && -m <= s <= m
    ensures -1.0 <= s / m <= 1.0
  {
    var q := s / m;
    assert q * m == s;
  }

  lemma RatioBounds(d: real, a: real, b: real)
    requires a >= 0.0 && b >= 0.0 && a * b != 0.0 && d * d <= a * b
    ensures Ratio(d, a, b).Some? && -1.0 <= Ratio(d, a, b).value <= 1.0
  {
    ProductPositive(a, b);
    SquareNonNegative(d);
    QuotientBounds(Signed(d), a * b);
  }

  lemma ProductOfPositives(a: real, b: real)
    requires a > 0.0 && b > 0.0
    ensures a * b > 0.0
  {
  }

  lemma PerfectScore(d: real, a: real, b: real)
    requires a > 0.0 && b > 0.0 && d > 0.0 && d * d == a * b
    ensures Ratio(d, a, b) == Some(1.0)
  {
    var m := a * b;
    ProductOfPositives(a, b);
    OneQuotient(d * d, m);
  }

  /** No correlation exceeds one in either direction. */
  lemma CorrelationBounds(x: Vec, y: Vec)
    requires |x| == |y| && Norm2(x) * Norm2(y) != 0.0
    ensures -1.0 <= Correlation(x, y).value <= 1.0
  {
    Norm2NonNegative(x);
    Norm2NonNegative(y);
    ProductPositive(Norm2(x), Norm2(y));
    CauchySchwarz(x, y);
    RatioBounds(Dot(x, y), Norm2(x), Norm2(y));
  }

  /** A vector that is not constant correlates perfectly with itself. */
  lemma SelfCorrelation(x: Vec)
    requires Norm2(x) > 0.0
    ensures Correlation(x, x) == Some(1.0)
  {
    ProductOfPositives(Norm2(x), Norm2(x));
    PerfectScore(Dot(x, x), Norm2(x), Norm2(x));
  }

  /** `p x == q y`. */
  predicate Multiples(x: Vec, y: Vec, p: real, q: real)
    requires |x| == |y|
  {
    forall i :: 0 <= i < |x| ==> p * x[i] == q * y[i]
  }

  /** One centred vector is a positive multiple of the other. */
  predicate Proportional(x: Vec, y: Vec)
    requires |x| == |y|
  {
    Dot(x, y) > 0.0 && Multiples(x, y, Norm2(y), Dot(x, y))
  }

  predicate AllZero(c: Vec) {
    forall i :: 0 <= i < |c| ==> c[i] == 0.0
  }

  lemma MultiplesCancel(x: Vec, y: Vec, p: real, q: real)
    requires |x| == |y|
    ensures AllZero(Combine(x, y, p, q)) <==> Multiples(x, y, p, q)
  {
    var c := Combine(x, y, p, q);
    assert forall i :: 0 <= i < |x| ==> c[i] == p * x[i] - q * y[i];
  }

  lemma {:induction false} ZeroNorm(c: Vec)
    ensures Norm2(c) == 0.0 <==> AllZero(c)
  {
    if c != [] {
      var n := |c| - 1;
      ZeroNorm(c[..n]);
      Norm2NonNegative(c[..n]);
      assert forall i :: 0 <= i < n ==> c[..n][i] == c[i];
      assert Norm2(c) == Norm2(c[..n]) + Product(c[n], c[n]);
      if c[n] == 0.0 {
        assert Product(c[n], c[n]) == 0.0;
      } else {
        SquarePositive(c[n]);
        assert !AllZero(c);
      }
    }
  }

  function Product(a: real, b: real): real {
    a * b
  }

  lemma SameSign(a: real, b: real)
    requires a > 0.0 && b > 0.0
    ensures Product(a, b) > 0.0 && Product(-a, -b) > 0.0
  {
    ProductOfPositives(a, b);
    assert (-a) * (-b) == a * b;
  }

  lemma SquarePositive(a: real)
    requires a != 0.0
    ensures Product(a, a) > 0.0
  {
    hide Product;
    if a < 0.0 {
      SameSign(-a, -a);
    } else {
      SameSign(a, a);
    }
  }

  lemma RatioIsOne(d: real, a: real, b: real)
    requires a >= 0.0 && b >= 0.0 && a * b != 0.0 && d * d <= a * b
    ensures Ratio(d, a, b) == Some(1.0) <==> d > 0.0 && Expanded(b, d, a, d, b) == 0.0
  {
    var e := a * b - d * d;
    ProductPositive(a, b);
    assert Expanded(b, d, a, d, b) == b * e;
    ZeroFactor(b, e);
    OneQuotient(Signed(d), a * b);
    SquareNonNegative(d);
  }

  lemma ZeroFactor(b: real, e: real)
    requires b > 0.0
    ensures b * e == 0.0 <==> e == 0.0
  {
  }

  lemma OneQuotient(s: real, m: real)
    requires m > 0.0
    ensures s / m == 1.0 <==> s == m
  {
    var q := s / m;
    assert q * m == s;
    assert (q - 1.0) * m == s - m;
    ZeroFactor(m, q - 1.0);
  }

  /** Equality in Cauchy-Schwarz: a perfect score means the same picture up to gain and offset. */
  lemma PerfectIffProportional(x: Vec, y: Vec)
    requires |x| == |y| && Norm2(x) * Norm2(y) != 0.0
    ensures Correlation(x, y) == Some(1.0) <==> Proportional(x, y)
  {
    var a, b, d := Norm2(x), Norm2(y), Dot(x, y);
    Norm2NonNegative(x);
    Norm2NonNegative(y);
    CauchySchwarz(x, y);
    hide Combine, Ratio, Expanded, Multiples, AllZero;
    Norm2Combine(x, y, b, d);
    ZeroNorm(Combine(x, y, b, d));
    MultiplesCancel(x, y, b, d);
    RatioIsOne(d, a, b);
  }

  // ---- bands -------------------------------------------------------------------------------

  function Columns(row: Row, from: nat): (s: Vec)
    decreases if from < |row| then |row| - from else 0
  {
    if from >= |row| then [] else [row[from] as real] + Columns(row, from + 3)
  }

  lemma {:induction false} ColumnsLength(r: Row, s: Row, from: nat)
    requires |r| == |s|
    ensures |Columns(r, from)| == |Columns(s, from)|
    decreases if from < |r| then |r| - from else 0
  {
    if from < |r| {
      ColumnsLength(r, s, from + 3);
    }
  }

  /** The sampled words of some rows, one after the other. */
  function Ravel(rows: seq<Row>): Vec {
    if rows == [] then [] else Ravel(rows[..|rows| - 1]) + Columns(rows[|rows| - 1], 0)
  }

  lemma {:induction false} RavelLength(r: seq<Row>, s: seq<Row>)
    requires |r| == |s| && forall i :: 0 <= i < |r| ==> |r[i]| == |s[i]|
    ensures |Ravel(r)| == |Ravel(s)|
  {
    if r != [] {
      RavelLength(r[..|r| - 1], s[..|s| - 1]);
      ColumnsLength(r[|r| - 1], s[|s| - 1], 0);
    }
  }

  /** The shifts tried: `-r` to `r`. */
  predicate Within(r: nat, dy: int) {
    0 <= r + dy && dy <= r
  }

  predicate SameShape(ch: seq<Row>, ref: seq<Row>) {
    |ch| == |ref| && forall i, j :: 0 <= i < |ch| && 0 <= j < |ref| ==> |ch[i]| == |ref[j]|
  }

  /** The central band of the rows. */
  function Band(rows: seq<Row>): (b: seq<Row>)
    ensures |b| == |rows| * 65 / 100 - |rows| * 35 / 100
  {
    rows[|rows| * 35 / 100..|rows| * 65 / 100]
  }

  /** The search range, at most a quarter of the band. */
  function Range(rows: seq<Row>, rng: nat): (r: nat)
    ensures 4 * r <= |Band(rows)|
  {
    Min(rng, |Band(rows)| / 4)
  }

  /** `A[rng:-rng]`, which is empty when the range is zero. */
  function BaseRows(ch: seq<Row>, r: nat): seq<Row>
    requires 4 * r <= |Band(ch)|
  {
    if r == 0 then [] else Band(ch)[r..|Band(ch)| - r]
  }

  function ShiftedRows(ref: seq<Row>, r: nat, dy: int): seq<Row>
    requires 4 * r <= |Band(ref)| && Within(r, dy)
  {
    Band(ref)[r + dy..|Band(ref)| - r + dy]
  }

  function BaseVec(ch: seq<Row>, r: nat): Vec
    requires 4 * r <= |Band(ch)|
  {
    Centered(Ravel(BaseRows(ch, r)))
  }

  function ShiftedVec(ref: seq<Row>, r: nat, dy: int): Vec
    requires 4 * r <= |Band(ref)| && Within(r, dy)
  {
    Centered(Ravel(ShiftedRows(ref, r, dy)))
  }

  lemma SliceOfSlice(s: seq<Row>, a: nat, b: nat, c: nat, d: nat, i: nat)
    requires a <= b <= |s| && c <= d <= b - a && i < d - c
    ensures s[a..b][c..d][i] == s[a + c + i]
  {
  }

  /** Which rows of the picture the base and the shifted rows are. */
  lemma RowsAt(ch: seq<Row>, ref: seq<Row>, r: nat, dy: int, i: nat)
    requires |ch| == |ref| && 0 < r && 4 * r <= |Band(ch)| && Within(r, dy) && i < |Band(ch)| - 2 * r
    ensures var a := |ch| * 35 / 100;
            a + r + i < |ch| && 0 <= a + r + dy + i < |ref| &&
            i < |BaseRows(ch, r)| && BaseRows(ch, r)[i] == ch[a + r + i] &&
            i < |ShiftedRows(ref, r, dy)| && ShiftedRows(ref, r, dy)[i] == ref[a + r + dy + i]
  {
    var a, b, n := |ch| * 35 / 100, |ch| * 65 / 100, |Band(ch)|;
    SliceOfSlice(ch, a, b, r, n - r, i);
    SliceOfSlice(ref, a, b, r + dy, n - r + dy, i);
  }

  lemma RowCounts(ch: seq<Row>, ref: seq<Row>, r: nat, dy: int)
    requires |ch| == |ref| && 0 < r && 4 * r <= |Band(ch)| && Within(r, dy)
    ensures |BaseRows(ch, r)| == |ShiftedRows(ref, r, dy)| == |Band(ch)| - 2 * r
  {
  }

  /** Base and shifted rows can be compared whenever both vary. */
  lemma Comparable(ch: seq<Row>, ref: seq<Row>, r: nat, dy: int)
    requires SameShape(ch, ref) && 4 * r <= |Band(ch)| && Within(r, dy)
    ensures Norm2(BaseVec(ch, r)) * Norm2(ShiftedVec(ref, r, dy)) != 0.0 ==> |BaseVec(ch, r)| == |ShiftedVec(ref, r, dy)|
  {
    hide Columns, Band;
    if r == 0 {
      assert BaseVec(ch, r) == [];
    } else {
      hide BaseRows, ShiftedRows;
      var base, moved := BaseRows(ch, r), ShiftedRows(ref, r, dy);
      RowCounts(ch, ref, r, dy);
      forall i | 0 <= i < |base| ensures |base[i]| == |moved[i]| {
        RowsAt(ch, ref, r, dy, i);
      }
      RavelLength(base, moved);
    }
  }

  /** The score of a shift. */
  function Score(ch: seq<Row>, ref: seq<Row>, r: nat, dy: int): Option<real>
    requires SameShape(ch, ref) && 4 * r <= |Band(ch)| && Within(r, dy)
  {
    Comparable(ch, ref, r, dy);
    Correlation(BaseVec(ch, r), ShiftedVec(ref, r, dy))
  }

  lemma ScoreBounds(ch: seq<Row>, ref: seq<Row>, r: nat, dy: int)
    requires SameShape(ch, ref) && 4 * r <= |Band(ch)| && Within(r, dy)
    ensures Score(ch, ref, r, dy).Some? ==> -1.0 <= Score(ch, ref, r, dy).value <= 1.0
  {
    Comparable(ch, ref, r, dy);
    if Score(ch, ref, r, dy).Some? {
      CorrelationBounds(BaseVec(ch, r), ShiftedVec(ref, r, dy));
    }
  }

  lemma FlatHasNoScore(ch: seq<Row>, ref: seq<Row>, r: nat, dy: int)
    requires SameShape(ch, ref) && 4 * r <= |Band(ch)| && Within(r, dy) && Norm2(BaseVec(ch, r)) == 0.0
    ensures Score(ch, ref, r, dy).None?
  {
  }

  /** `lead` is the smallest shift of highest score, or 0 if no shift below `end` has a score. */
  ghost predicate FirstBest(ch: seq<Row>, ref: seq<Row>, r: nat, end: int, lead: int)
    requires SameShape(ch, ref) && 4 * r <= |Band(ch)| && end <= r + 1
  {
    if forall dy :: 0 <= r + dy && dy < end ==> Score(ch, ref, r, dy).None? then lead == 0
    else
      0 <= r + lead && lead < end && Score(ch, ref, r, lead).Some? &&
      forall dy :: 0 <= r + dy && dy < end && Score(ch, ref, r, dy).Some? ==>
        Score(ch, ref, r, dy).value <= Score(ch, ref, r, lead).value &&
        (dy < lead ==> Score(ch, ref, r, dy).value < Score(ch, ref, r, lead).value)
  }

  /** `_vlead`: the shift of `ref` that correlates best with `ch`. */
  method VLead(ch: seq<Row>, ref: seq<Row>, rng: nat) returns (lead: int)
    requires SameShape(ch, ref)
    ensures FirstBest(ch, ref, Range(ch, rng), Range(ch, rng) + 1, lead)
  {
    hide Score;
    var r := Range(ch, rng);
    var best := -4.0;      // the signed square of the initial -2.0
    lead := 0;
    var dy: int := 0 - r;
    while dy <= r
      invariant 0 <= r + dy <= 2 * r + 1
      invariant FirstBest(ch, ref, r, dy, lead)
      invariant best == -4.0 ==> forall e :: 0 <= r + e && e < dy ==> Score(ch, ref, r, e).None?
      invariant best != -4.0 ==> 0 <= r + lead && lead < dy && Score(ch, ref, r, lead) == Some(best)
    {
      ScoreBounds(ch, ref, r, dy);
      var c := Score(ch, ref, r, dy);
      if c.Some? && c.value > best {
        lead, best := dy, c.value;
      }
      dy := dy + 1;
    }
  }

  // ---- exact shifts -------------------------------------------------------------------------

  /** Within the base window the channel is the reference moved by `d` lines. */
  ghost predicate ExactShift(ch: seq<Row>, ref: seq<Row>, r: nat, d: int)
    requires SameShape(ch, ref) && 4 * r <= |Band(ch)| && Within(r, d)
  {
    forall i :: |ch| * 35 / 100 + r <= i < |ch| * 65 / 100 - r ==> ch[i] == ref[i + d]
  }

  lemma ShiftMatches(ch: seq<Row>, ref: seq<Row>, r: nat, d: int)
    requires SameShape(ch, ref) && 0 < r && 4 * r <= |Band(ch)| && Within(r, d)
    requires ExactShift(ch, ref, r, d)
    ensures BaseRows(ch, r) == ShiftedRows(ref, r, d)
  {
    hide Band, BaseRows, ShiftedRows;
    var base, moved := BaseRows(ch, r), ShiftedRows(ref, r, d);
    RowCounts(ch, ref, r, d);
    forall i | 0 <= i < |base| ensures base[i] == moved[i] {
      RowsAt(ch, ref, r, d, i);
      InWindow(ch, r, i);
    }
  }

  lemma InWindow(ch: seq<Row>, r: nat, i: nat)
    requires 4 * r <= |Band(ch)| && i < |Band(ch)| - 2 * r
    ensures |ch| * 35 / 100 + r <= |ch| * 35 / 100 + r + i < |ch| * 65 / 100 - r
  {
  }

  /**
   If the channel is an exact shift of the reference and not constant, that shift
   has the highest possible score; the measured lead scores the same and is not
   larger, and it is that shift exactly when no smaller one correlates perfectly.
   */
  lemma ExactShiftMeasured(ch: seq<Row>, ref: seq<Row>, rng: nat, d: int, lead: int)
    requires SameShape(ch, ref)
    requires var r := Range(ch, rng);
             0 < r && Within(r, d) && ExactShift(ch, ref, r, d) && Norm2(BaseVec(ch, r)) > 0.0 &&
             FirstBest(ch, ref, r, r + 1, lead)
    ensures var r := Range(ch, rng);
            0 <= r + lead && lead <= d && Score(ch, ref, r, lead) == Score(ch, ref, r, d) == Some(1.0) &&
            (forall dy :: Within(r, dy) && Score(ch, ref, r, dy).Some? ==> Score(ch, ref, r, dy).value <= 1.0) &&
            ((forall dy :: 0 <= r + dy && dy < d ==> Score(ch, ref, r, dy) != Some(1.0)) <==> lead == d)
  {
    var r := Range(ch, rng);
    assert Score(ch, ref, r, d) == Some(1.0) by {
      ShiftMatches(ch, ref, r, d);
      SelfCorrelation(BaseVec(ch, r));
    }
    hide Score;
    forall dy | Within(r, dy) && Score(ch, ref, r, dy).Some? ensures Score(ch, ref, r, dy).value <= 1.0 {
      ScoreBounds(ch, ref, r, dy);
    }
  }
}
