/**
 What the correlation search sees of the pixels: which words it samples, and that
 it looks at their differences only (tools/pakon_image.py, _vlead).
 */
module LeadBands {
  import opened Bytes
  import opened Arith
  import opened Leads

  // ---- the mean ----------------------------------------------------------------------------

  function Less(x: Vec, m: real): (c: Vec)
    ensures |c| == |x|
  {
    seq<real>(|x|, i requires 0 <= i < |x| => x[i] - m)
  }

  lemma {:induction false} TotalLess(x: Vec, m: real)
    ensures Total(Less(x, m)) == Total(x) - m * |x| as real
  {
    if x != [] {
      var n := |x| - 1;
      TotalLess(x[..n], m);
      assert Less(x, m)[..n] == Less(x[..n], m);
      assert m * |x| as real == m * n as real + m;
    }
  }

  lemma CenteredIsLess(x: Vec)
    requires x != []
    ensures Centered(x) == Less(x, Total(x) / |x| as real)
  {
  }

  /** A centred vector sums to zero. */
  lemma CenteredTotal(x: Vec)
    ensures Total(Centered(x)) == 0.0
  {
    if x != [] {
      var n := |x| as real;
      CenteredIsLess(x);
      TotalLess(x, Total(x) / n);
      assert Total(x) / n * n == Total(x);
    }
  }

  /** Centring keeps all differences. */
  lemma CenteredDifferences(x: Vec, i: nat, j: nat)
    requires i < |x| && j < |x|
    ensures Centered(x)[i] - Centered(x)[j] == x[i] - x[j]
  {
  }

  lemma Shifted(t: real, m: real, n: real)
    requires n > 0.0
    ensures (t - m * n) / n == t / n - m
  {
    assert (t / n - m) * n == t - m * n;
  }

  /** Adding a constant makes no difference to the centred vector. */
  lemma CenteredLess(x: Vec, m: real)
    ensures Centered(Less(x, m)) == Centered(x)
  {
    if x == [] {
      assert Less(x, m) == x;
    } else {
      var n := |x| as real;
      var y := Less(x, m);
      TotalLess(x, m);
      Shifted(Total(x), m, n);
      CenteredIsLess(x);
      CenteredIsLess(y);
      assert Total(y) / n == Total(x) / n - m;
      hide Total;
      forall i | 0 <= i < |x| ensures Centered(y)[i] == Centered(x)[i] {
        assert y[i] == x[i] - m;
      }
    }
  }

  predicate AllEqual(x: Vec) {
    forall i, j :: 0 <= i < |x| && 0 <= j < |x| ==> x[i] == x[j]
  }

  lemma {:induction false} TotalOfZeros(x: Vec)
    requires AllZero(x)
    ensures Total(x) == 0.0
  {
    if x != [] {
      TotalOfZeros(x[..|x| - 1]);
    }
  }

  lemma {:induction false} TotalOfEquals(x: Vec, v: real)
    requires forall i :: 0 <= i < |x| ==> x[i] == v
    ensures Total(x) == v * |x| as real
  {
    if x != [] {
      var n := |x| - 1;
      TotalOfEquals(x[..n], v);
      assert v * |x| as real == v * n as real + v;
    }
  }

  /** A centred vector has no length exactly if all elements were equal. */
  lemma FlatIff(x: Vec)
    ensures Norm2(Centered(x)) == 0.0 <==> AllEqual(x)
  {
    hide Norm2;
    var c := Centered(x);
    ZeroNorm(c);
    if AllEqual(x) && x != [] {
      var n := |x| as real;
      TotalOfEquals(x, x[0]);
      assert x[0] * n / n == x[0];
    }
    if AllZero(c) {
      forall i, j | 0 <= i < |x| && 0 <= j < |x| ensures x[i] == x[j] {
        CenteredDifferences(x, i, j);
      }
    }
  }

  // ---- the sampled words -----------------------------------------------------------------------

  /** Words of a row of `width` that are sampled: those in the columns 0, 3, 6, ... */
  function Sampled(width: nat): nat {
    (width + 2) / 3
  }

  lemma ColumnsNext(row: Row, from: nat)
    requires from < |row|
    ensures Columns(row, from) == [row[from] as real] + Columns(row, from + 3)
  {
  }

  lemma {:induction false} ColumnsAt(row: Row, from: nat, j: nat)
    requires from + 3 * j < |row|
    ensures j < |Columns(row, from)| && Columns(row, from)[j] == row[from + 3 * j] as real
    decreases j
  {
    hide Columns;
    ColumnsNext(row, from);
    if j > 0 {
      ColumnsAt(row, from + 3, j - 1);
    }
  }

  lemma {:induction false} ColumnsCount(row: Row, from: nat)
    ensures |Columns(row, from)| == if from < |row| then Sampled(|row| - from) else 0
    decreases if from < |row| then |row| - from else 0
  {
    if from < |row| {
      ColumnsCount(row, from + 3);
    }
  }

  predicate Wide(rows: seq<Row>, width: nat) {
    forall i :: 0 <= i < |rows| ==> |rows[i]| == width
  }

  lemma {:induction false} RavelCount(rows: seq<Row>, width: nat)
    requires Wide(rows, width)
    ensures |Ravel(rows)| == |rows| * Sampled(width)
  {
    if rows != [] {
      var n := |rows| - 1;
      RavelCount(rows[..n], width);
      ColumnsCount(rows[n], 0);
      assert |rows| * Sampled(width) == n * Sampled(width) + Sampled(width);
    }
  }

  /** Each row contributes its words in the columns 0, 3, 6, ..., one row after the other. */
  lemma {:induction false} RavelAt(rows: seq<Row>, width: nat, i: nat, j: nat)
    requires Wide(rows, width) && i < |rows| && 3 * j < width
    ensures |Ravel(rows)| == |rows| * ((width + 2) / 3)
    ensures i * ((width + 2) / 3) + j < |Ravel(rows)|
    ensures Ravel(rows)[i * ((width + 2) / 3) + j] == rows[i][3 * j] as real
  {
    var n := |rows| - 1;
    var front := rows[..n];
    RavelCount(rows, width);
    RavelCount(front, width);
    ColumnsAt(rows[n], 0, j);
    ColumnsCount(rows[n], 0);
    if i < n {
      RavelAt(front, width, i, j);
    }
  }

  // ---- flat bands ----------------------------------------------------------------------------------

  /** The rows of the base window: the central band less the search range at both ends. */
  function BaseRange(rows: nat, rng: nat): nat {
    Min(rng, (rows * 65 / 100 - rows * 35 / 100) / 4)
  }

  /** Words in sampled columns of the base window. */
  ghost predicate FlatBase(ch: seq<Row>, rng: nat, v: nat) {
    var r := BaseRange(|ch|, rng);
    forall i, j {:trigger ch[i][3 * j]} ::
      0 <= i < |ch| && |ch| * 35 / 100 + r <= i < |ch| * 65 / 100 - r && 0 <= j && 3 * j < |ch[i]| ==> ch[i][3 * j] == v
  }

  lemma {:induction false} ColumnsFlat(row: Row, from: nat, v: nat)
    requires from % 3 == 0 && forall j {:trigger row[3 * j]} :: 0 <= j && 3 * j < |row| ==> row[3 * j] == v
    ensures forall k :: 0 <= k < |Columns(row, from)| ==> Columns(row, from)[k] == v as real
    decreases if from < |row| then |row| - from else 0
  {
    if from < |row| {
      assert row[3 * (from / 3)] == v;
      ColumnsFlat(row, from + 3, v);
    }
  }

  lemma {:induction false} RavelFlat(rows: seq<Row>, v: nat)
    requires forall i, j {:trigger rows[i][3 * j]} :: 0 <= i < |rows| && 0 <= j && 3 * j < |rows[i]| ==> rows[i][3 * j] == v
    ensures forall k :: 0 <= k < |Ravel(rows)| ==> Ravel(rows)[k] == v as real
  {
    if rows != [] {
      var n := |rows| - 1;
      RavelFlat(rows[..n], v);
      ColumnsFlat(rows[n], 0, v);
    }
  }

  lemma BaseRowAt(ch: seq<Row>, r: nat, i: nat)
    requires 0 < r && 4 * r <= |Band(ch)| && i < |BaseRows(ch, r)|
    ensures var k := |ch| * 35 / 100 + r + i; k < |ch| * 65 / 100 - r && k < |ch| && BaseRows(ch, r)[i] == ch[k]
  {
  }

  /** A channel whose sampled words in the base window are all equal measures a lead of 0. */
  lemma FlatMeasuresZero(ch: seq<Row>, ref: seq<Row>, rng: nat, v: nat, lead: int)
    requires SameShape(ch, ref) && FirstBest(ch, ref, Range(ch, rng), Range(ch, rng) + 1, lead)
    requires FlatBase(ch, rng, v)
    ensures lead == 0
  {
    var r := Range(ch, rng);
    FlatBaseRavel(ch, rng, v);
    FlatIff(Ravel(BaseRows(ch, r)));
    hide Score;
    forall dy | Within(r, dy) ensures Score(ch, ref, r, dy).None? {
      FlatHasNoScore(ch, ref, r, dy);
    }
  }

  lemma FlatBaseRavel(ch: seq<Row>, rng: nat, v: nat)
    requires FlatBase(ch, rng, v)
    ensures AllEqual(Ravel(BaseRows(ch, Range(ch, rng))))
  {
    var r := Range(ch, rng);
    var base := BaseRows(ch, r);
    forall i, j {:trigger base[i][3 * j]} | 0 <= i < |base| && 0 <= j && 3 * j < |base[i]| ensures base[i][3 * j] == v {
      BaseRowAt(ch, r, i);
      assert ch[|ch| * 35 / 100 + r + i][3 * j] == v;
    }
    RavelFlat(base, v);
  }

  // ---- brightness ------------------------------------------------------------------------------------

  /** The same picture, brighter by `k` everywhere. */
  ghost predicate Brighter(ch: seq<Row>, other: seq<Row>, k: int) {
    |ch| == |other| &&
    forall i :: 0 <= i < |ch| ==> |ch[i]| == |other[i]| && forall j :: 0 <= j < |ch[i]| ==> other[i][j] == ch[i][j] + k
  }

  lemma {:induction false} ColumnsBrighter(row: Row, other: Row, from: nat, k: int)
    requires |row| == |other| && forall j :: 0 <= j < |row| ==> other[j] == row[j] + k
    ensures Columns(other, from) == Less(Columns(row, from), -(k as real))
    decreases if from < |row| then |row| - from else 0
  {
    if from < |row| {
      ColumnsBrighter(row, other, from + 3, k);
      ColumnsNext(row, from);
      ColumnsNext(other, from);
      hide Columns;
    }
  }

  lemma {:induction false} RavelBrighter(rows: seq<Row>, other: seq<Row>, k: int)
    requires Brighter(rows, other, k)
    ensures Ravel(other) == Less(Ravel(rows), -(k as real))
  {
    if rows != [] {
      var n := |rows| - 1;
      RavelBrighter(rows[..n], other[..n], k);
      ColumnsBrighter(rows[n], other[n], 0, k);
    }
  }

  lemma BrighterSlice(ch: seq<Row>, other: seq<Row>, k: int, a: nat, b: nat)
    requires Brighter(ch, other, k) && a <= b <= |ch|
    ensures Brighter(ch[a..b], other[a..b], k)
  {
  }

  lemma NothingBrighter(k: int)
    ensures Brighter([], [], k)
  {
  }

  lemma BandBrighter(ch: seq<Row>, other: seq<Row>, k: int)
    requires Brighter(ch, other, k)
    ensures |ch| == |other| && Brighter(Band(ch), Band(other), k)
  {
    BrighterSlice(ch, other, k, |ch| * 35 / 100, |ch| * 65 / 100);
  }

  lemma SameShapeKept(ch: seq<Row>, ref: seq<Row>, ch': seq<Row>, ref': seq<Row>, k: int, l: int)
    requires SameShape(ch, ref) && Brighter(ch, ch', k) && Brighter(ref, ref', l)
    ensures SameShape(ch', ref')
  {
  }

  /** A constant added to all words of the channel, or of the reference, changes no score. */
  lemma BrightnessIgnored(ch: seq<Row>, ref: seq<Row>, ch': seq<Row>, ref': seq<Row>, k: int, l: int, r: nat, dy: int)
    requires SameShape(ch, ref) && 4 * r <= |Band(ch)| && Within(r, dy)
    requires Brighter(ch, ch', k) && Brighter(ref, ref', l)
    ensures SameShape(ch', ref') && Score(ch', ref', r, dy) == Score(ch, ref, r, dy)
  {
    hide Ravel, Centered, Norm2, Dot, Brighter;
    SameShapeKept(ch, ref, ch', ref', k, l);
    BandBrighter(ch, ch', k);
    BandBrighter(ref, ref', l);
    var m := |Band(ch)|;
    if r > 0 { BrighterSlice(Band(ch), Band(ch'), k, r, m - r); }
    BrighterSlice(Band(ref), Band(ref'), l, r + dy, m - r + dy);
    NothingBrighter(k);
    RavelBrighter(BaseRows(ch, r), BaseRows(ch', r), k);
    RavelBrighter(ShiftedRows(ref, r, dy), ShiftedRows(ref', r, dy), l);
    CenteredLess(Ravel(BaseRows(ch, r)), -(k as real));
    CenteredLess(Ravel(ShiftedRows(ref, r, dy)), -(l as real));
  }
}
