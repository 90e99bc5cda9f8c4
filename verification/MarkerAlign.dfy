/**
 Finding the row origin of a raw capture by its marker bit, and the channel
 slices taken from the aligned rows (tools/pakon_image.py, marker_align and main).
 Fractions are compared exactly.
 */
module MarkerAlign {
  import opened Arith
  import opened Bytes

  type Row = seq<uint16>

  const SAMPLE_ROWS := 3000

  /** A rectangular image with rows of `width` words. */
  predicate Rectangular(img: seq<Row>, width: nat) {
    forall i :: 0 <= i < |img| ==> |img[i]| == width
  }

  function Stride(rows: nat): (s: nat)
    ensures s > 0
  {
    Max(1, rows / SAMPLE_ROWS)
  }

  /** Row numbers that are sampled: every `stride`-th from the top. */
  predicate Sampled(rows: nat, i: nat) {
    i < rows && i % Stride(rows) == 0
  }

  /** The sampled rows, `img[::stride]`. */
  function Sample(img: seq<Row>, from: nat, stride: nat): (s: seq<Row>)
    requires stride > 0
    decreases if from < |img| then |img| - from else 0
  {
    if from >= |img| then [] else [img[from]] + Sample(img, from + stride, stride)
  }

  /** In how many rows the low bit of word `c` is set. */
  function BitCount(rows: seq<Row>, c: nat): (n: nat)
    requires forall i :: 0 <= i < |rows| ==> c < |rows[i]|
    ensures n <= |rows|
  {
    if rows == [] then 0 else BitCount(rows[1..], c) + rows[0][c] % 2
  }

  /** Position of the first largest element. */
  function ArgMax(s: seq<nat>): (k: nat)
    requires s != []
    ensures k < |s|
    ensures forall i :: 0 <= i < |s| ==> s[i] <= s[k]
    ensures forall i :: 0 <= i < k ==> s[i] < s[k]
  {
    if |s| == 1 then 0
    else
      var k := ArgMax(s[..|s| - 1]);
      if s[|s| - 1] > s[k] then |s| - 1 else k
  }

  /** Rotate a row left by `k`. */
  function RollLeft(row: Row, k: nat): (r: Row)
    requires k <= |row|
    ensures |r| == |row|
  {
    row[k..] + row[..k]
  }

  function Counts(rows: seq<Row>, width: nat): (s: seq<nat>)
    requires Rectangular(rows, width)
    ensures |s| == width && forall c :: 0 <= c < width ==> s[c] == BitCount(rows, c)
  {
    seq(width, c requires 0 <= c < width => BitCount(rows, c))
  }

  lemma {:induction false} SampleRectangular(img: seq<Row>, from: nat, stride: nat, width: nat)
    requires stride > 0 && Rectangular(img, width)
    ensures Rectangular(Sample(img, from, stride), width)
    ensures from < |img| ==> Sample(img, from, stride) != []
    decreases if from < |img| then |img| - from else 0
  {
    if from < |img| {
      SampleRectangular(img, from + stride, stride, width);
    }
  }

  function RollAll(img: seq<Row>, cm: nat, width: nat): (out: seq<Row>)
    requires Rectangular(img, width) && cm <= width
    ensures |out| == |img| && Rectangular(out, width)
  {
    seq(|img|, i requires 0 <= i < |img| => RollLeft(img[i], cm))
  }

  /**
   `marker_align` on rows of `width` words.  The result carries the column of the
   marker, unless no column is set in 60 percent of the sampled rows.  Without any
   row every fraction is undefined and column 0 is reported.
   */
  function Align(img: seq<Row>, width: nat): (res: (seq<Row>, Option<nat>))
    requires width > 0 && Rectangular(img, width)
  {
    SampleRectangular(img, 0, Stride(|img|), width);
    var sub := Sample(img, 0, Stride(|img|));
    var counts := Counts(sub, width);
    var cm := ArgMax(counts);
    if counts[cm] * 10 < |sub| * 6 then (img, None) else (RollAll(img, cm, width), Some(cm))
  }

  // ---- captures ----------------------------------------------------------------------------

  /** The words a scanner sends: lines of `width` words, the marker in the low bit of word 0. */
  ghost predicate Marked(line: (nat, nat) -> uint16, width: nat) {
    width > 0 && forall i: nat :: line(i, 0) % 2 == 1
  }

  /** Word `n` of the stream of lines. */
  function StreamWord(line: (nat, nat) -> uint16, width: nat, n: nat): uint16
    requires width > 0
  {
    line(n / width, n % width)
  }

  function CapturedRow(line: (nat, nat) -> uint16, width: nat, from: nat): (row: Row)
    requires width > 0
    ensures |row| == width
  {
    seq<uint16>(width, j requires 0 <= j < width => StreamWord(line, width, from + j))
  }

  /** What a capture that starts `k` words into a line sees, cut into rows of one line's length. */
  function Captured(line: (nat, nat) -> uint16, width: nat, k: nat, rows: nat): (img: seq<Row>)
    requires width > 0
    ensures |img| == rows && Rectangular(img, width)
  {
    seq(rows, i requires 0 <= i < rows => CapturedRow(line, width, k + i * width))
  }

  /** Where column `c` of a capture starting at `k` lies in its line, and which line it is. */
  lemma ColumnOf(line: (nat, nat) -> uint16, width: nat, k: nat, rows: nat, i: nat, c: nat)
    requires width > 0 && k < width && i < rows && c < width
    ensures var img := Captured(line, width, k, rows);
            img[i][c] == if k + c < width then line(i, k + c) else line(i + 1, k + c - width)
  {
    var n := k + i * width + c;
    var img := Captured(line, width, k, rows);
    assert img[i] == CapturedRow(line, width, k + i * width);
    assert img[i][c] == StreamWord(line, width, n);
    if k + c < width {
      DivModUnique(n, width, i, k + c);
    } else {
      assert (i + 1) * width == i * width + width;
      DivModUnique(n, width, i + 1, k + c - width);
    }
  }

  /** Column `c` has a clear low bit in some sampled row. */
  ghost predicate SomeClear(img: seq<Row>, c: nat) {
    exists i :: 0 <= i < |img| && Sampled(|img|, i) && c < |img[i]| && img[i][c] % 2 == 0
  }

  /** Every column but the marker's has a clear low bit in some sampled row. */
  ghost predicate OnlyMarker(img: seq<Row>, width: nat, marker: nat) {
    forall c :: 0 <= c < width && c != marker ==> SomeClear(img, c)
  }

  /** The column of word 0. */
  function Origin(width: nat, k: nat): (c: nat)
    requires k < width
    ensures c < width
  {
    if k == 0 then 0 else width - k
  }

  lemma {:induction false} AllSet(rows: seq<Row>, c: nat)
    requires forall i :: 0 <= i < |rows| ==> c < |rows[i]| && rows[i][c] % 2 == 1
    ensures BitCount(rows, c) == |rows|
  {
    if rows != [] {
      AllSet(rows[1..], c);
    }
  }

  lemma {:induction false} OneClear(rows: seq<Row>, c: nat, m: nat)
    requires forall i :: 0 <= i < |rows| ==> c < |rows[i]|
    requires m < |rows| && rows[m][c] % 2 == 0
    ensures BitCount(rows, c) < |rows|
  {
    if m > 0 {
      OneClear(rows[1..], c, m - 1);
    }
  }

  /** The sample consists of exactly the rows at multiples of the stride. */
  lemma {:induction false} SampleAt(img: seq<Row>, from: nat, stride: nat, m: nat)
    requires stride > 0
    ensures m < |Sample(img, from, stride)| <==> from + m * stride < |img|
    ensures from + m * stride < |img| ==> Sample(img, from, stride)[m] == img[from + m * stride]
    decreases m
  {
    if m > 0 {
      assert from + stride + (m - 1) * stride == from + m * stride;
      SampleAt(img, from + stride, stride, m - 1);
    }
  }

  lemma Multiple(i: nat, stride: nat)
    requires stride > 0 && i % stride == 0
    ensures i == i / stride * stride
  {
  }

  lemma SampledColumn(img: seq<Row>, width: nat, c: nat)
    requires Rectangular(img, width) && c < width
    requires SomeClear(img, c)
    ensures Rectangular(Sample(img, 0, Stride(|img|)), width)
    ensures BitCount(Sample(img, 0, Stride(|img|)), c) < |Sample(img, 0, Stride(|img|))|
  {
    var stride := Stride(|img|);
    var i :| 0 <= i < |img| && Sampled(|img|, i) && c < |img[i]| && img[i][c] % 2 == 0;
    SampleRectangular(img, 0, stride, width);
    Multiple(i, stride);
    SampleAt(img, 0, stride, i / stride);
    OneClear(Sample(img, 0, stride), c, i / stride);
  }

  lemma {:induction false} SampleKeeps(img: seq<Row>, from: nat, stride: nat, c: nat)
    requires stride > 0 && forall i :: 0 <= i < |img| ==> c < |img[i]| && img[i][c] % 2 == 1
    ensures forall i :: 0 <= i < |Sample(img, from, stride)| ==>
              c < |Sample(img, from, stride)[i]| && Sample(img, from, stride)[i][c] % 2 == 1
    decreases if from < |img| then |img| - from else 0
  {
    if from < |img| {
      SampleKeeps(img, from + stride, stride, c);
    }
  }

  /** If the marker is set in every row and no other column always is, its column is found. */
  lemma MarkerFound(img: seq<Row>, width: nat, marker: nat)
    requires img != [] && Rectangular(img, width) && marker < width
    requires forall i :: 0 <= i < |img| ==> img[i][marker] % 2 == 1
    requires OnlyMarker(img, width, marker)
    ensures Align(img, width) == (RollAll(img, marker, width), Some(marker))
  {
    var sub := Sample(img, 0, Stride(|img|));
    SampleRectangular(img, 0, Stride(|img|), width);
    SampleKeeps(img, 0, Stride(|img|), marker);
    AllSet(sub, marker);
    var counts := Counts(sub, width);
    var cm := ArgMax(counts);
    assert counts[marker] == |sub| <= counts[cm] <= |sub|;
    if cm != marker {
      SampledColumn(img, width, cm);
    }
  }

  // ---- when a marker is found ------------------------------------------------------------------

  /** The sampled rows from row `from` on, and those of them whose word `c` has its low bit set. */
  function RowsFrom(img: seq<Row>, from: nat, stride: nat): set<nat>
    requires stride > 0
  {
    set i: nat | from <= i < |img| && i % stride == 0
  }

  function MarkedFrom(img: seq<Row>, from: nat, stride: nat, c: nat): set<nat>
    requires stride > 0
  {
    set i: nat | from <= i < |img| && i % stride == 0 && c < |img[i]| && img[i][c] % 2 == 1
  }

  lemma NextMultiple(from: nat, stride: nat, i: nat)
    requires stride > 0 && from % stride == 0 && from < i && i % stride == 0
    ensures from + stride <= i
  {
    var a, b := from / stride, i / stride;
    assert from == a * stride && i == b * stride;
    if b <= a {
      MulLe(b, a, stride);
    }
    MulLe(a + 1, b, stride);
    assert (a + 1) * stride == a * stride + stride;
  }

  lemma {:induction false} SampleCounts(img: seq<Row>, from: nat, stride: nat, c: nat)
    requires stride > 0 && from % stride == 0 && forall i :: 0 <= i < |img| ==> c < |img[i]|
    ensures |Sample(img, from, stride)| == |RowsFrom(img, from, stride)|
    ensures forall i :: 0 <= i < |Sample(img, from, stride)| ==> c < |Sample(img, from, stride)[i]|
    ensures BitCount(Sample(img, from, stride), c) == |MarkedFrom(img, from, stride, c)|
    decreases if from < |img| then |img| - from else 0
  {
    if from < |img| {
      var next := from + stride;
      StepMultiple(from, stride);
      SampleCounts(img, next, stride, c);
      SetsStep(img, from, stride, c);
      var rest := Sample(img, next, stride);
      assert ([img[from]] + rest)[1..] == rest;
    } else {
      assert RowsFrom(img, from, stride) == {} && MarkedFrom(img, from, stride, c) == {};
    }
  }

  lemma StepMultiple(from: nat, stride: nat)
    requires stride > 0 && from % stride == 0
    ensures (from + stride) % stride == 0
  {
    DivModUnique(from + stride, stride, from / stride + 1, 0);
  }

  lemma SetsStep(img: seq<Row>, from: nat, stride: nat, c: nat)
    requires stride > 0 && from < |img| && from % stride == 0 && c < |img[from]|
    ensures |RowsFrom(img, from, stride)| == 1 + |RowsFrom(img, from + stride, stride)|
    ensures |MarkedFrom(img, from, stride, c)| == img[from][c] % 2 + |MarkedFrom(img, from + stride, stride, c)|
  {
    var next := from + stride;
    RowsStep(img, from, stride);
    var rest := MarkedFrom(img, next, stride, c);
    forall i: nat ensures i in MarkedFrom(img, from, stride, c) <==> (i == from && img[from][c] % 2 == 1) || i in rest {
      assert i in RowsFrom(img, from, stride) <==> i == from || i in RowsFrom(img, next, stride);
    }
    assert MarkedFrom(img, from, stride, c) == (if img[from][c] % 2 == 1 then {from} else {}) + rest;
  }

  lemma RowsStep(img: seq<Row>, from: nat, stride: nat)
    requires stride > 0 && from < |img| && from % stride == 0
    ensures RowsFrom(img, from, stride) == {from} + RowsFrom(img, from + stride, stride)
    ensures from !in RowsFrom(img, from + stride, stride)
  {
    forall i: nat | from < i < |img| && i % stride == 0 ensures from + stride <= i {
      NextMultiple(from, stride, i);
    }
  }

  /** Column `c` is marked in this many of the sampled rows. */
  function MarkedRows(img: seq<Row>, c: nat): nat {
    var stride := Max(1, |img| / 3000);
    |set i: nat | i < |img| && i % stride == 0 && c < |img[i]| && img[i][c] % 2 == 1|
  }

  /**
   The marker column is the first of those with the low bit set in the most sampled
   rows, provided these are at least 60 percent of the sampled rows; otherwise the
   picture stays as it is.
   */
  lemma AlignIff(img: seq<Row>, width: nat, c: nat)
    requires width > 0 && Rectangular(img, width)
    ensures var stride := Max(1, |img| / 3000);
            var sampled := |set i: nat | i < |img| && i % stride == 0|;
            Align(img, width).1 == Some(c) <==>
              c < width && 100 * MarkedRows(img, c) >= 60 * sampled &&
              forall d :: 0 <= d < width ==>
                MarkedRows(img, d) <= MarkedRows(img, c) && (d < c ==> MarkedRows(img, d) < MarkedRows(img, c))
    ensures Align(img, width).0 == match Align(img, width).1 case Some(cm) => RollAll(img, cm, width) case None => img
  {
    var stride := Stride(|img|);
    var sub := Sample(img, 0, stride);
    SampleRectangular(img, 0, stride, width);
    assert RowsFrom(img, 0, stride) == set i: nat | i < |img| && i % stride == 0;
    forall d: nat | d < width ensures BitCount(sub, d) == MarkedRows(img, d) && |sub| == |RowsFrom(img, 0, stride)| {
      SampleCounts(img, 0, stride, d);
      assert MarkedFrom(img, 0, stride, d) == set i: nat | i < |img| && i % stride == 0 && d < |img[i]| && img[i][d] % 2 == 1;
    }
    hide MarkedRows, BitCount, Sample;
    var counts := Counts(sub, width);
    var cm := ArgMax(counts);
    assert forall d :: 0 <= d < width ==> counts[d] == MarkedRows(img, d);
    assert counts[cm] == MarkedRows(img, cm);
  }

  /** Line `i`, with line `i + 1` showing in the first `k` columns; every word is in its own column. */
  function Sheared(line: (nat, nat) -> uint16, width: nat, k: nat, i: nat): (row: Row)
    ensures |row| == width
  {
    seq<uint16>(width, j requires 0 <= j < width => if j < k then line(i + 1, j) else line(i, j))
  }

  lemma RolledRow(line: (nat, nat) -> uint16, width: nat, k: nat, rows: nat, i: nat)
    requires width > 0 && k < width && i < rows
    ensures RollLeft(Captured(line, width, k, rows)[i], Origin(width, k)) == Sheared(line, width, k, i)
  {
    hide Captured;
    var img, cm := Captured(line, width, k, rows), Origin(width, k);
    forall j | 0 <= j < width ensures RollLeft(img[i], cm)[j] == Sheared(line, width, k, i)[j] {
      var c := if cm + j < width then cm + j else cm + j - width;
      assert RollLeft(img[i], cm)[j] == img[i][c];
      ColumnOf(line, width, k, rows, i, c);
    }
  }

  /** Aligned, a capture starting at any word shows the same word of a line in the same column. */
  lemma AlignmentIgnoresStart(line: (nat, nat) -> uint16, width: nat, k: nat, rows: nat)
    requires Marked(line, width) && k < width && rows > 0
    requires OnlyMarker(Captured(line, width, k, rows), width, Origin(width, k))
    ensures var res := Align(Captured(line, width, k, rows), width);
            res.1 == Some(Origin(width, k)) && |res.0| == rows &&
            forall i :: 0 <= i < rows ==> res.0[i] == Sheared(line, width, k, i)
  {
    hide Align, Captured, RollLeft, OnlyMarker, Sheared;
    var img, cm := Captured(line, width, k, rows), Origin(width, k);
    forall i | 0 <= i < rows ensures img[i][cm] % 2 == 1 {
      ColumnOf(line, width, k, rows, i, cm);
    }
    MarkerFound(img, width, cm);
    forall i | 0 <= i < rows ensures Align(img, width).0[i] == Sheared(line, width, k, i) {
      RolledRow(line, width, k, rows, i);
    }
  }

  // ---- channel slices ---------------------------------------------------------------------------

  /** Pixels per channel of a line: a quarter of its words; the last quarter is the infrared line. */
  function PixelWidth(width: nat): nat {
    width / 4
  }

  /** `img[:, c:nvis:3]`: channel R, G, B (0, 1, 2) of every row. */
  function ChannelOf(row: Row, c: nat): (ch: Row)
    requires c < 3
    ensures |ch| == PixelWidth(|row|)
  {
    seq(PixelWidth(|row|), p requires 0 <= p < PixelWidth(|row|) => row[3 * p + c])
  }

  /** Every channel sample is the same pixel and colour of a line whatever the start of the capture. */
  lemma ChannelsIgnoreStart(line: (nat, nat) -> uint16, width: nat, k: nat, rows: nat, i: nat, p: nat, c: nat)
    requires Marked(line, width) && k < width && i < rows
    requires OnlyMarker(Captured(line, width, k, rows), width, Origin(width, k))
    requires p < width / 4 && c < 3
    ensures var img := Align(Captured(line, width, k, rows), width).0;
            i < |img| && |img[i]| == width && |ChannelOf(img[i], c)| == width / 4 &&
            ChannelOf(img[i], c)[p] == if 3 * p + c < k then line(i + 1, 3 * p + c) else line(i, 3 * p + c)
  {
    hide Align, Captured, OnlyMarker;
    AlignmentIgnoresStart(line, width, k, rows);
  }
}
