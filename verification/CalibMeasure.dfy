/**
 Measuring the sensor (src/pakon_calib.c, pakon_calib_deinterleave, the channel
 mean and peak, and calib_measure).
 */
module CalibMeasure {
  import opened Bytes
  import opened Arith

  const LINE_BYTES := 16000
  const PX_PER_LINE := 2666

  // ---- channels of a raw buffer ------------------------------------------------------

  function Word(raw: seq<byte>, p: nat): uint16
    requires p + 1 < |raw|
  {
    raw[p] + 0x100 * raw[p + 1] as int
  }

  /** Place of channel R, G, B (0, 1, 2) in the B, R, G order of the stream. */
  function Place(k: nat): nat
    requires k < 3
  {
    if k == 0 then 1 else if k == 1 then 2 else 0
  }

  /** Pixels of one channel, starting at byte `at`. */
  function Channel(raw: seq<byte>, at: nat, k: nat, n: nat): (ch: seq<uint16>)
    requires k < 3 && at + 6 * n <= |raw|
    ensures |ch| == n
  {
    seq(n, i requires 0 <= i < n => Word(raw, at + 6 * i + 2 * Place(k)))
  }

  function Contents(ch: array?<uint16>): seq<uint16>
    reads ch
  {
    if ch == null then [] else ch[..]
  }

  /** The first `i` pixels of a channel array are in place and those from `n` on are as in `was`; null is skipped. */
  predicate Filled(ch: array?<uint16>, was: seq<uint16>, raw: seq<byte>, at: nat, k: nat, i: nat, n: nat)
    requires k < 3 && i <= n && at + 6 * n <= |raw|
    reads ch
  {
    ch != null ==>
      n <= ch.Length == |was| && ch[..i] == Channel(raw, at, k, i) && ch[n..] == was[n..]
  }

  /** Split up to `maxPx` pixels of the `len` bytes at `at` into channels; absent channels are skipped. */
  method Deinterleave(raw: array<byte>, at: nat, len: nat, b: array?<uint16>, r: array?<uint16>, g: array?<uint16>, maxPx: nat)
    returns (n: nat)
    requires at + len <= raw.Length
    requires (b != null ==> b.Length >= maxPx && b != r && b != g) && (r != null ==> r.Length >= maxPx && r != g)
    requires g != null ==> g.Length >= maxPx
    modifies b, r, g
    ensures n == Min(len / 2 / 3, maxPx) && at + 6 * n <= raw.Length
    ensures Filled(b, old(Contents(b)), raw[..], at, 2, n, n)
    ensures Filled(r, old(Contents(r)), raw[..], at, 0, n, n)
    ensures Filled(g, old(Contents(g)), raw[..], at, 1, n, n)
  {
    hide Word;
    var triples := len / 2 / 3;
    n := if triples > maxPx then maxPx else triples;
    ghost var s, b0, r0, g0 := raw[..], Contents(b), Contents(r), Contents(g);
    EmptyChannel(s, at);
    assert Filled(b, b0, s, at, 2, 0, n) && Filled(r, r0, s, at, 0, 0, n) && Filled(g, g0, s, at, 1, 0, n);
    hide Filled, Channel, Contents;
    for i := 0 to n
      invariant raw[..] == s
      invariant Filled(b, b0, s, at, 2, i, n)
      invariant Filled(r, r0, s, at, 0, i, n)
      invariant Filled(g, g0, s, at, 1, i, n)
    {
      var p := at + 6 * i;
      StoreThree(b, r, g, b0, r0, g0, s, at, i, n,
        raw[p] + 0x100 * raw[p + 1] as int, raw[p + 2] + 0x100 * raw[p + 3] as int, raw[p + 4] + 0x100 * raw[p + 5] as int);
    }
  }

  /** The next pixel of all channel arrays. */
  method StoreThree(b: array?<uint16>, r: array?<uint16>, g: array?<uint16>,
        ghost b0: seq<uint16>, ghost r0: seq<uint16>, ghost g0: seq<uint16>,
        ghost raw: seq<byte>, ghost at: nat, i: nat, ghost n: nat, vb: uint16, vr: uint16, vg: uint16)
    requires i < n && at + 6 * n <= |raw| && (b != null ==> b != r && b != g) && (r != null ==> r != g)
    requires Filled(b, b0, raw, at, 2, i, n) && Filled(r, r0, raw, at, 0, i, n) && Filled(g, g0, raw, at, 1, i, n)
    requires var p := at + 6 * i;
             vb == raw[p] + 0x100 * raw[p + 1] as int && vr == raw[p + 2] + 0x100 * raw[p + 3] as int &&
             vg == raw[p + 4] + 0x100 * raw[p + 5] as int
    modifies b, r, g
    ensures Filled(b, b0, raw, at, 2, i + 1, n) && Filled(r, r0, raw, at, 0, i + 1, n) && Filled(g, g0, raw, at, 1, i + 1, n)
  {
    PixelMore(raw, at, i);
    hide Filled, Channel;
    StorePixel(b, b0, raw, at, 2, i, n, vb);
    StorePixel(r, r0, raw, at, 0, i, n, vr);
    StorePixel(g, g0, raw, at, 1, i, n, vg);
  }

  /** The next pixel of a channel array. */
  method StorePixel(ch: array?<uint16>, ghost was: seq<uint16>, ghost raw: seq<byte>, ghost at: nat, ghost k: nat,
        i: nat, ghost n: nat, v: uint16)
    requires k < 3 && i < n && at + 6 * n <= |raw| && Filled(ch, was, raw, at, k, i, n)
    requires Channel(raw, at, k, i + 1) == Channel(raw, at, k, i) + [v]
    modifies ch
    ensures Filled(ch, was, raw, at, k, i + 1, n)
  {
    hide Channel;
    if ch != null {
      ch[i] := v;
      assert ch[..i + 1] == ch[..i] + [v];
    }
  }

  lemma EmptyChannel(raw: seq<byte>, at: nat)
    requires at <= |raw|
    ensures Channel(raw, at, 0, 0) == Channel(raw, at, 1, 0) == Channel(raw, at, 2, 0) == []
  {
  }

  lemma PixelMore(raw: seq<byte>, at: nat, i: nat)
    requires at + 6 * (i + 1) <= |raw|
    ensures var p := at + 6 * i;
            Channel(raw, at, 2, i + 1) == Channel(raw, at, 2, i) + [raw[p] + 0x100 * raw[p + 1] as int] &&
            Channel(raw, at, 0, i + 1) == Channel(raw, at, 0, i) + [raw[p + 2] + 0x100 * raw[p + 3] as int] &&
            Channel(raw, at, 1, i + 1) == Channel(raw, at, 1, i) + [raw[p + 4] + 0x100 * raw[p + 5] as int]
  {
  }

  // ---- mean and peak of a window --------------------------------------------------------

  function Total(s: seq<uint16>): nat {
    if s == [] then 0 else Total(s[..|s| - 1]) + s[|s| - 1]
  }

  function Greatest(s: seq<uint16>): uint16 {
    if s == [] then 0 else Max(Greatest(s[..|s| - 1]), s[|s| - 1])
  }

  method ChannelMean(ch: array<uint16>, col0: nat, col1: nat) returns (mean: nat)
    requires col0 < col1 ==> col1 <= ch.Length
    ensures mean == if col0 < col1 then Quot(Total(ch[col0..col1]), col1 - col0) else 0
  {
    if col1 <= col0 { return 0; }
    var sum: nat := 0;
    for i := col0 to col1
      invariant sum == Total(ch[col0..i])
    {
      assert ch[col0..i + 1][..i - col0] == ch[col0..i];
      sum := sum + ch[i];
    }
    mean := Quot(sum, col1 - col0);
  }

  method ChannelPeak(ch: array<uint16>, col0: nat, col1: nat) returns (peak: uint16)
    requires col0 < col1 ==> col1 <= ch.Length
    ensures peak == if col0 < col1 then Greatest(ch[col0..col1]) else 0
  {
    peak := 0;
    if col1 <= col0 { return; }
    for i := col0 to col1
      invariant peak == Greatest(ch[col0..i])
    {
      assert ch[col0..i + 1][..i - col0] == ch[col0..i];
      if ch[i] > peak { peak := ch[i]; }
    }
  }

  /** The greatest value of a window is one of its samples. */
  lemma {:induction false} GreatestAttained(s: seq<uint16>) returns (i: nat)
    requires s != []
    ensures i < |s| && s[i] == Greatest(s)
  {
    var n := |s| - 1;
    var init := s[..n];
    i := n;
    if s[n] < Greatest(init) {
      i := GreatestAttained(init);
      assert s[i] == init[i];
    }
  }

  lemma {:induction false} GreatestIsMax(s: seq<uint16>)
    ensures forall i :: 0 <= i < |s| ==> s[i] <= Greatest(s)
    ensures s != [] ==> exists i :: 0 <= i < |s| && s[i] == Greatest(s)
  {
    if s != [] {
      var init := s[..|s| - 1];
      GreatestIsMax(init);
      assert forall i :: 0 <= i < |init| ==> s[i] == init[i];
      var i := GreatestAttained(s);
    }
  }

  lemma {:induction false} TotalConcat(s: seq<uint16>, t: seq<uint16>)
    ensures Total(s + t) == Total(s) + Total(t)
    ensures Greatest(s + t) == Max(Greatest(s), Greatest(t))
  {
    if t == [] {
      assert s + t == s;
    } else {
      assert (s + t)[..|s + t| - 1] == s + t[..|t| - 1];
      TotalConcat(s, t[..|t| - 1]);
    }
  }

  lemma {:induction false} TotalBounds(s: seq<uint16>, low: nat, high: nat)
    requires forall i :: 0 <= i < |s| ==> low <= s[i] <= high
    ensures low * |s| <= Total(s) <= high * |s|
  {
    if s != [] {
      TotalBounds(s[..|s| - 1], low, high);
      assert low * |s| == low * (|s| - 1) + low && high * |s| == high * (|s| - 1) + high;
    }
  }

  // ---- measurement ------------------------------------------------------------------------

  /** Lines that are measured: whole ones, or one partial line if there is not even one. */
  function LineCount(len: nat): nat {
    if len / LINE_BYTES == 0 then (if len >= 6 then 1 else 0) else len / LINE_BYTES
  }

  function PxPerLine(len: nat): (n: nat)
    ensures n <= PX_PER_LINE
  {
    Min(Min(len, LINE_BYTES) / 2 / 3, PX_PER_LINE)
  }

  /** The first `lines` lines have the columns up to `col1` inside the buffer. */
  predicate Fits(raw: seq<byte>, lines: nat, col1: nat) {
    col1 <= PX_PER_LINE && (lines > 0 ==> (lines - 1) * LINE_BYTES + 6 * col1 <= |raw|)
  }

  /** Window of one channel in one line. */
  function LineWindow(raw: seq<byte>, line: nat, k: nat, col0: nat, col1: nat): seq<uint16>
    requires k < 3 && col0 <= col1 && Fits(raw, line + 1, col1)
  {
    Channel(raw, line * LINE_BYTES, k, col1)[col0..]
  }

  /** All samples of one channel in the window, over the first lines. */
  function Samples(raw: seq<byte>, lines: nat, k: nat, col0: nat, col1: nat): (s: seq<uint16>)
    requires k < 3 && col0 <= col1
    requires Fits(raw, lines, col1)
    ensures |s| == lines * (col1 - col0)
  {
    if lines == 0 then [] else Samples(raw, lines - 1, k, col0, col1) + LineWindow(raw, lines - 1, k, col0, col1)
  }

  /** Sum of the truncated means of the lines. */
  function MeanSum(raw: seq<byte>, lines: nat, k: nat, col0: nat, col1: nat): nat
    requires k < 3 && col0 < col1
    requires Fits(raw, lines, col1)
  {
    if lines == 0 then 0
    else MeanSum(raw, lines - 1, k, col0, col1) + Quot(Total(LineWindow(raw, lines - 1, k, col0, col1)), col1 - col0)
  }

  /** The truncation of each line loses less than one. */
  lemma {:induction false} MeanSumClose(raw: seq<byte>, lines: nat, k: nat, col0: nat, col1: nat)
    requires k < 3 && col0 < col1
    requires Fits(raw, lines, col1)
    ensures var m, w := MeanSum(raw, lines, k, col0, col1), col1 - col0;
            m * w <= Total(Samples(raw, lines, k, col0, col1)) <= m * w + lines * (w - 1)
  {
    hide Total, LineWindow;
    if lines == 0 {
      NoTotal();
    } else {
      var s, w := LineWindow(raw, lines - 1, k, col0, col1), col1 - col0;
      var t, m := Total(s), MeanSum(raw, lines - 1, k, col0, col1);
      MeanSumClose(raw, lines - 1, k, col0, col1);
      TotalConcat(Samples(raw, lines - 1, k, col0, col1), s);
      LoseOne(Total(Samples(raw, lines - 1, k, col0, col1)), m, t, lines - 1, w);
    }
  }

  lemma NoTotal()
    ensures Total([]) == 0
  {
  }

  lemma LoseOne(before: nat, m: nat, t: nat, lines: nat, w: nat)
    requires w > 0 && m * w <= before <= m * w + lines * (w - 1)
    ensures (m + Quot(t, w)) * w <= before + t <= (m + Quot(t, w)) * w + (lines + 1) * (w - 1)
  {
    assert (m + Quot(t, w)) * w == m * w + Quot(t, w) * w;
    assert (lines + 1) * (w - 1) == lines * (w - 1) + (w - 1);
  }

  /** The reported mean of one channel. */
  function MeanOf(raw: seq<byte>, lines: nat, k: nat, col0: nat, col1: nat): nat
    requires k < 3 && col0 < col1
    requires Fits(raw, lines, col1)
  {
    if lines == 0 then 0 else Quot(MeanSum(raw, lines, k, col0, col1), lines)
  }

  /** The mean is below the true average by less than two, and lies between any lower bound and the peak. */
  lemma MeanWithinTwo(raw: seq<byte>, lines: nat, k: nat, col0: nat, col1: nat, low: nat)
    requires k < 3 && col0 < col1
    requires lines > 0 && Fits(raw, lines, col1)
    requires forall i :: 0 <= i < |Samples(raw, lines, k, col0, col1)| ==> low <= Samples(raw, lines, k, col0, col1)[i]
    ensures var s, mean := Samples(raw, lines, k, col0, col1), MeanOf(raw, lines, k, col0, col1);
            mean * |s| <= Total(s) < (mean + 2) * |s| && low <= mean <= Greatest(s)
  {
    hide Samples, MeanSum;
    var s, m, w := Samples(raw, lines, k, col0, col1), MeanSum(raw, lines, k, col0, col1), col1 - col0;
    var mean := Quot(m, lines);
    MeanSumClose(raw, lines, k, col0, col1);
    TwoTruncations(Total(s), m, mean, lines, w);
    Positive(lines, w);
    GreatestIsMax(s);
    TotalBounds(s, low, Greatest(s));
    MulCancel(mean, Greatest(s), lines * w);
    MeanSumAtLeast(raw, lines, k, col0, col1, low);
    QuotAtLeast(m, low, lines);
  }

  lemma Positive(a: nat, b: nat)
    requires a > 0 && b > 0
    ensures a * b > 0
  {
    MulLt(0, a, b);
  }

  lemma Spread(a: nat, b: nat, c: nat)
    ensures (a * b) * c == a * (b * c) && (a + b) * c == a * c + b * c
  {
  }

  lemma TwoTruncations(t: nat, m: nat, mean: nat, lines: nat, w: nat)
    requires lines > 0 && w > 0
    requires m * w <= t <= m * w + lines * (w - 1)
    requires mean * lines <= m <= mean * lines + (lines - 1)
    ensures mean * (lines * w) <= t < (mean + 2) * (lines * w)
  {
    var l, ml, mw := lines * w, mean * lines, m * w;
    MulLe(ml, m, w);
    MulLe(m, ml + (lines - 1), w);
    Spread(mean, lines, w);
    Spread(ml, lines - 1, w);
    assert (lines - 1) * w == l - w && lines * (w - 1) == l - lines;
    assert (mean + 2) * l == mean * l + 2 * l;
  }

  lemma {:induction false} MeanSumAtLeast(raw: seq<byte>, lines: nat, k: nat, col0: nat, col1: nat, low: nat)
    requires k < 3 && col0 < col1
    requires Fits(raw, lines, col1)
    requires forall i :: 0 <= i < |Samples(raw, lines, k, col0, col1)| ==> low <= Samples(raw, lines, k, col0, col1)[i]
    ensures low * lines <= MeanSum(raw, lines, k, col0, col1)
  {
    hide Total, LineWindow, Quot;
    if lines > 0 {
      var s := LineWindow(raw, lines - 1, k, col0, col1);
      var before := Samples(raw, lines - 1, k, col0, col1);
      assert Samples(raw, lines, k, col0, col1) == before + s;
      BothParts(before, s, low);
      MeanSumAtLeast(raw, lines - 1, k, col0, col1, low);
      TotalBounds(s, low, 0xFFFF);
      QuotAtLeast(Total(s), low, col1 - col0);
      assert low * lines == low * (lines - 1) + low;
    }
  }

  lemma BothParts(s: seq<uint16>, t: seq<uint16>, low: nat)
    requires forall i :: 0 <= i < |s + t| ==> low <= (s + t)[i]
    ensures forall i :: 0 <= i < |s| ==> low <= s[i]
    ensures forall i :: 0 <= i < |t| ==> low <= t[i]
  {
    assert forall i :: 0 <= i < |s| ==> s[i] == (s + t)[i];
    assert forall i :: 0 <= i < |t| ==> t[i] == (s + t)[|s| + i];
  }

  /** Sums and peaks of the three channels after the first lines. */
  ghost predicate Accumulated(raw: seq<byte>, lines: nat, col0: nat, col1: nat, sm: seq<nat>, pk: seq<uint16>) {
    |sm| == 3 && |pk| == 3 && col0 < col1 && Fits(raw, lines, col1) &&
    forall k :: 0 <= k < 3 ==>
      sm[k] == MeanSum(raw, lines, k, col0, col1) && pk[k] == Greatest(Samples(raw, lines, k, col0, col1))
  }

  /** Add line number `ln`, whose channels are in the three arrays. */
  method AddLine(ghost raw: seq<byte>, ghost ln: nat, col0: nat, col1: nat,
        r: array<uint16>, g: array<uint16>, b: array<uint16>, sm: seq<nat>, pk: seq<uint16>)
    returns (sm': seq<nat>, pk': seq<uint16>)
    requires Accumulated(raw, ln, col0, col1, sm, pk) && Fits(raw, ln + 1, col1)
    requires col1 <= r.Length && col1 <= g.Length && col1 <= b.Length
    requires r[..col1] == Channel(raw, ln * LINE_BYTES, 0, col1)
    requires g[..col1] == Channel(raw, ln * LINE_BYTES, 1, col1)
    requires b[..col1] == Channel(raw, ln * LINE_BYTES, 2, col1)
    ensures Accumulated(raw, ln + 1, col0, col1, sm', pk')
  {
    hide Channel;
    var ch := [r, g, b];
    sm', pk' := sm, pk;
    for k := 0 to 3
      invariant |sm'| == 3 && |pk'| == 3
      invariant forall j :: k <= j < 3 ==> sm'[j] == sm[j] && pk'[j] == pk[j]
      invariant forall j :: 0 <= j < k ==>
        sm'[j] == MeanSum(raw, ln + 1, j, col0, col1) && pk'[j] == Greatest(Samples(raw, ln + 1, j, col0, col1))
    {
      hide Samples, MeanSum, Greatest, Total;
      var a := ch[k];
      var m := ChannelMean(a, col0, col1);
      var p := ChannelPeak(a, col0, col1);
      assert a[col0..col1] == a[..col1][col0..] == LineWindow(raw, ln, k, col0, col1);
      OneLineMore(raw, ln, k, col0, col1);
      sm' := sm'[k := sm'[k] + m];
      if p > pk'[k] { pk' := pk'[k := p]; }
    }
  }

  lemma OneLineMore(raw: seq<byte>, ln: nat, k: nat, col0: nat, col1: nat)
    requires k < 3 && col0 < col1 && Fits(raw, ln + 1, col1)
    ensures var s := LineWindow(raw, ln, k, col0, col1);
            MeanSum(raw, ln + 1, k, col0, col1) == MeanSum(raw, ln, k, col0, col1) + Quot(Total(s), col1 - col0) &&
            Greatest(Samples(raw, ln + 1, k, col0, col1)) == Max(Greatest(Samples(raw, ln, k, col0, col1)), Greatest(s))
  {
    hide LineWindow, Greatest, Total;
    TotalConcat(Samples(raw, ln, k, col0, col1), LineWindow(raw, ln, k, col0, col1));
  }

  /** Every measured line gives the same number of pixels, all of them inside the buffer. */
  lemma LinesFit(raw: seq<byte>, len: nat, ln: nat)
    requires len <= |raw| && ln < LineCount(len)
    ensures ln * LINE_BYTES <= len
    ensures PxPerLine(len) == Min(Min(len - ln * LINE_BYTES, LINE_BYTES) / 2 / 3, PX_PER_LINE)
    ensures Fits(raw, ln + 1, PxPerLine(len))
  {
  }

  /** The result of a measurement, channel by channel. */
  ghost predicate Measured(raw: seq<byte>, len: nat, col0: nat, col1: nat, mean: seq<nat>, peak: seq<uint16>) {
    |mean| == 3 && |peak| == 3 &&
    var n, c1 := LineCount(len), Min(col1, PxPerLine(len));
    forall k :: 0 <= k < 3 ==>
      if c1 <= col0 || n == 0 then mean[k] == 0 && peak[k] == 0
      else Fits(raw, n, c1) && mean[k] == MeanOf(raw, n, k, col0, c1) && peak[k] == Greatest(Samples(raw, n, k, col0, c1))
  }

  /** `calib_measure`: mean and peak of the channels R, G, B over the column window. */
  method Measure(buf: array<byte>, len: nat, col0: nat, col1: nat) returns (mean: seq<nat>, peak: seq<uint16>)
    requires len <= buf.Length
    ensures |mean| == 3 && |peak| == 3
    ensures Measured(buf[..], len, col0, col1, mean, peak)
  {
    hide Samples, MeanSum, Greatest, Channel;
    var b, r, g := new uint16[PX_PER_LINE], new uint16[PX_PER_LINE], new uint16[PX_PER_LINE];
    var lines := LineCount(len);
    ghost var raw, c := buf[..], Min(col1, PxPerLine(len));
    var sm: seq<nat> := [0, 0, 0];
    var pk: seq<uint16> := [0, 0, 0];
    var nmean, ln := 0, 0;
    if col0 < c { NothingYet(raw, col0, c); }
    while ln < lines
      invariant ln <= lines && |sm| == 3 && |pk| == 3 && buf[..] == raw
      invariant fresh(b) && fresh(r) && fresh(g)
      invariant c <= col0 ==> nmean == 0 && pk == [0, 0, 0]
      invariant col0 < c ==> nmean == ln && Accumulated(raw, ln, col0, c, sm, pk)
    {
      hide Accumulated, Filled, Contents;
      LinesFit(raw, len, ln);
      var avail := len - ln * LINE_BYTES;
      if avail > LINE_BYTES { avail := LINE_BYTES; }
      ghost var b0, r0, g0 := Contents(b), Contents(r), Contents(g);
      var px := Deinterleave(buf, ln * LINE_BYTES, avail, b, r, g, PX_PER_LINE);
      var c1 := if col1 < px then col1 else px;
      FilledPrefix(b, b0, raw, ln * LINE_BYTES, 2, px, c1);
      FilledPrefix(r, r0, raw, ln * LINE_BYTES, 0, px, c1);
      FilledPrefix(g, g0, raw, ln * LINE_BYTES, 1, px, c1);
      ln := ln + 1;
      if c1 <= col0 { continue; }
      sm, pk := AddLine(raw, ln - 1, col0, c1, r, g, b, sm, pk);
      nmean := nmean + 1;
    }
    mean := if nmean > 0 then [Quot(sm[0], nmean), Quot(sm[1], nmean), Quot(sm[2], nmean)] else [0, 0, 0];
    peak := pk;
  }

  lemma NothingYet(raw: seq<byte>, col0: nat, col1: nat)
    requires col0 < col1 <= PX_PER_LINE
    ensures Accumulated(raw, 0, col0, col1, [0, 0, 0], [0, 0, 0])
  {
  }

  lemma FilledPrefix(ch: array<uint16>, was: seq<uint16>, raw: seq<byte>, at: nat, k: nat, n: nat, m: nat)
    requires k < 3 && m <= n && at + 6 * n <= |raw| && Filled(ch, was, raw, at, k, n, n)
    ensures m <= ch.Length && ch[..m] == Channel(raw, at, k, m)
  {
    assert ch[..m] == ch[..n][..m];
  }

  /** What one channel's mean and peak say about its samples `s`. */
  ghost predicate Describes(s: seq<uint16>, mean: nat, peak: uint16) {
    (forall i :: 0 <= i < |s| ==> s[i] <= peak) && (exists i :: 0 <= i < |s| && s[i] == peak) &&
    mean * |s| <= Total(s) < (mean + 2) * |s|
  }

  /** The peak is the exact maximum of the window and the mean is within two below the true average. */
  lemma MeasuredMeans(raw: seq<byte>, len: nat, col0: nat, col1: nat, mean: seq<nat>, peak: seq<uint16>, k: nat)
    requires Measured(raw, len, col0, col1, mean, peak) && k < 3
    requires col0 < Min(col1, PxPerLine(len)) && LineCount(len) > 0
    ensures Fits(raw, LineCount(len), Min(col1, PxPerLine(len)))
    ensures Describes(Samples(raw, LineCount(len), k, col0, Min(col1, PxPerLine(len))), mean[k], peak[k])
  {
    hide Samples, MeanOf, Greatest, Total;
    var n, c1 := LineCount(len), Min(col1, PxPerLine(len));
    assert mean[k] >= 0;
    var s := Samples(raw, n, k, col0, c1);
    MeanWithinTwo(raw, n, k, col0, c1, 0);
    Positive(n, c1 - col0);
    GreatestIsMax(s);
  }

  // ---- in terms of pixels ---------------------------------------------------------------------

  /** Pixel `c` of line `line`: six bytes for blue, red and green, low byte first, in lines of 16000 bytes. */
  function Pixel(raw: seq<byte>, line: nat, c: nat, k: nat): uint16
    requires k < 3 && 16000 * line + 6 * c + 6 <= |raw|
  {
    var p := 16000 * line + 6 * c + (if k == 0 then 2 else if k == 1 then 4 else 0);
    raw[p] + 256 * raw[p + 1] as int
  }

  /** The samples measured are the pixels of the window, line by line. */
  lemma {:induction false} SampleIsPixel(raw: seq<byte>, lines: nat, k: nat, col0: nat, col1: nat, line: nat, c: nat)
    requires k < 3 && line < lines && col0 <= c < col1 && Fits(raw, lines, col1)
    ensures var s := Samples(raw, lines, k, col0, col1);
            var i := line * (col1 - col0) + (c - col0);
            |s| == lines * (col1 - col0) && i < |s| &&
            16000 * line + 6 * c + 6 <= |raw| && s[i] == Pixel(raw, line, c, k)
  {
    var w := col1 - col0;
    var last := lines - 1;
    PixelInside(raw, lines, col1, line, c);
    MulLe(line + 1, lines, w);
    assert (line + 1) * w == line * w + w;
    if line < last {
      SampleIsPixel(raw, last, k, col0, col1, line, c);
    } else {
      assert LineWindow(raw, last, k, col0, col1)[c - col0] == Channel(raw, last * LINE_BYTES, k, col1)[c];
    }
  }

  lemma PixelInside(raw: seq<byte>, lines: nat, col1: nat, line: nat, c: nat)
    requires line < lines && c < col1 && Fits(raw, lines, col1)
    ensures 16000 * line + 6 * c + 6 <= |raw|
  {
    MulLe(line, lines - 1, 16000);
  }

  /** Whole lines are measured, or the start of one; a pixel takes six bytes. */
  lemma LinesMeasured(len: nat)
    ensures len >= 16000 ==> LineCount(len) == len / 16000 && PxPerLine(len) == 2666
    ensures len < 16000 ==> PxPerLine(len) == len / 6 && (LineCount(len) == 0 <==> len < 6) && LineCount(len) <= 1
  {
  }

  lemma SampleOf(raw: seq<byte>, lines: nat, k: nat, col0: nat, col1: nat, line: nat, c: nat) returns (i: nat)
    requires k < 3 && line < lines && col0 <= c < col1 && Fits(raw, lines, col1)
    ensures var s := Samples(raw, lines, k, col0, col1);
            i < |s| && 16000 * line + 6 * c + 6 <= |raw| && s[i] == Pixel(raw, line, c, k)
  {
    hide Samples, Pixel, Fits;
    SampleIsPixel(raw, lines, k, col0, col1, line, c);
    i := line * (col1 - col0) + (c - col0);
  }

  lemma BelowPeak(s: seq<uint16>, mean: nat, peak: uint16, i: nat)
    requires Describes(s, mean, peak) && i < |s|
    ensures s[i] <= peak
  {
    hide Total;
  }

  /** No pixel of the window exceeds the peak. */
  lemma PeakBoundsPixels(raw: seq<byte>, len: nat, col0: nat, col1: nat, mean: seq<nat>, peak: seq<uint16>, k: nat,
                         line: nat, c: nat)
    requires Measured(raw, len, col0, col1, mean, peak) && k < 3
    requires line < LineCount(len) && col0 <= c < Min(col1, PxPerLine(len))
    ensures 16000 * line + 6 * c + 6 <= |raw| && Pixel(raw, line, c, k) <= peak[k]
  {
    assert |mean| == 3 && |peak| == 3;
    hide Samples, MeanOf, Greatest, Pixel, LineCount, PxPerLine, Fits, Measured, Describes;
    var n, c1 := LineCount(len), Min(col1, PxPerLine(len));
    MeasuredMeans(raw, len, col0, col1, mean, peak, k);
    var i := SampleOf(raw, n, k, col0, c1, line, c);
    BelowPeak(Samples(raw, n, k, col0, c1), mean[k], peak[k], i);
  }

  /** Some pixel of the window has it. */
  lemma PeakIsPixel(raw: seq<byte>, len: nat, col0: nat, col1: nat, mean: seq<nat>, peak: seq<uint16>, k: nat)
    returns (line: nat, c: nat)
    requires Measured(raw, len, col0, col1, mean, peak) && k < 3
    requires col0 < Min(col1, PxPerLine(len)) && LineCount(len) > 0
    ensures line < LineCount(len) && col0 <= c < Min(col1, PxPerLine(len))
    ensures 16000 * line + 6 * c + 6 <= |raw| && Pixel(raw, line, c, k) == peak[k]
  {
    assert |peak| == 3;
    hide Samples, MeanOf, Greatest, Pixel, LineCount, PxPerLine, Fits, Measured;
    var n, c1 := LineCount(len), Min(col1, PxPerLine(len));
    MeasuredMeans(raw, len, col0, col1, mean, peak, k);
    var s := Samples(raw, n, k, col0, c1);
    var i :| 0 <= i < |s| && s[i] == peak[k];
    line, c := PlaceOf(i, n, c1 - col0);
    c := c + col0;
    SampleIsPixel(raw, n, k, col0, c1, line, c);
  }

  lemma PlaceOf(i: nat, n: nat, w: nat) returns (line: nat, c: nat)
    requires w > 0 && i < n * w
    ensures line < n && c < w && i == line * w + c
  {
    line, c := i / w, i % w;
    if n <= line {
      MulLe(n, line, w);
    }
  }

  /** All means and peaks are 16-bit values, and no mean exceeds its peak. */
  lemma MeasuredRange(raw: seq<byte>, len: nat, col0: nat, col1: nat, mean: seq<nat>, peak: seq<uint16>)
    requires Measured(raw, len, col0, col1, mean, peak)
    ensures |mean| == 3 && |peak| == 3 && forall k :: 0 <= k < 3 ==> mean[k] <= peak[k] <= 0xFFFF
  {
    hide Samples, MeanOf, Greatest;
    var n, c1 := LineCount(len), Min(col1, PxPerLine(len));
    forall k | 0 <= k < 3 ensures mean[k] <= peak[k] {
      if col0 < c1 && n > 0 {
        assert mean[k] >= 0;
        assert mean[k] == MeanOf(raw, n, k, col0, c1) && peak[k] == Greatest(Samples(raw, n, k, col0, c1));
        MeanWithinTwo(raw, n, k, col0, c1, 0);
      }
    }
  }
}
