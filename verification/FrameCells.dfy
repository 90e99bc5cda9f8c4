/**
 The last steps of find_frame_grid (tools/pakon_image.py): the comb teeth snapped
 to detail minima, the cells between them, the filter that drops junk cells at
 both ends of the film, and the cut rows.  The smoothed detail profile, the
 pitch, its phase and the cells' detail values are given.
 */
module FrameCells {
  import opened Bytes
  import opened Arith

  /** Profile samples `from` up to `end`. */
  datatype Cell = Cell(from: nat, end: nat)

  // ---- cell bounds --------------------------------------------------------------------------

  /** Position of the first least element, as `np.argmin`. */
  function ArgMin(s: seq<real>): (k: nat)
    requires s != []
    ensures k < |s| && forall i :: 0 <= i < |s| ==> s[k] <= s[i]
    ensures forall i :: 0 <= i < k ==> s[k] < s[i]
  {
    var n := |s| - 1;
    if n == 0 then 0
    else
      var k := ArgMin(s[..n]);
      if s[n] < s[k] then n else k
  }

  /** How far a tooth may be moved: `max(2, int(0.12 * P))`. */
  function Reach(p: nat): nat {
    Max(2, 12 * p / 100)
  }

  /** The deepest dip near tooth `g`. */
  function Snap(det: seq<real>, p: nat, g: nat): (s: nat)
    requires g < |det|
    ensures s < |det| && g - Reach(p) <= s <= g + Reach(p)
  {
    var a, b := Max(0, g - Reach(p)), Min(|det|, g + Reach(p) + 1);
    a + ArgMin(det[a..b])
  }

  /** The teeth `g, g + p, ...` below `end`, without those not beyond `start`. */
  function Teeth(start: nat, g: nat, end: nat, p: nat): (t: seq<nat>)
    requires p > 0
    ensures forall i :: 0 <= i < |t| ==> start < t[i] < end && g <= t[i]
    decreases if g < end then end - g else 0
  {
    if g >= end then [] else (if start < g then [g] else []) + Teeth(start, g + p, end, p)
  }

  function Gaps(det: seq<real>, p: nat, teeth: seq<nat>): (r: seq<nat>)
    requires forall i :: 0 <= i < |teeth| ==> teeth[i] < |det|
    ensures |r| == |teeth| && forall i :: 0 <= i < |r| ==> r[i] == Snap(det, p, teeth[i])
  {
    seq(|teeth|, i requires 0 <= i < |teeth| => Snap(det, p, teeth[i]))
  }

  predicate Increasing(s: seq<nat>) {
    forall i, j :: 0 <= i < j < |s| ==> s[i] < s[j]
  }

  function Insert(s: seq<nat>, x: nat): (r: seq<nat>)
    requires Increasing(s)
    ensures Increasing(r) && r != []
    ensures forall v :: v in r <==> v in s || v == x
  {
    if s == [] then [x]
    else
      var n := |s| - 1;
      assert s == s[..n] + [s[n]];
      if x > s[n] then s + [x]
      else if x == s[n] then s
      else
        var front := Insert(s[..n], x);
        assert forall i :: 0 <= i < |front| ==> front[i] in front;
        front + [s[n]]
  }

  /** `sorted(set(xs))`. */
  function SortedSet(xs: seq<nat>): (r: seq<nat>)
    ensures Increasing(r)
    ensures forall v :: v in r <==> v in xs
  {
    if xs == [] then [] else Insert(SortedSet(xs[1..]), xs[0])
  }

  /** The cell bounds of the film from sample `start` to the end of the profile. */
  function Bounds(det: seq<real>, start: nat, p: nat, phi: nat): (r: seq<nat>)
    requires p > 0
    ensures Increasing(r) && start in r && |det| in r
  {
    SortedSet([start] + Gaps(det, p, Teeth(start, start + phi, |det|, p)) + [|det|])
  }

  function Cells(bounds: seq<nat>): (c: seq<Cell>)
    requires bounds != []
    ensures |c| == |bounds| - 1
    ensures forall i :: 0 <= i < |c| ==> c[i] == Cell(bounds[i], bounds[i + 1])
  {
    seq(|bounds| - 1, i requires 0 <= i < |bounds| - 1 => Cell(bounds[i], bounds[i + 1]))
  }

  lemma DipInSlice(det: seq<real>, a: nat, b: nat, i: nat, k: nat)
    requires a <= i < b <= |det| && k == ArgMin(det[a..b])
    ensures a + k < b && det[a + k] <= det[i] && (i < a + k ==> det[a + k] < det[i])
  {
    var window := det[a..b];
    var j: nat := i - a;
    assert window[k] == det[a + k] && window[j] == det[i];
    assert window[k] <= window[j] && (j < k ==> window[k] < window[j]);
  }

  lemma SnapWithin(det: seq<real>, p: nat, g: nat, i: nat, r: nat)
    requires g < |det| && i < |det| && r == Reach(p) && g - r <= i <= g + r
    ensures var s := Snap(det, p, g); g - r <= s <= g + r && det[s] <= det[i] && (i < s ==> det[s] < det[i])
  {
    hide Reach, ArgMin;
    var a, b := Max(0, g - r), Min(|det|, g + r + 1);
    DipInSlice(det, a, b, i, ArgMin(det[a..b]));
  }

  /** A tooth moves to the first deepest dip within 12 percent of the pitch, or within 2 samples if that is more. */
  lemma SnapIsDip(det: seq<real>, p: nat, g: nat, i: nat)
    requires g < |det| && i < |det| && g - Max(2, 12 * p / 100) <= i <= g + Max(2, 12 * p / 100)
    ensures var s := Snap(det, p, g);
            g - Max(2, 12 * p / 100) <= s <= g + Max(2, 12 * p / 100) &&
            det[s] <= det[i] && (i < s ==> det[s] < det[i])
  {
    hide Snap;
    SnapWithin(det, p, g, i, Max(2, 12 * p / 100));
  }

  /** The comb: every `p`-th sample from `g` on, inside the film. */
  lemma {:induction false} TeethIff(start: nat, g: nat, end: nat, p: nat, v: nat)
    requires p > 0
    ensures v in Teeth(start, g, end, p) <==> start < v < end && g <= v && (v - g) % p == 0
    decreases if g < end then end - g else 0
  {
    if g < end {
      TeethIff(start, g + p, end, p, v);
      if g + p <= v {
        StepBack(v - g, p);
      } else if g <= v {
        assert (v - g) % p == 0 <==> v == g by { SmallRemainder(v - g, p); }
      }
      var rest := Teeth(start, g + p, end, p);
      assert v in Teeth(start, g, end, p) <==> (start < g && v == g) || v in rest;
    }
  }

  lemma StepBack(n: nat, p: nat)
    requires p > 0 && n >= p
    ensures n % p == 0 <==> (n - p) % p == 0
  {
    var q, r := (n - p) / p, (n - p) % p;
    assert n == (q + 1) * p + r by { assert (q + 1) * p == q * p + p; }
    DivModUnique(n, p, q + 1, r);
  }

  lemma SmallRemainder(n: nat, p: nat)
    requires n < p
    ensures n % p == n
  {
    DivModUnique(n, p, 0, n);
  }

  /** Sample `t` lies on the comb and inside the film. */
  predicate OnComb(start: nat, end: nat, p: nat, phi: nat, t: nat)
    requires p > 0
  {
    start < t < end && start + phi <= t && (t - start - phi) % p == 0
  }

  /** The bounds of the cells: start and end of the film and, between them, where the teeth have moved. */
  lemma BoundsIff(det: seq<real>, start: nat, p: nat, phi: nat, v: nat)
    requires p > 0
    ensures v in Bounds(det, start, p, phi) <==>
            v == start || v == |det| || exists t: nat :: OnComb(start, |det|, p, phi, t) && v == Snap(det, p, t)
  {
    hide Snap, Teeth, OnComb;
    var teeth := Teeth(start, start + phi, |det|, p);
    var gaps := Gaps(det, p, teeth);
    forall t: nat ensures t in teeth <==> OnComb(start, |det|, p, phi, t) {
      ToothIff(start, |det|, p, phi, t);
    }
    assert v in Bounds(det, start, p, phi) <==> v in [start] + gaps + [|det|];
    hide Bounds;
    if v in gaps {
      var i :| 0 <= i < |gaps| && gaps[i] == v;
      assert teeth[i] in teeth && v == Snap(det, p, teeth[i]);
    }
    if t: nat :| OnComb(start, |det|, p, phi, t) && v == Snap(det, p, t) {
      var i :| 0 <= i < |teeth| && teeth[i] == t;
      assert gaps[i] == v;
    }
  }

  lemma ToothIff(start: nat, end: nat, p: nat, phi: nat, t: nat)
    requires p > 0
    ensures t in Teeth(start, start + phi, end, p) <==> OnComb(start, end, p, phi, t)
  {
    hide Teeth;
    TeethIff(start, start + phi, end, p, t);
  }

  // ---- the filter -----------------------------------------------------------------------------

  /** At least 0.55 of the pitch. */
  predicate Wide(c: Cell, p: nat) {
    (c.end - c.from) * 100 >= 55 * p
  }

  predicate Detailed(det: real, med: real) {
    det >= 0.45 * med
  }

  /** Cell `i` looks like a picture: wide and of sufficient detail. */
  predicate Picture(cells: seq<Cell>, det: seq<real>, p: nat, med: real, i: nat)
    requires i < |cells| == |det|
  {
    Wide(cells[i], p) && Detailed(det[i], med)
  }

  ghost predicate PictureUpTo(cells: seq<Cell>, det: seq<real>, p: nat, med: real, i: int)
    requires i < |cells| == |det|
  {
    exists j :: 0 <= j <= i && Picture(cells, det, p, med, j)
  }

  ghost predicate PictureFrom(cells: seq<Cell>, det: seq<real>, p: nat, med: real, i: int)
    requires 0 <= i && |cells| == |det|
  {
    exists j :: i <= j < |cells| && Picture(cells, det, p, med, j)
  }

  /** Cell `i` is wide and lies between two pictures, itself included. */
  ghost predicate Kept(cells: seq<Cell>, det: seq<real>, p: nat, med: real, i: nat)
    requires i < |cells| == |det|
  {
    Wide(cells[i], p) && PictureUpTo(cells, det, p, med, i) && PictureFrom(cells, det, p, med, i)
  }

  /** Cell `j` is at least 0.55 of the pitch long and has at least 0.45 of the median detail. */
  predicate Frame(cells: seq<Cell>, det: seq<real>, p: nat, med: real, j: nat)
    requires |cells| == |det|
  {
    j < |cells| && 100 * (cells[j].end - cells[j].from) >= 55 * p && 100.0 * det[j] >= 45.0 * med
  }

  /** A cell is kept if it is long enough and lies between two such cells, itself counted. */
  lemma KeptIff(cells: seq<Cell>, det: seq<real>, p: nat, med: real, i: nat)
    requires i < |cells| == |det|
    ensures Kept(cells, det, p, med, i) <==>
            100 * (cells[i].end - cells[i].from) >= 55 * p &&
            exists a: nat, b: nat :: a <= i <= b && Frame(cells, det, p, med, a) && Frame(cells, det, p, med, b)
  {
    forall j: nat | j < |cells| ensures Picture(cells, det, p, med, j) <==> Frame(cells, det, p, med, j) {
    }
    if Kept(cells, det, p, med, i) {
      var a: nat :| a <= i && Picture(cells, det, p, med, a);
      var b: nat :| i <= b < |cells| && Picture(cells, det, p, med, b);
      assert Frame(cells, det, p, med, a) && Frame(cells, det, p, med, b);
    }
  }

  /** Drops wide cells of little detail from the front, up to the first picture. */
  method DropLeading(cells: seq<Cell>, det: seq<real>, p: nat, med: real, flags: seq<bool>) returns (keep: seq<bool>)
    requires |cells| == |det| == |flags|
    requires forall i :: 0 <= i < |cells| ==> (flags[i] <==> Wide(cells[i], p))
    ensures |keep| == |cells|
    ensures forall i :: 0 <= i < |cells| ==> (keep[i] <==> Wide(cells[i], p) && PictureUpTo(cells, det, p, med, i))
  {
    hide Wide, Detailed;
    keep := flags;
    var i := 0;
    while i < |cells|
      invariant 0 <= i <= |cells| && |keep| == |cells|
      invariant forall j :: 0 <= j < i ==> !keep[j] && !Picture(cells, det, p, med, j)
      invariant forall j :: i <= j < |cells| ==> (keep[j] <==> Wide(cells[j], p))
    {
      if keep[i] && !Detailed(det[i], med) {
        keep := keep[i := false];
      } else if keep[i] {
        assert Picture(cells, det, p, med, i);
        break;
      }
      i := i + 1;
    }
  }

  /** Drops wide cells of little detail from the back, down to the last picture. */
  method DropTrailing(cells: seq<Cell>, det: seq<real>, p: nat, med: real, flags: seq<bool>) returns (keep: seq<bool>)
    requires |cells| == |det| == |flags|
    requires forall i :: 0 <= i < |cells| ==> (flags[i] <==> Wide(cells[i], p) && PictureUpTo(cells, det, p, med, i))
    ensures |keep| == |cells|
    ensures forall i :: 0 <= i < |cells| ==> (keep[i] <==> Kept(cells, det, p, med, i))
  {
    hide Wide, Detailed, PictureUpTo;
    keep := flags;
    var i := |cells| - 1;
    while i >= 0
      invariant -1 <= i < |cells| && |keep| == |cells|
      invariant forall j :: i < j < |cells| ==> !keep[j] && !Picture(cells, det, p, med, j)
      invariant forall j :: 0 <= j <= i ==> keep[j] == flags[j]
    {
      if keep[i] && !Detailed(det[i], med) {
        keep := keep[i := false];
      } else if keep[i] {
        assert Picture(cells, det, p, med, i);
        break;
      } else {
        assert !(Wide(cells[i], p) && PictureUpTo(cells, det, p, med, i));
        NotFlagged(cells, det, p, med, i);
      }
      i := i - 1;
    }
  }

  lemma NotFlagged(cells: seq<Cell>, det: seq<real>, p: nat, med: real, i: nat)
    requires i < |cells| == |det| && !(Wide(cells[i], p) && PictureUpTo(cells, det, p, med, i))
    ensures !Picture(cells, det, p, med, i)
  {
  }

  /** The filter: narrow cells go, then dull wide cells from the front and from the back. */
  method Filter(cells: seq<Cell>, det: seq<real>, p: nat, med: real) returns (keep: seq<bool>)
    requires |cells| == |det|
    ensures |keep| == |cells|
    ensures forall i :: 0 <= i < |cells| ==> (keep[i] <==> Kept(cells, det, p, med, i))
  {
    hide Wide, Kept, PictureUpTo;
    keep := seq<bool>(|cells|, i requires 0 <= i < |cells| => Wide(cells[i], p));
    keep := DropLeading(cells, det, p, med, keep);
    keep := DropTrailing(cells, det, p, med, keep);
  }

  /** A wide dull cell with a picture on either side survives. */
  lemma InteriorSurvives(cells: seq<Cell>, det: seq<real>, p: nat, med: real, i: nat, j: nat, k: nat)
    requires |cells| == |det| && i < j < k < |cells| && Wide(cells[j], p)
    requires Kept(cells, det, p, med, i) && Kept(cells, det, p, med, k)
    ensures Kept(cells, det, p, med, j)
  {
    var a :| 0 <= a <= i && Picture(cells, det, p, med, a);
    var b :| k <= b < |cells| && Picture(cells, det, p, med, b);
  }

  function Select(cells: seq<Cell>, keep: seq<bool>): (r: seq<Cell>)
    requires |keep| == |cells|
    ensures |r| <= |cells|
  {
    if cells == [] then []
    else
      var n := |cells| - 1;
      Select(cells[..n], keep[..n]) + if keep[n] then [cells[n]] else []
  }

  // ---- the cuts -------------------------------------------------------------------------------

  /** Rows between two profile samples. */
  function StepOf(rows: nat): (s: nat)
    ensures s >= 1
  {
    Max(1, rows / 8000)
  }

  /** Number of profile samples, `len(ribbon[::step])`. */
  function Samples(rows: nat): nat {
    (rows + StepOf(rows) - 1) / StepOf(rows)
  }

  /** A ribbon is sampled down to between 8000 and 16000 samples; a shorter one keeps all its rows. */
  lemma SampleLimits(rows: nat)
    ensures rows < 8000 ==> StepOf(rows) == 1 && Samples(rows) == rows
    ensures rows >= 8000 ==> 8000 * StepOf(rows) <= rows < 8000 * (StepOf(rows) + 1)
    ensures rows >= 8000 ==> 8000 <= Samples(rows) < 16000
  {
    var s := StepOf(rows);
    if rows >= 8000 {
      var n := (rows + s - 1) / s;
      assert n * s <= rows + s - 1 < n * s + s by { assert n == Quot(rows + s - 1, s); }
      if n < 8000 {
        MulLe(n, 7999, s);
      } else if n >= 16000 {
        MulLe(16000, n, s);
      }
    }
  }

  function Cuts(kept: seq<Cell>, step: nat): (r: seq<nat>)
    requires kept != []
    ensures |r| == |kept| + 1
  {
    [kept[0].from * step] + seq(|kept|, i requires 0 <= i < |kept| => kept[i].end * step)
  }

  /** Which cells are kept. */
  ghost function Flags(cells: seq<Cell>, det: seq<real>, p: nat, med: real): (keep: seq<bool>)
    requires |cells| == |det|
    ensures |keep| == |cells|
    ensures forall i :: 0 <= i < |cells| ==> (keep[i] <==> Kept(cells, det, p, med, i))
  {
    seq(|cells|, i requires 0 <= i < |cells| => Kept(cells, det, p, med, i))
  }

  /** The cut rows of the film, all of it if no cell is kept, and the pitch in rows. */
  method CutRows(bounds: seq<nat>, det: seq<real>, p: nat, med: real, rows: nat) returns (cuts: seq<nat>, pitch: nat)
    requires bounds != [] && |det| == |bounds| - 1
    ensures var kept := Select(Cells(bounds), Flags(Cells(bounds), det, p, med));
            cuts == if kept == [] then [0, rows] else Cuts(kept, StepOf(rows))
    ensures pitch == p * StepOf(rows)
  {
    hide Kept;
    pitch := p * StepOf(rows);
    var keep := Filter(Cells(bounds), det, p, med);
    assert keep == Flags(Cells(bounds), det, p, med);
    var kept := Select(Cells(bounds), keep);
    if kept == [] {
      return [0, rows], pitch;
    }
    cuts := Cuts(kept, StepOf(rows));
  }

  /** Non-empty cells, one after the other. */
  predicate InOrder(cells: seq<Cell>) {
    (forall i :: 0 <= i < |cells| ==> cells[i].from < cells[i].end) &&
    (forall i, j :: 0 <= i < j < |cells| ==> cells[i].end <= cells[j].from)
  }

  /** Each cell begins where the one before ends. */
  predicate Adjoining(cells: seq<Cell>) {
    forall i :: 0 < i < |cells| ==> cells[i - 1].end == cells[i].from
  }

  lemma CellsInOrder(bounds: seq<nat>)
    requires bounds != [] && Increasing(bounds)
    ensures InOrder(Cells(bounds)) && Adjoining(Cells(bounds))
  {
    var c := Cells(bounds);
    forall i, j | 0 <= i < j < |c| ensures c[i].end <= c[j].from {
      assert i + 1 < j ==> bounds[i + 1] < bounds[j];
    }
  }

  /** Cell `c` is one of the cells that are kept. */
  ghost predicate IsKept(cells: seq<Cell>, keep: seq<bool>, c: Cell)
    requires |keep| == |cells|
  {
    exists i :: 0 <= i < |cells| && keep[i] && cells[i] == c
  }

  lemma {:induction false} SelectedAreKept(cells: seq<Cell>, keep: seq<bool>, c: Cell)
    requires |keep| == |cells| && c in Select(cells, keep)
    ensures IsKept(cells, keep, c)
  {
    var n := |cells| - 1;
    var front, flags := cells[..n], keep[..n];
    if c in Select(front, flags) {
      SelectedAreKept(front, flags, c);
      var i :| 0 <= i < n && flags[i] && front[i] == c;
      assert keep[i] && cells[i] == c;
    } else {
      assert keep[n] && cells[n] == c;
    }
  }

  lemma AppendInOrder(front: seq<Cell>, c: Cell)
    requires InOrder(front) && c.from < c.end && forall k :: 0 <= k < |front| ==> front[k].end <= c.from
    ensures InOrder(front + [c])
  {
  }

  lemma InOrderPrefix(cells: seq<Cell>, n: nat)
    requires InOrder(cells) && n < |cells|
    ensures InOrder(cells[..n]) && cells[n].from < cells[n].end
    ensures forall i :: 0 <= i < n ==> cells[i].end <= cells[n].from
  {
  }

  /** Selected cells are cells, in their order. */
  lemma {:induction false} SelectInOrder(cells: seq<Cell>, keep: seq<bool>)
    requires |keep| == |cells| && InOrder(cells)
    ensures InOrder(Select(cells, keep))
  {
    if cells != [] {
      var n := |cells| - 1;
      InOrderPrefix(cells, n);
      hide InOrder;
      var front := Select(cells[..n], keep[..n]);
      SelectInOrder(cells[..n], keep[..n]);
      forall k | 0 <= k < |front| ensures front[k].end <= cells[n].from {
        SelectedAreKept(cells[..n], keep[..n], front[k]);
        var i :| 0 <= i < n && keep[..n][i] && cells[..n][i] == front[k];
      }
      if keep[n] {
        AppendInOrder(front, cells[n]);
      }
    } else {
      assert InOrder([]);
    }
  }

  lemma ScaleLess(a: nat, b: nat, step: nat)
    requires a < b && step >= 1
    ensures a * step < b * step
  {
  }

  lemma ScaleAtMost(a: nat, b: nat, step: nat)
    requires a <= b
    ensures a * step <= b * step
  {
  }

  /**
   One cut more than kept cells, strictly increasing; the interval before cut
   `k + 1` holds cell `k` and ends with it, and the first begins with the first cell.
   */
  lemma CutsHoldCells(kept: seq<Cell>, step: nat)
    requires kept != [] && InOrder(kept) && step >= 1
    ensures |Cuts(kept, step)| == |kept| + 1 && Increasing(Cuts(kept, step))
    ensures Cuts(kept, step)[0] == kept[0].from * step
    ensures forall k :: 0 <= k < |kept| ==>
              Cuts(kept, step)[k] <= kept[k].from * step && Cuts(kept, step)[k + 1] == kept[k].end * step
  {
    var cuts := Cuts(kept, step);
    forall k | 0 <= k < |kept| ensures cuts[k] <= kept[k].from * step && cuts[k + 1] == kept[k].end * step {
      if k > 0 {
        assert kept[k - 1].end <= kept[k].from;
        ScaleAtMost(kept[k - 1].end, kept[k].from, step);
      }
    }
    forall i, j | 0 <= i < j < |cuts| ensures cuts[i] < cuts[j] {
      if i == 0 {
        assert kept[0].from < kept[j - 1].end by {
          assert j > 1 ==> kept[0].end <= kept[j - 1].from;
        }
        ScaleLess(kept[0].from, kept[j - 1].end, step);
      } else {
        assert kept[i - 1].end <= kept[j - 1].from;
        ScaleLess(kept[i - 1].end, kept[j - 1].end, step);
      }
    }
  }

  /** The kept flags have no holes. */
  predicate NoHoles(keep: seq<bool>) {
    forall i, j, k :: 0 <= i < j < k < |keep| && keep[i] && keep[k] ==> keep[j]
  }

  lemma {:induction false} SelectEmpty(cells: seq<Cell>, keep: seq<bool>)
    requires |keep| == |cells|
    ensures Select(cells, keep) == [] <==> true !in keep
  {
    if cells != [] {
      var n := |cells| - 1;
      var front, last := keep[..n], keep[n];
      SelectEmpty(cells[..n], front);
      assert keep == front + [last];
      assert true in keep <==> true in front || last;
      assert Select(cells, keep) == Select(cells[..n], front) + if last then [cells[n]] else [];
    }
  }

  lemma AppendAdjoining(front: seq<Cell>, c: Cell)
    requires Adjoining(front) && (front != [] ==> front[|front| - 1].end == c.from)
    ensures Adjoining(front + [c])
  {
  }

  lemma NoHolesPrefix(keep: seq<bool>, n: nat)
    requires NoHoles(keep) && n <= |keep|
    ensures NoHoles(keep[..n])
    ensures 0 < n < |keep| && keep[n] && true in keep[..n] ==> keep[n - 1]
  {
    var front := keep[..n];
    if 0 < n < |keep| && keep[n] && true in front {
      var i :| 0 <= i < n && front[i];
      assert keep[i];
      assert i < n - 1 ==> keep[n - 1];
    }
  }

  /** Selected cells without holes adjoin each other. */
  lemma {:induction false} SelectAdjoining(cells: seq<Cell>, keep: seq<bool>)
    requires |keep| == |cells| && Adjoining(cells) && NoHoles(keep)
    ensures Adjoining(Select(cells, keep))
  {
    if cells != [] {
      var n := |cells| - 1;
      NoHolesPrefix(keep, n);
      SelectEmpty(cells[..n], keep[..n]);
      var front := Select(cells[..n], keep[..n]);
      if keep[n] && front != [] {
        assert front[|front| - 1] == cells[n - 1];
        assert cells[n - 1].end == cells[n].from;
      }
      hide NoHoles;
      SelectAdjoining(cells[..n], keep[..n]);
      if keep[n] {
        AppendAdjoining(front, cells[n]);
      }
    }
  }

  /** If the kept cells adjoin, the cut intervals are exactly the kept cells. */
  lemma CutsAreCells(kept: seq<Cell>, step: nat)
    requires kept != [] && InOrder(kept) && Adjoining(kept) && step >= 1
    ensures forall k :: 0 <= k < |kept| ==>
              Cuts(kept, step)[k] == kept[k].from * step && Cuts(kept, step)[k + 1] == kept[k].end * step
  {
    var cuts := Cuts(kept, step);
    forall k | 0 <= k < |kept| ensures cuts[k] == kept[k].from * step {
      if k > 0 {
        assert kept[k - 1].end == kept[k].from;
      }
    }
  }

  // ---- a comb leaves narrow cells only at the ends ------------------------------------------------

  predicate Spaced(t: seq<nat>, p: nat) {
    forall i, j :: 0 <= i < j < |t| ==> t[i] + p <= t[j]
  }

  lemma ConsSpaced(g: nat, rest: seq<nat>, p: nat)
    requires Spaced(rest, p) && forall i :: 0 <= i < |rest| ==> g + p <= rest[i]
    ensures Spaced([g] + rest, p)
  {
    var t := [g] + rest;
    forall i, j | 0 <= i < j < |t| ensures t[i] + p <= t[j] {
      assert t[j] == rest[j - 1];
      if i > 0 {
        assert t[i] == rest[i - 1];
      }
    }
  }

  lemma TeethUnfold(start: nat, g: nat, end: nat, p: nat)
    requires p > 0
    ensures Teeth(start, g, end, p) ==
      if g >= end then [] else if start < g then [g] + Teeth(start, g + p, end, p) else Teeth(start, g + p, end, p)
  {
    if g < end {
      var rest := Teeth(start, g + p, end, p);
      assert [] + rest == rest;
    }
  }

  lemma {:induction false} TeethSpaced(start: nat, g: nat, end: nat, p: nat)
    requires p > 0
    ensures Spaced(Teeth(start, g, end, p), p)
    decreases if g < end then end - g else 0
  {
    TeethUnfold(start, g, end, p);
    if g < end {
      hide Spaced, Teeth;
      TeethSpaced(start, g + p, end, p);
      ConsSpaced(g, Teeth(start, g + p, end, p), p);
    } else {
      assert Spaced([], p);
    }
  }

  /** Two different teeth stay 0.55 of the pitch apart if the pitch is at least 9 samples. */
  lemma ReachIsShort(p: nat)
    requires p >= 9
    ensures (p - 2 * Reach(p)) * 100 >= 55 * p && Reach(p) < p
  {
  }

  /** At least 0.55 of the pitch, as for a wide cell. */
  predicate Apart(p: nat, x: nat, y: nat) {
    (y - x) * 100 >= 55 * p
  }

  /** Different snapped teeth are apart, and all but the first are well beyond the start. */
  predicate SpreadOut(gaps: seq<nat>, start: nat, p: nat) {
    (forall i, j :: 0 <= i < |gaps| && 0 <= j < |gaps| && gaps[i] < gaps[j] ==> Apart(p, gaps[i], gaps[j])) &&
    (forall i :: 0 < i < |gaps| ==> Apart(p, start, gaps[i]))
  }

  lemma SnapsApart(det: seq<real>, p: nat, g: nat, h: nat)
    requires p >= 9 && g < |det| && h < |det| && (g == h || g + p <= h || h + p <= g)
    requires Snap(det, p, g) < Snap(det, p, h)
    ensures Apart(p, Snap(det, p, g), Snap(det, p, h))
  {
    hide Reach, Snap;
    ReachIsShort(p);
  }

  lemma SnapBeyond(det: seq<real>, p: nat, start: nat, g: nat)
    requires p >= 9 && start + p <= g < |det|
    ensures Apart(p, start, Snap(det, p, g))
  {
    hide Reach, Snap;
    ReachIsShort(p);
  }

  lemma SpacedPair(t: seq<nat>, p: nat, i: nat, j: nat)
    requires Spaced(t, p) && i < |t| && j < |t|
    ensures t[i] == t[j] || t[i] + p <= t[j] || t[j] + p <= t[i]
    ensures i < j ==> t[i] + p <= t[j]
  {
  }

  lemma GapsSpreadOut(det: seq<real>, start: nat, p: nat, phi: nat)
    requires p >= 9
    ensures SpreadOut(Gaps(det, p, Teeth(start, start + phi, |det|, p)), start, p)
  {
    hide Snap, Teeth, Apart, Spaced, Gaps;
    TeethSpaced(start, start + phi, |det|, p);
    var t := Teeth(start, start + phi, |det|, p);
    var gaps := Gaps(det, p, t);
    forall i | 0 < i < |gaps| ensures Apart(p, start, gaps[i]) {
      SpacedPair(t, p, 0, i);
      SnapBeyond(det, p, start, t[i]);
    }
    forall i, j | 0 <= i < |gaps| && 0 <= j < |gaps| && gaps[i] < gaps[j] ensures Apart(p, gaps[i], gaps[j]) {
      SpacedPair(t, p, i, j);
      SnapsApart(det, p, t[i], t[j]);
    }
  }

  /** Among the start and the snapped teeth, what is not the least is apart from all that is larger. */
  lemma SpreadOutInner(gaps: seq<nat>, start: nat, p: nat, z: nat, x: nat, y: nat)
    requires SpreadOut(gaps, start, p) && p > 0 && z < x < y
    requires (z == start || z in gaps) && (x == start || x in gaps) && (y == start || y in gaps)
    ensures Apart(p, x, y)
  {
    forall i, k | 0 <= i < k < |gaps| ensures gaps[i] > start || gaps[k] > start {
      assert Apart(p, start, gaps[k]);
    }
    if x == start {
      var j :| 0 <= j < |gaps| && gaps[j] == y;
    } else {
      var i :| 0 <= i < |gaps| && gaps[i] == x;
    }
  }

  /** A bound is the start, a snapped tooth or the end. */
  lemma BoundIs(det: seq<real>, start: nat, p: nat, phi: nat, v: nat)
    requires p > 0 && v in Bounds(det, start, p, phi)
    ensures v == start || v == |det| || v in Gaps(det, p, Teeth(start, start + phi, |det|, p))
  {
    hide Teeth, Gaps;
    assert v in [start] + Gaps(det, p, Teeth(start, start + phi, |det|, p)) + [|det|];
  }

  /** All cells but the first and the last are wide. */
  lemma InnerCellsWide(det: seq<real>, start: nat, p: nat, phi: nat, i: nat)
    requires p >= 9 && start < |det|
    requires var c := Cells(Bounds(det, start, p, phi)); 0 < i < |c| - 1
    ensures Wide(Cells(Bounds(det, start, p, phi))[i], p)
  {
    var b := Bounds(det, start, p, phi);
    assert b[i - 1] in b && b[i] in b && b[i + 1] in b;
    LargestBound(det, start, p, phi, i + 2);
    BoundIs(det, start, p, phi, b[i - 1]);
    BoundIs(det, start, p, phi, b[i]);
    BoundIs(det, start, p, phi, b[i + 1]);
    GapsSpreadOut(det, start, p, phi);
    hide Bounds, Gaps, Teeth, SpreadOut;
    SpreadOutInner(Gaps(det, p, Teeth(start, start + phi, |det|, p)), start, p, b[i - 1], b[i], b[i + 1]);
  }

  /** The end of the profile is the largest bound. */
  lemma LargestBound(det: seq<real>, start: nat, p: nat, phi: nat, i: nat)
    requires p > 0 && start < |det| && i < |Bounds(det, start, p, phi)|
    ensures Bounds(det, start, p, phi)[i] <= |det|
  {
    var b := Bounds(det, start, p, phi);
    var gaps := Gaps(det, p, Teeth(start, start + phi, |det|, p));
    assert b[i] in b;
    assert b[i] in [start] + gaps + [|det|];
    if b[i] in gaps {
      var k :| 0 <= k < |gaps| && gaps[k] == b[i];
    }
  }

  /**
   With a pitch of at least 9 samples the cut intervals are exactly the kept
   cells: the film from the first kept cell to the last is cut without a gap or an
   overlap, and every cell in between is kept.
   */
  lemma CombCutsAreCells(profile: seq<real>, start: nat, p: nat, phi: nat, det: seq<real>, med: real, rows: nat)
    requires p >= 9 && start < |profile| && |det| == |Cells(Bounds(profile, start, p, phi))|
    ensures var cells := Cells(Bounds(profile, start, p, phi));
            var keep := Flags(cells, det, p, med);
            var kept := Select(cells, keep);
            NoHoles(keep) &&
            (kept != [] ==>
              Increasing(Cuts(kept, StepOf(rows))) &&
              forall k :: 0 <= k < |kept| ==>
                Cuts(kept, StepOf(rows))[k] == kept[k].from * StepOf(rows) &&
                Cuts(kept, StepOf(rows))[k + 1] == kept[k].end * StepOf(rows))
  {
    hide Flags, Kept;
    var bounds := Bounds(profile, start, p, phi);
    var cells := Cells(bounds);
    var keep := Flags(cells, det, p, med);
    forall i, j, k | 0 <= i < j < k < |keep| && keep[i] && keep[k] ensures keep[j] {
      InnerCellsWide(profile, start, p, phi, j);
      InteriorSurvives(cells, det, p, med, i, j, k);
    }
    CellsInOrder(bounds);
    SelectInOrder(cells, keep);
    SelectAdjoining(cells, keep);
    var kept := Select(cells, keep);
    if kept != [] {
      CutsHoldCells(kept, StepOf(rows));
      CutsAreCells(kept, StepOf(rows));
    }
  }

  lemma MultipleBelow(n: nat, k: nat, s: nat)
    requires n < k
    ensures n * s + s <= k * s
  {
    MulLe(n + 1, k, s);
    assert (n + 1) * s == n * s + s;
  }

  /** Division rounded up, as a slice with a step has elements. */
  lemma RoundedUp(rows: nat, s: nat)
    requires s >= 1
    ensures rows <= (rows + s - 1) / s * s < rows + s
    ensures (rows + s - 1) / s * s == rows <==> rows % s == 0
  {
    var n, k := (rows + s - 1) / s, rows / s;
    var ns, ks := n * s, k * s;
    assert ns == rows + s - 1 - (rows + s - 1) % s;
    assert rows == ks + rows % s;
    if n < k {
      MultipleBelow(n, k, s);
    } else if k < n {
      MultipleBelow(k, n, s);
    }
  }

  /** The profile covers all rows, and exceeds them unless the step divides their number. */
  lemma SamplesCover(rows: nat)
    ensures rows <= Samples(rows) * StepOf(rows) < rows + StepOf(rows)
    ensures Samples(rows) * StepOf(rows) == rows <==> rows % StepOf(rows) == 0
  {
    var s := StepOf(rows);
    hide StepOf;
    RoundedUp(rows, s);
  }

  /** The end of the last kept cell as a row, against the rows there are. */
  lemma LastCut(end: nat, rows: nat)
    requires end <= Samples(rows)
    ensures end * StepOf(rows) < rows + StepOf(rows)
    ensures end * StepOf(rows) <= rows <==> rows % StepOf(rows) == 0 || end < Samples(rows)
  {
    hide StepOf, Samples;
    var s, n := StepOf(rows), Samples(rows);
    SamplesCover(rows);
    if end < n {
      MultipleBelow(end, n, s);
    }
  }

  lemma CellEndsInside(profile: seq<real>, start: nat, p: nat, phi: nat, i: nat)
    requires p > 0 && start < |profile| && i < |Cells(Bounds(profile, start, p, phi))|
    ensures Cells(Bounds(profile, start, p, phi))[i].end <= |profile|
  {
    LargestBound(profile, start, p, phi, i + 1);
  }

  lemma LastKept(profile: seq<real>, start: nat, p: nat, phi: nat, keep: seq<bool>)
    requires p > 0 && start < |profile|
    requires |keep| == |Cells(Bounds(profile, start, p, phi))|
    ensures var kept := Select(Cells(Bounds(profile, start, p, phi)), keep);
            InOrder(kept) && (kept != [] ==> kept[|kept| - 1].end <= |profile|)
  {
    hide Bounds, Cells, Select, InOrder;
    var bounds := Bounds(profile, start, p, phi);
    var cells := Cells(bounds);
    var kept := Select(cells, keep);
    CellsInOrder(bounds);
    SelectInOrder(cells, keep);
    if kept != [] {
      var last := kept[|kept| - 1];
      SelectedAreKept(cells, keep, last);
      var i :| 0 <= i < |cells| && keep[i] && cells[i] == last;
      CellEndsInside(profile, start, p, phi, i);
    }
  }

  predicate AllAtMost(cuts: seq<nat>, limit: nat) {
    forall k :: 0 <= k < |cuts| ==> cuts[k] <= limit
  }

  /**
   The cuts stay on the ribbon exactly if the step divides the number of rows or
   the cell at the end of the profile is not kept; beyond it they are less than a step.
   */
  lemma CutsInRange(profile: seq<real>, start: nat, p: nat, phi: nat, rows: nat, keep: seq<bool>)
    requires p > 0 && start < |profile| == Samples(rows)
    requires |keep| == |Cells(Bounds(profile, start, p, phi))|
    requires Select(Cells(Bounds(profile, start, p, phi)), keep) != []
    ensures var kept := Select(Cells(Bounds(profile, start, p, phi)), keep);
            var cuts := Cuts(kept, StepOf(rows));
            (AllAtMost(cuts, rows) <==> rows % StepOf(rows) == 0 || kept[|kept| - 1].end < |profile|) &&
            AllAtMost(cuts, rows + StepOf(rows) - 1)
  {
    var kept := Select(Cells(Bounds(profile, start, p, phi)), keep);
    LastKept(profile, start, p, phi, keep);
    hide Samples, StepOf, Bounds, Cells, Select;
    var cuts, n := Cuts(kept, StepOf(rows)), |kept|;
    CutsHoldCells(kept, StepOf(rows));
    LastCut(kept[n - 1].end, rows);
    assert cuts[n] == kept[n - 1].end * StepOf(rows);
    assert forall k :: 0 <= k < n ==> cuts[k] < cuts[n];
  }

  /** A profile without any detail. */
  function Plain(n: nat): (profile: seq<real>)
    ensures |profile| == n
  {
    seq(n, i => 0.0)
  }

  /** Among equal elements the first is the least. */
  lemma SnapPlain(n: nat, p: nat, g: nat)
    requires g < n && Reach(p) <= g
    ensures Snap(Plain(n), p, g) == g - Reach(p)
  {
    var det := Plain(n);
    var a, b := g - Reach(p), Min(n, g + Reach(p) + 1);
    var window := det[a..b];
    assert forall i :: 0 <= i < |window| ==> window[i] == 0.0;
    assert window[ArgMin(window)] == window[0];
  }

  lemma {:induction false} InsertFirst(s: seq<nat>, x: nat)
    requires Increasing(s) && forall i :: 0 <= i < |s| ==> x < s[i]
    ensures Insert(s, x) == [x] + s
  {
    if s != [] {
      var n := |s| - 1;
      InsertFirst(s[..n], x);
      assert s == s[..n] + [s[n]];
    }
  }

  lemma {:induction false} SortedSorted(s: seq<nat>)
    requires Increasing(s)
    ensures SortedSet(s) == s
  {
    if s != [] {
      SortedSorted(s[1..]);
      InsertFirst(s[1..], s[0]);
    }
  }

  /** The comb of pitch 1300 on 8501 samples. */
  lemma CombTeeth()
    ensures Teeth(0, 0, 8501, 1300) == [1300, 2600, 3900, 5200, 6500, 7800]
  {
    hide Teeth;
    TeethUnfold(0, 7800, 8501, 1300);
    TeethUnfold(0, 9100, 8501, 1300);
    TeethUnfold(0, 6500, 8501, 1300);
    TeethUnfold(0, 5200, 8501, 1300);
    TeethUnfold(0, 3900, 8501, 1300);
    TeethUnfold(0, 2600, 8501, 1300);
    TeethUnfold(0, 1300, 8501, 1300);
    TeethUnfold(0, 0, 8501, 1300);
  }

  lemma CombBounds(profile: seq<real>)
    requires profile == Plain(8501)
    ensures Bounds(profile, 0, 1300, 0) == [0, 1144, 2444, 3744, 5044, 6344, 7644, 8501]
  {
    hide SortedSet, Teeth, Snap, Plain;
    CombTeeth();
    var teeth := Teeth(0, 0, 8501, 1300);
    var gaps := Gaps(profile, 1300, teeth);
    forall i | 0 <= i < 6 ensures gaps[i] == teeth[i] - 156 {
      SnapPlain(8501, 1300, teeth[i]);
    }
    assert gaps == [1144, 2444, 3744, 5044, 6344, 7644];
    var bounds := [0, 1144, 2444, 3744, 5044, 6344, 7644, 8501];
    assert [0] + gaps + [8501] == bounds;
    SortedSorted(bounds);
  }

  lemma {:induction false} SelectAll(cells: seq<Cell>, keep: seq<bool>)
    requires |keep| == |cells| && forall i :: 0 <= i < |keep| ==> keep[i]
    ensures Select(cells, keep) == cells
  {
    if cells != [] {
      SelectAll(cells[..|cells| - 1], keep[..|cells| - 1]);
    }
  }

  /** Wide cells of equal detail are all kept. */
  lemma AllKept(cells: seq<Cell>, p: nat)
    requires forall i :: 0 <= i < |cells| ==> Wide(cells[i], p)
    ensures Select(cells, Flags(cells, Plain(|cells|), p, 0.0)) == cells
  {
    hide Wide, Select;
    var det := Plain(|cells|);
    forall i | 0 <= i < |cells| ensures Kept(cells, det, p, 0.0, i) {
      assert Picture(cells, det, p, 0.0, i);
    }
    SelectAll(cells, Flags(cells, det, p, 0.0));
  }

  /**
   A blank ribbon of 17001 rows: the comb search takes its shortest pitch, 1300
   samples, at phase 0, all seven cells are kept, and the last cut is row 17002.
   */
  lemma CutBeyondRibbon()
    ensures var rows, start, p, phi := 17001, 0, 1300, 0;
            var profile := Plain(Samples(rows));
            StepOf(rows) == 2 && 2600 / 2 <= p <= 3800 / 2 && start + phi + p < |profile| &&
            var cells := Cells(Bounds(profile, start, p, phi));
            var kept := Select(cells, Flags(cells, Plain(|cells|), p, 0.0));
            kept != [] && Cuts(kept, 2) == [0, 2288, 4888, 7488, 10088, 12688, 15288, 17002]
  {
    hide Bounds, Select, Flags;
    var profile := Plain(8501);
    assert Samples(17001) == 8501;
    CombBounds(profile);
    var bounds := Bounds(profile, 0, 1300, 0);
    var cells := Cells(bounds);
    AllKept(cells, 1300);
  }
}
