/**
 Classification of image chunks and the end-of-roll watch that both scan drivers
 share (tools/pakon_replay.c, lines 274-331, 474-492 and 608-625).
 */
module Chunks {
  import opened Bytes

  const WHITE_THRESH := 40000
  const WHITE_PERCENT := 60
  const TRAIL_WHITE := 24
  const FILM_THRESH := 8000
  const FILM_PERCENT := 10

  /** The 16-bit little-endian sample at byte `i`. */
  function Sample(s: seq<byte>, i: nat): (v: nat)
    requires i + 1 < |s|
    ensures v < 0x1_0000
  {
    s[i] + 0x100 * s[i + 1] as int
  }

  /** Number of whole samples above a threshold. */
  function Above(s: seq<byte>, threshold: nat): (n: nat)
    ensures n <= |s| / 2
  {
    if |s| < 2 then 0
    else Above(s[..|s| / 2 * 2 - 2], threshold) + if Sample(s, |s| / 2 * 2 - 2) > threshold then 1 else 0
  }

  /** At least `percent` of the samples are above the threshold. */
  predicate Lit(s: seq<byte>, threshold: nat, percent: nat) {
    |s| >= 2 && Above(s, threshold) * 100 >= |s| / 2 * percent
  }

  predicate White(s: seq<byte>) {
    Lit(s, WHITE_THRESH, WHITE_PERCENT)
  }

  predicate HasFilm(s: seq<byte>) {
    Lit(s, FILM_THRESH, FILM_PERCENT)
  }

  /** Film once white has been ruled out, as both callers test it. */
  predicate Film(s: seq<byte>) {
    !White(s) && HasFilm(s)
  }

  predicate Dim(s: seq<byte>) {
    !White(s) && !HasFilm(s)
  }

  lemma {:induction false} AboveMonotone(s: seq<byte>, low: nat, high: nat)
    requires low <= high
    ensures Above(s, high) <= Above(s, low)
  {
    if |s| >= 2 {
      AboveMonotone(s[..|s| / 2 * 2 - 2], low, high);
    }
  }

  /** Where the samples above a threshold are. */
  function Brighter(s: seq<byte>, threshold: nat): set<nat> {
    set i: nat | 0 <= i < |s| / 2 && s[2 * i] as int + 256 * s[2 * i + 1] as int > threshold
  }

  lemma BrighterMore(s: seq<byte>, n: nat, threshold: nat)
    requires |s| / 2 == n + 1
    ensures |Brighter(s, threshold)| ==
            |Brighter(s[..2 * n], threshold)| + if s[2 * n] as int + 256 * s[2 * n + 1] as int > threshold then 1 else 0
  {
    var front := s[..2 * n];
    assert |front| / 2 == n;
    var last := if s[2 * n] as int + 256 * s[2 * n + 1] as int > threshold then {n} else {};
    assert Brighter(s, threshold) == Brighter(front, threshold) + last;
  }

  lemma {:induction false} AboveCounts(s: seq<byte>, threshold: nat)
    ensures Above(s, threshold) == |Brighter(s, threshold)|
  {
    if |s| >= 2 {
      var n := |s| / 2 - 1;
      AboveCounts(s[..2 * n], threshold);
      BrighterMore(s, n, threshold);
      hide Brighter;
    }
  }

  /** White means: at least 60 of 100 samples exceed 40000, low byte first. */
  lemma WhiteMeans(s: seq<byte>)
    ensures White(s) <==>
            |s| >= 2 &&
            100 * |set i: nat | 0 <= i < |s| / 2 && s[2 * i] as int + 256 * s[2 * i + 1] as int > 40000| >= 60 * (|s| / 2)
  {
    AboveCounts(s, 40000);
    assert Brighter(s, 40000) == set i: nat | 0 <= i < |s| / 2 && s[2 * i] as int + 256 * s[2 * i + 1] as int > 40000;
  }

  /** To pass the film test means: at least 10 of 100 samples exceed 8000. */
  lemma HasFilmMeans(s: seq<byte>)
    ensures HasFilm(s) <==>
            |s| >= 2 &&
            100 * |set i: nat | 0 <= i < |s| / 2 && s[2 * i] as int + 256 * s[2 * i + 1] as int > 8000| >= 10 * (|s| / 2)
  {
    AboveCounts(s, 8000);
    assert Brighter(s, 8000) == set i: nat | 0 <= i < |s| / 2 && s[2 * i] as int + 256 * s[2 * i + 1] as int > 8000;
  }

  /** Three film samples and one highlight are film. */
  lemma OneHighlight()
    ensures Film([0xFF, 0xFF, 0x00, 0x40, 0x00, 0x40, 0x00, 0x40])
  {
    var s: seq<byte> := [0xFF, 0xFF, 0x00, 0x40, 0x00, 0x40, 0x00, 0x40];
    assert s[..6][..4][..2] == [0xFF, 0xFF] && s[..6][..4] == s[..4] && s[..6] == s[..|s| / 2 * 2 - 2];
  }

  /** Open-gate white also passes the film test, so only testing white first separates the two. */
  lemma WhitePassesFilmTest(s: seq<byte>)
    requires White(s)
    ensures HasFilm(s)
  {
    AboveMonotone(s, FILM_THRESH, WHITE_THRESH);
  }

  /** Every chunk is of exactly one kind; film is what passes the film test and is not white. */
  lemma KindsPartition(s: seq<byte>)
    ensures HasFilm(s) <==> (White(s) || Film(s))
    ensures Dim(s) <==> !HasFilm(s)
    ensures !(White(s) && Film(s))
  {
    if White(s) {
      WhitePassesFilmTest(s);
    }
  }

  lemma OneSampleMore(s: seq<byte>, i: nat, threshold: nat)
    requires i % 2 == 0 && i + 2 <= |s|
    ensures Above(s[..i + 2], threshold)
         == Above(s[..i], threshold) + if s[i] + 0x100 * s[i + 1] as int > threshold then 1 else 0
  {
    assert s[..i + 2][..i] == s[..i];
  }

  method CountLit(buf: array<byte>, got: nat, threshold: nat, percent: nat) returns (lit: bool)
    requires got <= buf.Length
    ensures lit == Lit(buf[..got], threshold, percent)
  {
    hide Lit, Above;
    var samples := got / 2;
    ghost var s := buf[..got];
    NoSample(s, threshold, percent);
    if samples == 0 { return false; }
    var n, i := 0, 0;
    while i + 1 < got
      invariant i % 2 == 0 && i <= got
      invariant n == Above(s[..i], threshold)
    {
      OneSampleMore(s, i, threshold);
      var v := buf[i] + 0x100 * buf[i + 1] as int;
      if v > threshold { n := n + 1; }
      i := i + 2;
    }
    LitCount(s, i, n, threshold, percent);
    return n * 100 >= samples * percent;
  }

  lemma NoSample(s: seq<byte>, threshold: nat, percent: nat)
    ensures Above(s[..0], threshold) == 0 && (|s| < 2 ==> !Lit(s, threshold, percent))
  {
  }

  /** All whole samples have been counted; an odd last byte counts for nothing. */
  lemma LitCount(s: seq<byte>, i: nat, n: nat, threshold: nat, percent: nat)
    requires i == |s| / 2 * 2 && |s| >= 2 && n == Above(s[..i], threshold)
    ensures Lit(s, threshold, percent) <==> n * 100 >= |s| / 2 * percent
  {
    hide Above;
    OddByteIgnored(s, i, threshold);
  }

  lemma OddByteIgnored(s: seq<byte>, i: nat, threshold: nat)
    requires i == |s| / 2 * 2
    ensures Above(s, threshold) == Above(s[..i], threshold)
  {
    if i > 0 {
      assert s[..i][..i - 2] == s[..i - 2];
    }
  }

  /** `sm_chunk_is_white`. */
  method ChunkIsWhite(buf: array<byte>, got: nat) returns (white: bool)
    requires got <= buf.Length
    ensures white == White(buf[..got])
  {
    white := CountLit(buf, got, WHITE_THRESH, WHITE_PERCENT);
  }

  /** `sm_chunk_has_film`. */
  method ChunkHasFilm(buf: array<byte>, got: nat) returns (film: bool)
    requires got <= buf.Length
    ensures film == HasFilm(buf[..got])
  {
    film := CountLit(buf, got, FILM_THRESH, FILM_PERCENT);
  }

  // ---- end of roll --------------------------------------------------------------------

  /** Chunk `f` is film and no later chunk is. */
  ghost predicate LastFilm(chunks: seq<seq<byte>>, f: nat) {
    f < |chunks| && Film(chunks[f]) && forall k :: f < k < |chunks| ==> !Film(chunks[k])
  }

  ghost function Whites(chunks: seq<seq<byte>>): nat {
    if chunks == [] then 0
    else Whites(chunks[..|chunks| - 1]) + if White(chunks[|chunks| - 1]) then 1 else 0
  }

  /** White chunks behind chunk `f`. */
  ghost function WhitesAfter(chunks: seq<seq<byte>>, f: nat): nat
    requires f < |chunks|
  {
    Whites(chunks[f + 1..])
  }

  /** The last chunk is the 24th white one since the last film chunk; dim chunks do not matter. */
  ghost predicate EndOfRoll(chunks: seq<seq<byte>>) {
    chunks != [] && White(chunks[|chunks| - 1]) &&
    exists f :: LastFilm(chunks, f) && WhitesAfter(chunks, f) == TRAIL_WHITE
  }

  /** No run of chunks from the start is an end of roll. */
  ghost predicate RollGoesOn(chunks: seq<seq<byte>>) {
    forall k :: 0 <= k <= |chunks| ==> !EndOfRoll(chunks[..k])
  }

  lemma RollOn(chunks: seq<seq<byte>>, c: seq<byte>)
    requires RollGoesOn(chunks) && !EndOfRoll(chunks + [c])
    ensures RollGoesOn(chunks + [c])
  {
    hide EndOfRoll;
    var more := chunks + [c];
    forall k | 0 <= k <= |more| ensures !EndOfRoll(more[..k]) {
      if k <= |chunks| {
        assert more[..k] == chunks[..k];
      } else {
        assert more[..k] == more;
      }
    }
  }

  lemma NoChunks()
    ensures RollGoesOn([])
  {
    forall k | 0 <= k <= 0 ensures !EndOfRoll([][..k]) {
      hide White, LastFilm, WhitesAfter;
    }
  }

  ghost predicate FilmSeen(chunks: seq<seq<byte>>) {
    exists f :: LastFilm(chunks, f)
  }

  lemma {:induction false} FilmSeenIff(chunks: seq<seq<byte>>)
    ensures FilmSeen(chunks) <==> exists k :: 0 <= k < |chunks| && Film(chunks[k])
  {
    if chunks != [] {
      var n := |chunks| - 1;
      if Film(chunks[n]) {
        assert LastFilm(chunks, n);
      } else {
        FilmSeenIff(chunks[..n]);
        if FilmSeen(chunks[..n]) {
          var f :| LastFilm(chunks[..n], f);
          assert LastFilm(chunks, f);
        }
      }
    }
  }

  ghost predicate Tracks(chunks: seq<seq<byte>>, filmSeen: bool, trailWhite: nat) {
    && (filmSeen <==> FilmSeen(chunks))
    && (filmSeen ==> forall f :: LastFilm(chunks, f) ==> trailWhite == WhitesAfter(chunks, f))
    && (!filmSeen ==> trailWhite == 0)
  }

  /** The two counters of the drivers, tied to the chunks fed so far. */
  class RollWatch {
    var filmSeen: bool
    var trailWhite: nat
    ghost var chunks: seq<seq<byte>>

    constructor ()
      ensures Valid() && chunks == []
    {
      filmSeen, trailWhite, chunks := false, 0, [];
    }

    ghost predicate Valid()
      reads this
    {
      && Tracks(chunks, filmSeen, trailWhite)
      && trailWhite <= TRAIL_WHITE
    }

    /** One non-empty chunk; `done` at the end of the roll. */
    method Feed(buf: array<byte>, got: nat) returns (done: bool)
      requires Valid() && trailWhite < TRAIL_WHITE && got <= buf.Length
      modifies this
      ensures Valid() && chunks == old(chunks) + [buf[..got]]
      ensures done <==> EndOfRoll(chunks)
      ensures done <==> trailWhite == TRAIL_WHITE
    {
      hide White, HasFilm, Tracks, EndOfRoll;
      ghost var chunk := buf[..got];
      var white := ChunkIsWhite(buf, got);
      done := false;
      if white {
        if filmSeen {
          trailWhite := trailWhite + 1;
          done := trailWhite >= TRAIL_WHITE;
        }
      } else {
        var film := ChunkHasFilm(buf, got);
        if film {
          filmSeen := true;
          trailWhite := 0;
        }
      }
      WatchMoves(chunks, chunk, old(filmSeen), old(trailWhite), filmSeen, trailWhite);
      chunks := chunks + [chunk];
    }
  }

  /** How one more chunk moves the last film chunk and the white count behind it. */
  lemma FeedOne(chunks: seq<seq<byte>>, c: seq<byte>)
    ensures forall f :: LastFilm(chunks + [c], f) <==> if Film(c) then f == |chunks| else LastFilm(chunks, f)
    ensures FilmSeen(chunks + [c]) <==> FilmSeen(chunks) || Film(c)
    ensures WhitesAfter(chunks + [c], |chunks|) == 0
    ensures forall f: nat :: f < |chunks| ==>
      WhitesAfter(chunks + [c], f) == WhitesAfter(chunks, f) + if White(c) then 1 else 0
  {
    hide White, Film;
    var more := chunks + [c];
    forall f: nat ensures LastFilm(more, f) <==> if Film(c) then f == |chunks| else LastFilm(chunks, f) {
      assert more[|chunks|] == c;
      assert forall k :: 0 <= k < |chunks| ==> more[k] == chunks[k];
    }
    if Film(c) {
      assert LastFilm(more, |chunks|);
    } else if FilmSeen(chunks) {
      var f :| LastFilm(chunks, f);
      assert LastFilm(more, f);
    }
    forall f: nat | f < |chunks|
      ensures WhitesAfter(more, f) == WhitesAfter(chunks, f) + if White(c) then 1 else 0
    {
      assert more[f + 1..] == chunks[f + 1..] + [c];
      assert more[f + 1..][..|more| - f - 2] == chunks[f + 1..];
    }
  }

  /** The counter update is right, and reaches 24 exactly at the end of the roll. */
  lemma WatchMoves(chunks: seq<seq<byte>>, c: seq<byte>, seen: bool, trail: nat, seen': bool, trail': nat)
    requires Tracks(chunks, seen, trail) && trail < TRAIL_WHITE
    requires seen' == (seen || Film(c))
    requires trail' == if Film(c) then 0 else if White(c) && seen then trail + 1 else trail
    ensures Tracks(chunks + [c], seen', trail')
    ensures EndOfRoll(chunks + [c]) <==> trail' == TRAIL_WHITE
  {
    hide White, WhitesAfter, HasFilm;
    FeedOne(chunks, c);
    EndOfRollIff(chunks, c);
    if seen {
      var f :| LastFilm(chunks, f);
      assert trail == WhitesAfter(chunks, f);
    }
  }

  lemma EndOfRollIff(chunks: seq<seq<byte>>, c: seq<byte>)
    ensures EndOfRoll(chunks + [c]) <==>
      White(c) && exists f :: LastFilm(chunks, f) && WhitesAfter(chunks, f) == TRAIL_WHITE - 1
  {
    hide White, WhitesAfter;
    FeedOne(chunks, c);
    var more := chunks + [c];
    assert more[|chunks|] == c;
    if White(c) && exists f :: LastFilm(chunks, f) && WhitesAfter(chunks, f) == TRAIL_WHITE - 1 {
      var f :| LastFilm(chunks, f) && WhitesAfter(chunks, f) == TRAIL_WHITE - 1;
      assert LastFilm(more, f) && WhitesAfter(more, f) == TRAIL_WHITE;
    }
    if EndOfRoll(more) {
      var f :| LastFilm(more, f) && WhitesAfter(more, f) == TRAIL_WHITE;
      assert LastFilm(chunks, f);
    }
  }

  // ---- against 24 consecutive white chunks, and the first non-white one ----------------------

  /** The last 24 chunks are all white. */
  ghost predicate EndsWhite(chunks: seq<seq<byte>>) {
    |chunks| >= TRAIL_WHITE && AllWhiteFrom(chunks, |chunks| - TRAIL_WHITE)
  }

  ghost predicate AllWhiteFrom(chunks: seq<seq<byte>>, w: nat)
    requires w <= |chunks|
  {
    forall k :: w <= k < |chunks| ==> White(chunks[k])
  }

  ghost predicate AllWhite(chunks: seq<seq<byte>>) {
    forall k :: 0 <= k < |chunks| ==> White(chunks[k])
  }

  ghost predicate NoneWhite(chunks: seq<seq<byte>>) {
    forall k :: 0 <= k < |chunks| ==> !White(chunks[k])
  }

  lemma {:induction false} WhitesConcat(s: seq<seq<byte>>, t: seq<seq<byte>>)
    ensures Whites(s + t) == Whites(s) + Whites(t)
  {
    hide White;
    if t == [] {
      assert s + t == s;
    } else {
      assert (s + t)[..|s + t| - 1] == s + t[..|t| - 1];
      WhitesConcat(s, t[..|t| - 1]);
    }
  }

  lemma OneMoreChunk(front: seq<seq<byte>>, c: seq<byte>)
    ensures Whites(front + [c]) == Whites(front) + if White(c) then 1 else 0
    ensures AllWhite(front + [c]) <==> AllWhite(front) && White(c)
    ensures NoneWhite(front + [c]) <==> NoneWhite(front) && !White(c)
  {
    hide White;
    var s := front + [c];
    assert s[..|front|] == front && s[|front|] == c;
    assert forall k :: 0 <= k < |front| ==> s[k] == front[k];
  }

  lemma {:induction false} WhitesBounds(s: seq<seq<byte>>)
    ensures Whites(s) <= |s|
    ensures Whites(s) == |s| <==> AllWhite(s)
    ensures Whites(s) == 0 <==> NoneWhite(s)
  {
    if s != [] {
      var n := |s| - 1;
      WhitesBounds(s[..n]);
      OneMoreChunk(s[..n], s[n]);
      assert s == s[..n] + [s[n]];
      hide White, Whites, AllWhite, NoneWhite;
    }
  }

  /** A dim chunk follows a white one that follows chunk `f`. */
  ghost predicate DimAfterWhite(chunks: seq<seq<byte>>, f: nat) {
    exists w, d :: f < w < d < |chunks| && White(chunks[w]) && Dim(chunks[d])
  }

  /** No chunk between `f` and `w` is white. */
  ghost predicate NoneBetween(chunks: seq<seq<byte>>, f: nat, w: nat)
    requires w <= |chunks|
  {
    forall k :: f < k < w ==> !White(chunks[k])
  }

  /** The first white chunk behind chunk `f`, or `end`. */
  lemma {:induction false} FirstWhite(chunks: seq<seq<byte>>, f: nat, end: nat) returns (w: nat)
    requires f < end <= |chunks|
    ensures f < w <= end && NoneBetween(chunks, f, w) && (w < end ==> White(chunks[w]))
  {
    hide White;
    w := end;
    if f + 1 < end {
      var v := FirstWhite(chunks, f, end - 1);
      if v < end - 1 || White(chunks[v]) {
        w := v;
      }
    }
  }

  /** The white chunks behind `f` when there is none before `w`. */
  lemma SplitAt(chunks: seq<seq<byte>>, f: nat, w: nat)
    requires f < w <= |chunks|
    ensures NoneBetween(chunks, f, w) <==> WhitesAfter(chunks, f) == Whites(chunks[w..])
    ensures WhitesAfter(chunks, f) >= Whites(chunks[w..])
    ensures Whites(chunks[w..]) <= |chunks| - w
    ensures Whites(chunks[w..]) == |chunks| - w <==> AllWhiteFrom(chunks, w)
  {
    hide White;
    var front, back := chunks[f + 1..w], chunks[w..];
    assert chunks[f + 1..] == front + back;
    WhitesConcat(front, back);
    WhitesBounds(front);
    WhitesBounds(back);
    assert forall k :: 0 <= k < |front| ==> front[k] == chunks[f + 1 + k];
    assert forall k :: f < k < w ==> chunks[k] == front[k - f - 1];
    assert forall k :: w <= k < |chunks| ==> chunks[k] == back[k - w];
  }

  /**
   At an end of roll the last 24 chunks are all white exactly if no dim chunk
   follows the first white one behind the last film chunk.
   */
  lemma EndsWhiteIff(chunks: seq<seq<byte>>, f: nat)
    requires EndOfRoll(chunks) && LastFilm(chunks, f)
    ensures EndsWhite(chunks) <==> !DimAfterWhite(chunks, f)
  {
    hide White, HasFilm, WhitesAfter, LastFilm, EndOfRoll;
    var n := |chunks|;
    OneLastFilm(chunks, f);
    var w := FirstWhite(chunks, f, n);
    SplitAt(chunks, f, w);
    if DimAfterWhite(chunks, f) {
      NotAllWhite(chunks, f, w);
    } else {
      AllWhiteBehind(chunks, f, w);
    }
    if EndsWhite(chunks) {
      FilmBefore(chunks, f);
      SplitAt(chunks, f, n - TRAIL_WHITE);
    }
  }

  /** With a dim chunk after the first white one, not all are white from there. */
  lemma NotAllWhite(chunks: seq<seq<byte>>, f: nat, w: nat)
    requires f < w <= |chunks| && NoneBetween(chunks, f, w) && DimAfterWhite(chunks, f)
    ensures !AllWhiteFrom(chunks, w)
  {
    hide White, HasFilm;
    var v, d :| f < v < d < |chunks| && White(chunks[v]) && Dim(chunks[d]);
    assert w <= v;
  }

  lemma AllWhiteBehind(chunks: seq<seq<byte>>, f: nat, w: nat)
    requires f < w <= |chunks| && LastFilm(chunks, f) && !DimAfterWhite(chunks, f) && (w < |chunks| ==> White(chunks[w]))
    ensures AllWhiteFrom(chunks, w)
  {
    hide White, HasFilm;
    forall k | w <= k < |chunks| ensures White(chunks[k]) {
      assert !Film(chunks[k]);
      assert w < k ==> !Dim(chunks[k]);
    }
  }

  lemma FilmBefore(chunks: seq<seq<byte>>, f: nat)
    requires LastFilm(chunks, f) && EndsWhite(chunks)
    ensures f < |chunks| - TRAIL_WHITE
  {
    hide White, HasFilm;
    assert Film(chunks[f]);
  }

  lemma OneLastFilm(chunks: seq<seq<byte>>, f: nat)
    requires EndOfRoll(chunks) && LastFilm(chunks, f)
    ensures f < |chunks| && WhitesAfter(chunks, f) == TRAIL_WHITE
  {
    hide White, HasFilm, WhitesAfter;
    var g :| LastFilm(chunks, g) && WhitesAfter(chunks, g) == TRAIL_WHITE;
    assert f == g;
  }

  const FILM_CHUNK: seq<byte> := [0x00, 0x40]
  const WHITE_CHUNK: seq<byte> := [0xFF, 0xFF]
  const DIM_CHUNK: seq<byte> := [0x00, 0x00]

  lemma SampleChunks()
    ensures Film(FILM_CHUNK) && White(WHITE_CHUNK) && Dim(DIM_CHUNK)
  {
  }

  /** Film, 23 white chunks, a dim one and a white one. */
  function Interrupted(): seq<seq<byte>> {
    [FILM_CHUNK] + seq(23, i => WHITE_CHUNK) + [DIM_CHUNK, WHITE_CHUNK]
  }

  /** They end the roll although the last 24 chunks are not all white. */
  lemma InterruptedEndsRoll()
    ensures EndOfRoll(Interrupted()) && !EndsWhite(Interrupted())
  {
    hide White, HasFilm;
    SampleChunks();
    var all, whites := Interrupted(), seq(23, i => WHITE_CHUNK);
    assert |all| == 26 && all[0] == FILM_CHUNK && all[24] == DIM_CHUNK && all[25] == WHITE_CHUNK;
    assert LastFilm(all, 0);
    assert all[1..] == whites + [DIM_CHUNK] + [WHITE_CHUNK];
    WhitesConcat(whites + [DIM_CHUNK], [WHITE_CHUNK]);
    WhitesConcat(whites, [DIM_CHUNK]);
    WhitesBounds(whites);
    WhitesBounds([DIM_CHUNK]);
    WhitesBounds([WHITE_CHUNK]);
    assert WhitesAfter(all, 0) == 24;
  }

  ghost predicate SomeNotWhite(chunks: seq<seq<byte>>) {
    exists k :: 0 <= k < |chunks| && !White(chunks[k])
  }

  /** The film flag means that some chunk was not white exactly if some chunk was film or none was dim. */
  lemma FlagIsNotWhiteIff(chunks: seq<seq<byte>>)
    ensures (FilmSeen(chunks) <==> SomeNotWhite(chunks)) <==>
            (exists k :: 0 <= k < |chunks| && Film(chunks[k])) || (forall k :: 0 <= k < |chunks| ==> !Dim(chunks[k]))
  {
    hide White, HasFilm;
    FilmSeenIff(chunks);
    forall k | 0 <= k < |chunks| ensures !White(chunks[k]) <==> Film(chunks[k]) || Dim(chunks[k]) {
      KindsPartition(chunks[k]);
    }
  }

  /** A single dim chunk is not white and sets no flag. */
  lemma DimSetsNoFlag()
    ensures SomeNotWhite([DIM_CHUNK]) && !FilmSeen([DIM_CHUNK])
  {
    SampleChunks();
    FilmSeenIff([DIM_CHUNK]);
    assert !White([DIM_CHUNK][0]);
  }
}
