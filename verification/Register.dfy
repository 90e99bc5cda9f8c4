/**
 Co-registration of the three sensor lines (tools/pakon_image.py, validated_leads
 and register_zones).  Slices follow Python: bounds below zero count from the end
 and every bound is clamped.  Where numpy raises an error the result is None.
 */
module Register {
  import opened Bytes
  import Leads
  import LeadBands

  type Row = seq<uint16>
  type Plane = seq<Row>
  type Pixel = Triple<uint16>
  type Image = seq<seq<Pixel>>

  datatype Channel = R | G | B

  datatype Triple<+T> = Triple(r: T, g: T, b: T) {
    function At(c: Channel): T {
      match c
      case R => r
      case G => g
      case B => b
    }
  }

  /** Columns `c0` up to `c1`. */
  datatype Zone = Zone(c0: int, c1: int)

  // ---- leads -------------------------------------------------------------------------------

  const TRILINEAR_LEADS := Triple(0, -8, -16)

  /** Measured leads are kept if plausible; otherwise the sensor's constants are used. */
  function ValidatedLeads(g: int, b: int): (Triple<int>, bool) {
    if -13 <= g <= -3 && -22 <= b <= -9 then (Triple(0, g, b), true) else (TRILINEAR_LEADS, false)
  }

  function Largest(t: Triple<int>): int {
    Max(t.r, Max(t.g, t.b))
  }

  function Least(t: Triple<int>): int {
    Min(t.r, Min(t.g, t.b))
  }

  /** Largest lead of any channel of any zone. */
  function MaxLead(leads: seq<Triple<int>>): (m: int)
    requires leads != []
    ensures forall i, c: Channel :: 0 <= i < |leads| ==> leads[i].At(c) <= m
    ensures exists i, c: Channel :: 0 <= i < |leads| && leads[i].At(c) == m
  {
    var n := |leads| - 1;
    var last := Largest(leads[n]);
    assert Attained(leads, n, last);
    if n == 0 then last
    else
      var m := MaxLead(leads[..n]);
      assert exists i, c: Channel :: 0 <= i < n && leads[..n][i].At(c) == m && leads[i].At(c) == m;
      Max(m, last)
  }

  /** Least lead of any channel of any zone. */
  function MinLead(leads: seq<Triple<int>>): (m: int)
    requires leads != []
    ensures forall i, c: Channel :: 0 <= i < |leads| ==> m <= leads[i].At(c)
    ensures exists i, c: Channel :: 0 <= i < |leads| && leads[i].At(c) == m
  {
    var n := |leads| - 1;
    var last := Least(leads[n]);
    assert Attained(leads, n, last);
    if n == 0 then last
    else
      var m := MinLead(leads[..n]);
      assert exists i, c: Channel :: 0 <= i < n && leads[..n][i].At(c) == m && leads[i].At(c) == m;
      Min(m, last)
  }

  ghost predicate Attained(leads: seq<Triple<int>>, i: nat, m: int)
    requires i < |leads|
  {
    leads[i].At(R) == m || leads[i].At(G) == m || leads[i].At(B) == m
  }

  /** Rows of the registered picture; negative if the planes are too short. */
  function Height(n: nat, leads: seq<Triple<int>>): int
    requires leads != []
  {
    n - (MaxLead(leads) - MinLead(leads))
  }

  /** `n` rows recorded with lead `lead` include scene line `s`. */
  predicate Recorded(n: nat, lead: int, s: int) {
    0 <= s - lead < n
  }

  /** Every channel of every zone has recorded scene line `s`. */
  ghost predicate InAll(n: nat, leads: seq<Triple<int>>, s: int) {
    forall i, c: Channel :: 0 <= i < |leads| ==> Recorded(n, leads[i].At(c), s)
  }

  /** The registered rows are exactly the scene lines that every channel has recorded. */
  lemma CommonWindow(n: nat, leads: seq<Triple<int>>, s: int)
    requires leads != []
    ensures InAll(n, leads, s) <==> MaxLead(leads) <= s < MaxLead(leads) + Height(n, leads)
  {
    var i, c: Channel :| 0 <= i < |leads| && leads[i].At(c) == MaxLead(leads);
    var j, d: Channel :| 0 <= j < |leads| && leads[j].At(d) == MinLead(leads);
    if InAll(n, leads, s) {
      assert Recorded(n, leads[i].At(c), s) && Recorded(n, leads[j].At(d), s);
    }
  }

  predicate Plausible(t: Triple<int>) {
    t.r == 0 && -13 <= t.g <= -3 && -22 <= t.b <= -9
  }

  lemma ValidatedArePlausible(g: int, b: int)
    ensures Plausible(ValidatedLeads(g, b).0)
    ensures ValidatedLeads(g, b).1 <==> Plausible(Triple(0, g, b))
    ensures ValidatedLeads(g, b).0 == Triple(0, g, b) <==> Plausible(Triple(0, g, b))
  {
  }

  /** Plausible leads cost at most 22 rows. */
  lemma PlausibleHeight(n: nat, leads: seq<Triple<int>>)
    requires leads != [] && forall i :: 0 <= i < |leads| ==> Plausible(leads[i])
    ensures MaxLead(leads) == 0
    ensures n - 22 <= Height(n, leads) <= n - 9
    ensures (exists i :: 0 <= i < |leads| && leads[i].b == -22) ==> Height(n, leads) == n - 22
  {
    assert leads[0].At(R) == 0 && leads[0].At(B) <= -9;
    var j, d: Channel :| 0 <= j < |leads| && leads[j].At(d) == MinLead(leads);
    assert leads[j].At(d) >= -22;
    var i, c: Channel :| 0 <= i < |leads| && leads[i].At(c) == MaxLead(leads);
    if k :| 0 <= k < |leads| && leads[k].b == -22 {
      assert leads[k].At(B) == -22;
    }
  }

  // ---- slices ---------------------------------------------------------------------------------

  /** A Python slice bound for a sequence of `n` elements. */
  function Clip(i: int, n: nat): (r: nat)
    ensures r <= n
    ensures 0 <= i <= n ==> r == i
  {
    if i < 0 then Max(0, i + n) else Min(i, n)
  }

  function Slice<T>(s: seq<T>, start: int, stop: int): (r: seq<T>)
    ensures 0 <= start <= stop <= |s| ==> r == s[start..stop]
    ensures |r| == SliceLength(|s|, start, stop)
  {
    var a, b := Clip(start, |s|), Clip(stop, |s|);
    if a <= b then s[a..b] else []
  }

  /** Negative bounds count from the end, as in Python, and bounds beyond an end mean that end. */
  lemma SliceFromEnd<T>(s: seq<T>, start: int, stop: int)
    requires start < 0 && stop < 0
    ensures Slice(s, start, stop) ==
            if -|s| <= start <= stop then s[|s| + start..|s| + stop]
            else if start < -|s| <= stop then s[..|s| + stop]
            else []
    ensures Slice(s, 0, |s| + 1) == s && Slice(s, start, |s|) == if -|s| <= start then s[|s| + start..] else s
  {
  }

  function SliceLength(n: nat, start: int, stop: int): nat {
    Max(0, Clip(stop, n) - Clip(start, n))
  }

  // ---- register_zones ---------------------------------------------------------------------------

  predicate Rectangular(p: Plane, n: nat, width: nat) {
    |p| == n && forall y :: 0 <= y < n ==> |p[y]| == width
  }

  /** Three planes of one shape. */
  predicate Shape(chans: Triple<Plane>, n: nat, width: nat) {
    Rectangular(chans.r, n, width) && Rectangular(chans.g, n, width) && Rectangular(chans.b, n, width)
  }

  const STRAIGHT := Triple(R, G, B)

  /** The permutation of zone `i`; None outside the list is an index error. */
  function PermFor(perms: seq<Option<Triple<Channel>>>, i: nat): Option<Triple<Channel>> {
    if perms == [] then Some(STRAIGHT)
    else if i >= |perms| then None
    else if perms[i].None? then Some(STRAIGHT)
    else perms[i]
  }

  function Source(chans: Triple<Plane>, perm: Triple<Channel>): Triple<Plane> {
    Triple(chans.At(perm.r), chans.At(perm.g), chans.At(perm.b))
  }

  /** `plane[start:stop, c0:c1]`. */
  function Crop(plane: Plane, start: int, stop: int, zone: Zone): (p: Plane)
    ensures |p| == SliceLength(|plane|, start, stop)
  {
    var rows := Slice(plane, start, stop);
    seq(|rows|, y requires 0 <= y < |rows| => Slice(rows[y], zone.c0, zone.c1))
  }

  predicate SameRows(t: Triple<Plane>) {
    |t.r| == |t.g| == |t.b| && forall y :: 0 <= y < |t.r| ==> |t.r[y]| == |t.g[y]| == |t.b[y]|
  }

  function StackRow(r: Row, g: Row, b: Row): (p: seq<Pixel>)
    requires |r| == |g| == |b|
    ensures |p| == |r|
  {
    seq(|r|, x requires 0 <= x < |r| => Triple(r[x], g[x], b[x]))
  }

  /** `np.stack`, which refuses planes of different shapes. */
  function Stack(t: Triple<Plane>): Option<Image> {
    if SameRows(t)
    then Some(seq(|t.r|, y requires 0 <= y < |t.r| => StackRow(t.r[y], t.g[y], t.b[y])))
    else None
  }

  /** One zone of the picture. */
  function Part(chans: Triple<Plane>, zone: Zone, leads: Triple<int>, perm: Triple<Channel>, top: int, height: int)
    : Option<Image>
  {
    var src := Source(chans, perm);
    Stack(Triple(Crop(src.r, top - leads.r, top - leads.r + height, zone),
                 Crop(src.g, top - leads.g, top - leads.g + height, zone),
                 Crop(src.b, top - leads.b, top - leads.b + height, zone)))
  }

  /** `np.concatenate` along the rows of two pictures. */
  function Beside(left: Image, right: Image): Option<Image> {
    if |left| == |right|
    then Some(seq(|left|, y requires 0 <= y < |left| => left[y] + right[y]))
    else None
  }

  /** The first `k` zones, side by side. */
  function Assemble(chans: Triple<Plane>, zones: seq<Zone>, leads: seq<Triple<int>>,
                    perms: seq<Option<Triple<Channel>>>, top: int, height: int, k: nat): Option<Image>
    requires k <= |zones| && k <= |leads|
  {
    if k == 0 then None
    else
      var perm := PermFor(perms, k - 1);
      if perm.None? then None
      else
        var part := Part(chans, zones[k - 1], leads[k - 1], perm.value, top, height);
        if part.None? || k == 1 then part
        else
          var left := Assemble(chans, zones, leads, perms, top, height, k - 1);
          if left.None? then None else Beside(left.value, part.value)
  }

  /** `register_zones` without the optional tap correction. */
  function RegisterZones(chans: Triple<Plane>, zones: seq<Zone>, leads: seq<Triple<int>>,
                         perms: seq<Option<Triple<Channel>>>): Option<Image>
  {
    if leads == [] then None
    else
      Assemble(chans, zones, leads, perms, MaxLead(leads), Height(|chans.r|, leads), Min(|zones|, |leads|))
  }

  // ---- the picture shows the scene ------------------------------------------------------------

  /** Value of a scene at a line, a column and a channel. */
  type Scene = (int, nat, Channel) -> uint16

  function PixelOf(scene: Scene, s: int, x: nat): Pixel {
    Triple(scene(s, x, R), scene(s, x, G), scene(s, x, B))
  }

  /** Line `s` of the scene in the columns of a zone. */
  function ZoneLine(scene: Scene, zone: Zone, width: nat, s: int): (p: seq<Pixel>)
    ensures |p| == SliceLength(width, zone.c0, zone.c1)
  {
    var from := Clip(zone.c0, width);
    seq(SliceLength(width, zone.c0, zone.c1), x requires 0 <= x => PixelOf(scene, s, from + x))
  }

  /** Line `s` of the scene in the columns of the first `k` zones, in their order. */
  function SceneLine(scene: Scene, zones: seq<Zone>, width: nat, s: int, k: nat): seq<Pixel>
    requires k <= |zones|
  {
    if k == 0 then [] else SceneLine(scene, zones, width, s, k - 1) + ZoneLine(scene, zones[k - 1], width, s)
  }

  /** The plane holds one channel of the scene, `lead` lines early. */
  ghost predicate Shows(plane: Plane, scene: Scene, c: Channel, lead: int) {
    forall y, x :: 0 <= y < |plane| && 0 <= x < |plane[y]| ==> plane[y][x] == scene(y + lead, x, c)
  }

  /** The planes a zone reads show the scene, each with the zone's lead for its channel. */
  ghost predicate ZoneShows(chans: Triple<Plane>, perm: Triple<Channel>, leads: Triple<int>, scene: Scene) {
    forall c: Channel :: Shows(Source(chans, perm).At(c), scene, c, leads.At(c))
  }

  lemma CropShows(plane: Plane, n: nat, width: nat, zone: Zone, scene: Scene, c: Channel, lead: int, top: int, height: nat)
    requires Rectangular(plane, n, width) && Shows(plane, scene, c, lead)
    requires 0 <= top - lead && top - lead + height <= n
    ensures var p := Crop(plane, top - lead, top - lead + height, zone);
            |p| == height &&
            forall y :: 0 <= y < height ==>
              |p[y]| == SliceLength(width, zone.c0, zone.c1) &&
              forall x :: 0 <= x < |p[y]| ==> p[y][x] == scene(top + y, Clip(zone.c0, width) + x, c)
  {
    var start := top - lead;
    var p := Crop(plane, start, start + height, zone);
    var rows := Slice(plane, start, start + height);
    assert rows == plane[start..start + height];
    forall y | 0 <= y < height
      ensures |p[y]| == SliceLength(width, zone.c0, zone.c1)
      ensures forall x :: 0 <= x < |p[y]| ==> p[y][x] == scene(top + y, Clip(zone.c0, width) + x, c)
    {
      assert rows[y] == plane[start + y] && p[y] == Slice(rows[y], zone.c0, zone.c1);
      forall x | 0 <= x < |p[y]| ensures p[y][x] == scene(top + y, Clip(zone.c0, width) + x, c) {
        assert p[y][x] == plane[start + y][Clip(zone.c0, width) + x];
      }
    }
  }

  /** A registered zone shows the scene from line `top` on. */
  lemma PartShows(chans: Triple<Plane>, n: nat, width: nat, zone: Zone, leads: Triple<int>, perm: Triple<Channel>,
                  scene: Scene, top: int, height: nat)
    requires Shape(chans, n, width) && ZoneShows(chans, perm, leads, scene)
    requires forall c: Channel :: 0 <= top - leads.At(c) && top - leads.At(c) + height <= n
    ensures var p := Part(chans, zone, leads, perm, top, height);
            p.Some? && |p.value| == height &&
            forall y :: 0 <= y < height ==> p.value[y] == ZoneLine(scene, zone, width, top + y)
  {
    hide Crop, Shows;
    var src := Source(chans, perm);
    assert 0 <= top - leads.At(R) && 0 <= top - leads.At(G) && 0 <= top - leads.At(B);
    assert Shows(src.At(R), scene, R, leads.At(R)) && Shows(src.At(G), scene, G, leads.At(G));
    assert Shows(src.At(B), scene, B, leads.At(B));
    CropShows(src.r, n, width, zone, scene, R, leads.r, top, height);
    CropShows(src.g, n, width, zone, scene, G, leads.g, top, height);
    CropShows(src.b, n, width, zone, scene, B, leads.b, top, height);
    var p := Part(chans, zone, leads, perm, top, height);
    forall y | 0 <= y < height ensures p.value[y] == ZoneLine(scene, zone, width, top + y) {
      var line := ZoneLine(scene, zone, width, top + y);
      assert |p.value[y]| == |line|;
      forall x | 0 <= x < |line| ensures p.value[y][x] == line[x] {
      }
    }
  }

  /** Every zone reads planes that show the scene. */
  ghost predicate AllShow(chans: Triple<Plane>, leads: seq<Triple<int>>, perms: seq<Option<Triple<Channel>>>,
                          scene: Scene, k: nat)
    requires k <= |leads|
  {
    forall i :: 0 <= i < k ==> PermFor(perms, i).Some? && ZoneShows(chans, PermFor(perms, i).value, leads[i], scene)
  }

  lemma {:induction false} AssembleShows(chans: Triple<Plane>, n: nat, width: nat, zones: seq<Zone>,
                                         leads: seq<Triple<int>>, perms: seq<Option<Triple<Channel>>>,
                                         scene: Scene, top: int, height: nat, k: nat)
    requires Shape(chans, n, width) && 0 < k <= |zones| && k <= |leads| && AllShow(chans, leads, perms, scene, k)
    requires forall i, c: Channel :: 0 <= i < |leads| ==> 0 <= top - leads[i].At(c) && top - leads[i].At(c) + height <= n
    ensures var p := Assemble(chans, zones, leads, perms, top, height, k);
            p.Some? && |p.value| == height &&
            forall y :: 0 <= y < height ==> p.value[y] == SceneLine(scene, zones, width, top + y, k)
  {
    hide Part, ZoneLine, ZoneShows, Shape;
    var perm := PermFor(perms, k - 1).value;
    PartShows(chans, n, width, zones[k - 1], leads[k - 1], perm, scene, top, height);
    var p := Assemble(chans, zones, leads, perms, top, height, k);
    if k == 1 {
      forall y | 0 <= y < height ensures p.value[y] == SceneLine(scene, zones, width, top + y, k) {
        assert SceneLine(scene, zones, width, top + y, 0) == [];
      }
    } else {
      AssembleShows(chans, n, width, zones, leads, perms, scene, top, height, k - 1);
    }
  }

  /**
   If every channel of every zone records the scene with its lead, the result is
   the scene from line `MaxLead` on: row `y` shows the same scene line in all
   three channels of all zones.
   */
  lemma RegisteredShowsScene(chans: Triple<Plane>, n: nat, width: nat, zones: seq<Zone>, leads: seq<Triple<int>>,
                             perms: seq<Option<Triple<Channel>>>, scene: Scene)
    requires Shape(chans, n, width) && zones != [] && leads != [] && Height(n, leads) >= 0
    requires AllShow(chans, leads, perms, scene, Min(|zones|, |leads|))
    ensures var out := RegisterZones(chans, zones, leads, perms);
            out.Some? && |out.value| == Height(n, leads) &&
            forall y :: 0 <= y < |out.value| ==>
              out.value[y] == SceneLine(scene, zones, width, MaxLead(leads) + y, Min(|zones|, |leads|))
  {
    hide Assemble, AllShow, SceneLine, Shape;
    var top, height := MaxLead(leads), Height(n, leads);
    forall i, c: Channel | 0 <= i < |leads| ensures 0 <= top - leads[i].At(c) && top - leads[i].At(c) + height <= n {
    }
    PlaneRows(chans, n, width);
    AssembleShows(chans, n, width, zones, leads, perms, scene, top, height, Min(|zones|, |leads|));
  }

  function PlaneOf(chans: Triple<Plane>, c: Channel): Plane {
    match c case R => chans.r case G => chans.g case B => chans.b
  }

  /** The planes that a zone's permutation names record the scene as red, green and blue, each with its lead. */
  ghost predicate ZoneRecords(chans: Triple<Plane>, p: Triple<Channel>, leads: Triple<int>, scene: Scene) {
    (forall y, x :: 0 <= y < |PlaneOf(chans, p.r)| && 0 <= x < |PlaneOf(chans, p.r)[y]| ==>
       PlaneOf(chans, p.r)[y][x] == scene(y + leads.r, x, R)) &&
    (forall y, x :: 0 <= y < |PlaneOf(chans, p.g)| && 0 <= x < |PlaneOf(chans, p.g)[y]| ==>
       PlaneOf(chans, p.g)[y][x] == scene(y + leads.g, x, G)) &&
    (forall y, x :: 0 <= y < |PlaneOf(chans, p.b)| && 0 <= x < |PlaneOf(chans, p.b)[y]| ==>
       PlaneOf(chans, p.b)[y][x] == scene(y + leads.b, x, B))
  }

  lemma RecordsShow(chans: Triple<Plane>, p: Triple<Channel>, leads: Triple<int>, scene: Scene)
    requires ZoneRecords(chans, p, leads, scene)
    ensures ZoneShows(chans, p, leads, scene)
  {
    forall c: Channel ensures Shows(Source(chans, p).At(c), scene, c, leads.At(c)) {
      match c
      case R => assert Source(chans, p).At(R) == PlaneOf(chans, p.r);
      case G => assert Source(chans, p).At(G) == PlaneOf(chans, p.g);
      case B => assert Source(chans, p).At(B) == PlaneOf(chans, p.b);
    }
  }

  /**
   With permutations: those given, and red, green, blue for a zone without one or
   for all zones if the list is empty.
   */
  lemma PermutedZonesShowScene(chans: Triple<Plane>, n: nat, width: nat, zones: seq<Zone>, leads: seq<Triple<int>>,
                               perms: seq<Option<Triple<Channel>>>, scene: Scene)
    requires Shape(chans, n, width) && zones != [] && leads != [] && Height(n, leads) >= 0
    requires perms == [] || (|zones| <= |perms| && |leads| <= |perms|)
    requires forall i :: 0 <= i < |zones| && i < |leads| ==>
               ZoneRecords(chans, if perms == [] || perms[i].None? then Triple(R, G, B) else perms[i].value, leads[i], scene)
    ensures var out := RegisterZones(chans, zones, leads, perms);
            out.Some? && |out.value| == Height(n, leads) &&
            forall y :: 0 <= y < |out.value| ==>
              out.value[y] == SceneLine(scene, zones, width, MaxLead(leads) + y, Min(|zones|, |leads|))
  {
    hide ZoneRecords, ZoneShows, RegisterZones, SceneLine, Shape;
    var k := Min(|zones|, |leads|);
    forall i | 0 <= i < k
      ensures PermFor(perms, i).Some? && ZoneShows(chans, PermFor(perms, i).value, leads[i], scene)
    {
      RecordsShow(chans, PermFor(perms, i).value, leads[i], scene);
    }
    RegisteredShowsScene(chans, n, width, zones, leads, perms, scene);
  }

  /** A list of permutations that is too short is an error. */
  lemma {:induction false} MissingPermutation(chans: Triple<Plane>, zones: seq<Zone>, leads: seq<Triple<int>>,
                                              perms: seq<Option<Triple<Channel>>>, top: int, height: int, k: nat)
    requires k <= |zones| && k <= |leads| && 0 < |perms| < k
    ensures Assemble(chans, zones, leads, perms, top, height, k).None?
  {
    if k > |perms| + 1 {
      MissingPermutation(chans, zones, leads, perms, top, height, k - 1);
    }
  }

  lemma PlaneRows(chans: Triple<Plane>, n: nat, width: nat)
    requires Shape(chans, n, width)
    ensures |chans.r| == n
  {
  }

  // ---- planes that are too short ----------------------------------------------------------------

  /** If the first `k` zones join, each of their crops has as many rows as the picture. */
  lemma {:induction false} AssembleLengths(chans: Triple<Plane>, n: nat, width: nat, zones: seq<Zone>,
                                           leads: seq<Triple<int>>, perms: seq<Option<Triple<Channel>>>,
                                           top: int, height: int, k: nat, i: nat, c: Channel)
    requires Shape(chans, n, width) && i < k <= |zones| && k <= |leads|
    requires Assemble(chans, zones, leads, perms, top, height, k).Some?
    ensures |Assemble(chans, zones, leads, perms, top, height, k).value|
         == SliceLength(n, top - leads[i].At(c), top - leads[i].At(c) + height)
  {
    hide Part, Shape, SliceLength;
    var perm := PermFor(perms, k - 1).value;
    if i == k - 1 {
      PartLengths(chans, n, width, zones[i], leads[i], perm, top, height, c);
    } else {
      AssembleLengths(chans, n, width, zones, leads, perms, top, height, k - 1, i, c);
    }
  }

  lemma PartLengths(chans: Triple<Plane>, n: nat, width: nat, zone: Zone, leads: Triple<int>, perm: Triple<Channel>,
                    top: int, height: int, c: Channel)
    requires Shape(chans, n, width) && Part(chans, zone, leads, perm, top, height).Some?
    ensures |Part(chans, zone, leads, perm, top, height).value|
         == SliceLength(n, top - leads.At(c), top - leads.At(c) + height)
  {
    hide Crop;
    var src := Source(chans, perm);
    assert |src.At(c)| == n;
  }

  /** If no scene line is in all channels, there is no picture or one without rows. */
  lemma TooShortHasNoRows(chans: Triple<Plane>, n: nat, width: nat, zones: seq<Zone>, leads: seq<Triple<int>>,
                          perms: seq<Option<Triple<Channel>>>)
    requires Shape(chans, n, width) && 0 < |leads| <= |zones| && Height(n, leads) <= 0
    ensures var out := RegisterZones(chans, zones, leads, perms); out.None? || out.value == []
  {
    var out := RegisterZones(chans, zones, leads, perms);
    if out.Some? {
      var j, d: Channel :| 0 <= j < |leads| && leads[j].At(d) == MinLead(leads);
      hide Assemble, Shape;
      PlaneRows(chans, n, width);
      AssembleLengths(chans, n, width, zones, leads, perms, MaxLead(leads), Height(n, leads), |leads|, j, d);
    }
  }

  // ---- measured leads -------------------------------------------------------------------------------

  const RANGE := 40

  /** `g` is what the correlation search returns for a channel over the red plane. */
  ghost predicate Measures(ch: Plane, ref: Plane, g: int)
    requires Leads.SameShape(ch, ref)
  {
    Leads.FirstBest(ch, ref, Leads.Range(ch, RANGE), Leads.Range(ch, RANGE) + 1, g)
  }

  /** The true lead `t` can be found: it is in range, the band varies, no smaller shift looks the same. */
  ghost predicate Findable(ch: Plane, ref: Plane, t: int)
    requires Leads.SameShape(ch, ref)
  {
    var r := Leads.Range(ch, RANGE);
    0 < r && Leads.Within(r, t) && Leads.Norm2(Leads.BaseVec(ch, r)) > 0.0 &&
    forall dy :: 0 <= r + dy && dy < t ==> Leads.Score(ch, ref, r, dy) != Some(1.0)
  }

  /** All channels of the scene are equal. */
  ghost predicate Grey(scene: Scene) {
    forall s: int, x: nat, c: Channel :: scene(s, x, c) == scene(s, x, R)
  }

  /** On a grey scene a line of a channel is the line of the red plane that shows the same scene line. */
  lemma GreyLine(ch: Plane, ref: Plane, n: nat, width: nat, scene: Scene, c: Channel, t: int, i: nat)
    requires Rectangular(ch, n, width) && Rectangular(ref, n, width) && i < n && 0 <= i + t < n
    requires Grey(scene) && Shows(ref, scene, R, 0) && Shows(ch, scene, c, t)
    ensures ch[i] == ref[i + t]
  {
    var j := i + t;
    forall x | 0 <= x < width ensures ch[i][x] == ref[j][x] {
      assert ch[i][x] == scene(j, x, c) && ref[j][x] == scene(j + 0, x, R);
    }
  }

  lemma GreyShift(ch: Plane, ref: Plane, n: nat, width: nat, scene: Scene, c: Channel, t: int)
    requires Rectangular(ch, n, width) && Rectangular(ref, n, width) && Leads.SameShape(ch, ref)
    requires Grey(scene) && Shows(ref, scene, R, 0) && Shows(ch, scene, c, t)
    requires Leads.Within(Leads.Range(ch, RANGE), t)
    ensures Leads.ExactShift(ch, ref, Leads.Range(ch, RANGE), t)
  {
    hide Grey, Shows, Leads.SameShape;
    var r := Leads.Range(ch, RANGE);
    forall i | |ch| * 35 / 100 + r <= i < |ch| * 65 / 100 - r ensures ch[i] == ref[i + t] {
      GreyLine(ch, ref, n, width, scene, c, t, i);
    }
  }

  /** On a grey scene a findable lead is measured exactly. */
  lemma GreySceneMeasured(ch: Plane, ref: Plane, n: nat, width: nat, scene: Scene, c: Channel, t: int, g: int)
    requires Rectangular(ch, n, width) && Rectangular(ref, n, width) && Leads.SameShape(ch, ref)
    requires Grey(scene) && Shows(ref, scene, R, 0) && Shows(ch, scene, c, t)
    requires Findable(ch, ref, t) && Measures(ch, ref, g)
    ensures g == t
  {
    hide Leads.Score, Leads.BaseVec, Leads.ExactShift, Leads.SameShape, Grey, Shows, Rectangular;
    GreyShift(ch, ref, n, width, scene, c, t);
    Leads.ExactShiftMeasured(ch, ref, RANGE, t, g);
  }

  /**
   A channel whose words in the columns 0, 3, 6, ... of the base window are all equal
   measures as 0, so the constants are used.
   */
  lemma FlatBandFallsBack(ch: Plane, ref: Plane, v: nat, g: int, b: int)
    requires Leads.SameShape(ch, ref) && Measures(ch, ref, g) && LeadBands.FlatBase(ch, 40, v)
    ensures g == 0 && ValidatedLeads(g, b) == (Triple(0, -8, -16), false)
  {
    hide Leads.FirstBest, LeadBands.FlatBase;
    LeadBands.FlatMeasuresZero(ch, ref, 40, v, g);
  }

  /** So does one whose centred base window has no length. */
  lemma NoLengthFallsBack(ch: Plane, ref: Plane, g: int, b: int)
    requires Leads.SameShape(ch, ref) && Measures(ch, ref, g)
    requires Leads.Norm2(Leads.BaseVec(ch, Leads.Range(ch, RANGE))) == 0.0
    ensures g == 0 && ValidatedLeads(g, b) == (TRILINEAR_LEADS, false)
  {
    var r := Leads.Range(ch, RANGE);
    forall dy | Leads.Within(r, dy) ensures Leads.Score(ch, ref, r, dy).None? {
      Leads.FlatHasNoScore(ch, ref, r, dy);
    }
  }

  /** A blue lead of 9 lines can only be found in a plane of many rows. */
  lemma FindableNeedsRows(ch: Plane, ref: Plane, t: int)
    requires Leads.SameShape(ch, ref) && Findable(ch, ref, t) && t <= -9
    ensures |ch| >= 22
  {
    assert |Leads.Band(ch)| >= 4 * 9;
  }

  /** On a grey scene recorded with plausible, findable leads, those leads are measured and accepted. */
  lemma MeasuredLeads(chans: Triple<Plane>, n: nat, width: nat, scene: Scene, t: Triple<int>, g: int, b: int)
    requires Shape(chans, n, width) && Plausible(t)
    requires Leads.SameShape(chans.g, chans.r) && Leads.SameShape(chans.b, chans.r)
    requires Grey(scene) && ZoneShows(chans, STRAIGHT, t, scene)
    requires Findable(chans.g, chans.r, t.g) && Measures(chans.g, chans.r, g)
    requires Findable(chans.b, chans.r, t.b) && Measures(chans.b, chans.r, b)
    ensures ValidatedLeads(g, b) == (t, true)
  {
    hide Findable, Measures, Grey, Shows, Leads.SameShape;
    assert Shows(Source(chans, STRAIGHT).At(R), scene, R, t.At(R));
    assert Shows(Source(chans, STRAIGHT).At(G), scene, G, t.At(G));
    assert Shows(Source(chans, STRAIGHT).At(B), scene, B, t.At(B));
    GreySceneMeasured(chans.g, chans.r, n, width, scene, G, t.g, g);
    GreySceneMeasured(chans.b, chans.r, n, width, scene, B, t.b, b);
  }

  lemma SingleZone(chans: Triple<Plane>, n: nat, width: nat, t: Triple<int>, scene: Scene)
    requires Shape(chans, n, width) && Height(n, [t]) >= 0 && ZoneShows(chans, STRAIGHT, t, scene)
    ensures var out := RegisterZones(chans, [Zone(0, width)], [t], []);
            out.Some? && |out.value| == Height(n, [t]) &&
            forall y :: 0 <= y < |out.value| ==> out.value[y] == ZoneLine(scene, Zone(0, width), width, MaxLead([t]) + y)
  {
    hide RegisterZones, ZoneLine, Shape, ZoneShows;
    var zones := [Zone(0, width)];
    RegisteredShowsScene(chans, n, width, zones, [t], [], scene);
    forall s: int ensures SceneLine(scene, zones, width, s, 1) == ZoneLine(scene, zones[0], width, s) {
      assert SceneLine(scene, zones, width, s, 0) == [];
    }
  }

  /**
   Measuring, validating and registering a grey scene recorded with plausible,
   findable leads gives back the scene, line for line.
   */
  lemma MeasuredRegistration(chans: Triple<Plane>, n: nat, width: nat, scene: Scene, t: Triple<int>, g: int, b: int)
    requires Shape(chans, n, width) && Plausible(t)
    requires Leads.SameShape(chans.g, chans.r) && Leads.SameShape(chans.b, chans.r)
    requires Grey(scene) && ZoneShows(chans, STRAIGHT, t, scene)
    requires Findable(chans.g, chans.r, t.g) && Measures(chans.g, chans.r, g)
    requires Findable(chans.b, chans.r, t.b) && Measures(chans.b, chans.r, b)
    ensures ValidatedLeads(g, b) == (t, true)
    ensures var out := RegisterZones(chans, [Zone(0, width)], [ValidatedLeads(g, b).0], []);
            out.Some? && n - 22 <= |out.value| <= n - 9 &&
            forall y :: 0 <= y < |out.value| ==> out.value[y] == ZoneLine(scene, Zone(0, width), width, y)
  {
    hide Findable, Measures, Grey, RegisterZones, ZoneLine, ZoneShows, Leads.SameShape;
    FindableNeedsRows(chans.b, chans.r, t.b);
    MeasuredLeads(chans, n, width, scene, t, g, b);
    PlausibleHeight(n, [t]);
    SingleZone(chans, n, width, t, scene);
  }
}
