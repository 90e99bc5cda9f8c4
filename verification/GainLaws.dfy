/**
 What the gain loop achieves on the sensor it assumes: light `x` shows as the peak
 `x * 64 / (64 - gain)`, a whole number of at most 16 bits (docs/REGISTERS.md).
 */
module GainLaws {
  import opened Arith
  import opened Bytes
  import opened CalibMath
  import opened CalibRun
  import opened CalibLaws

  // ---- an exact sensor ----------------------------------------------------------------------

  /** Were the peak exactly proportional, the step would ask for the same gain whatever gain is in force. */
  lemma ExactStepIgnoresGain(gain: int, peak: nat, x: nat)
    requires 0 <= gain <= GAIN_MAX && peak * (64 - gain) == 64 * x
    ensures GainNext(GainFactor(gain), peak) == GainNext(1.0, x)
  {
    hide GainFactor, GainNext, Nearest;
    NoGainRounds(WhiteConverged);
    if peak == 0 {
      NoLight(gain);
      NoLight(0);
    } else {
      var n := GainNext(1.0, x);
      assert (64 - gain) * peak == (64 - 0) * x;
      GainNextIff(0, x, n);
      GainNextIff(gain, peak, n);
    }
  }

  /** So on an exact sensor every round after the first has the same gain. */
  lemma ExactRunSettles(hist: seq<Round>, k: nat, x: nat, i: nat)
    requires GainHistory(hist) && k < 3 && 1 <= i < |hist|
    requires forall j :: 0 <= j < |hist| ==>
               0 <= hist[j].setting[k] <= GAIN_MAX && hist[j].meas[k] * (64 - hist[j].setting[k]) == 64 * x
    ensures hist[i].setting[k] == GainNext(1.0, x)
  {
    hide GainFactor, GainNext, AllWhite;
    assert hist[i].setting == Regained(hist[i - 1]);
    ExactStepIgnoresGain(hist[i - 1].setting[k], hist[i - 1].meas[k], x);
  }

  // ---- the sensor in whole numbers --------------------------------------------------------------

  /** The peak for light `x` at a gain. */
  function Peak(x: nat, gain: int): (p: nat)
    requires 0 <= gain <= GAIN_MAX
    ensures p <= 0xFFFF
  {
    Min(0xFFFF, Quot(64 * x, 64 - gain))
  }

  /** Channel `k` sees light `x` in every round. */
  ghost predicate Sees(hist: seq<Round>, k: nat, x: nat)
    requires RoundsOk(hist) && k < 3
  {
    forall i :: 0 <= i < |hist| ==> 0 <= hist[i].setting[k] <= GAIN_MAX && hist[i].meas[k] == Peak(x, hist[i].setting[k])
  }

  /** The gain after a round at gain `g`. */
  function NextGain(x: nat, g: int): (n: int)
    requires 0 <= g <= GAIN_MAX
    ensures 0 <= n <= GAIN_MAX
  {
    GainNext(GainFactor(g), Peak(x, g))
  }

  /** What decides the next gain: the peak times `64 - gain`, which is nearly `64 * x`. */
  function Product(x: nat, g: int): nat
    requires 0 <= g <= GAIN_MAX
  {
    (64 - g) * Peak(x, g)
  }

  lemma NextGainIff(x: nat, g: int, n: int)
    requires 0 <= g <= GAIN_MAX && 0 <= n <= GAIN_MAX && Peak(x, g) > 0
    ensures NextGain(x, g) == n <==> Nearest(n, Product(x, g))
  {
    hide GainFactor, GainNext, Nearest;
    GainNextIff(g, Peak(x, g), n);
  }

  /** Without overflow the product falls short of `64 * x` by less than `64 - g`. */
  lemma ProductNear(x: nat, g: int)
    requires 0 <= g <= GAIN_MAX && Peak(x, g) < 0xFFFF
    ensures 64 * x - (63 - g) <= Product(x, g) <= 64 * x
    ensures Peak(x, g) > 0 <==> x > 0
  {
    var q := Quot(64 * x, 64 - g);
    assert q * (64 - g) <= 64 * x < q * (64 - g) + (64 - g);
    assert Product(x, g) == q * (64 - g);
  }

  // ---- when the loop converges ---------------------------------------------------------------------

  /** Light for which the loop reaches the target. */
  predicate Reachable(x: nat) {
    1000 <= x <= 1024 || x >= 63000
  }

  /** A peak of at least 64000 needs at least this light. */
  lemma BrightPeak(x: nat, g: int)
    requires 0 <= g <= GAIN_MAX
    ensures Peak(x, g) >= 64000 <==> x >= 1000 * (64 - g)
  {
    var w := 64 - g;
    var q := Quot(64 * x, w);
    if q >= 64000 {
      MulLe(64000, q, w);
    }
    if x >= 1000 * w {
      QuotAtLeast(64 * x, 64000, w);
    }
  }

  lemma Parabola(g: int)
    requires 2 <= g <= 62
    ensures (2 * g - 1) * (64 - g) >= 186
  {
    assert (2 * g - 1) * (64 - g) - 186 == (125 - 2 * g) * (g - 2);
  }

  lemma MiddleGainTooLarge(x: nat, d: nat, g: int)
    requires 2 <= g <= 62 && x >= 1000 * (64 - g) && d >= 64 * x - 63
    ensures (2 * g - 1) * d > 2 * WANTED
  {
    Parabola(g);
    var m := 2 * g - 1;
    MulLe(64000 * (64 - g) - 63, d, m);
    assert m * (64000 * (64 - g) - 63) == 64000 * (m * (64 - g)) - 63 * m;
  }

  lemma NearestAtMost(n: int, d: nat)
    requires Nearest(n, d)
    ensures (2 * n - 1) * d <= 2 * WANTED
  {
  }

  /** A gain chosen below the target that then gives a bright peak is 0, 1 or 63. */
  lemma ChosenGain(x: nat, from: int, g: int)
    requires 0 <= from <= GAIN_MAX && Peak(x, from) < 64000 && g == NextGain(x, from) && x >= 1000 * (64 - g)
    ensures Reachable(x)
  {
    hide Nearest, Peak, Product, NextGain;
    ProductNear(x, from);
    NextGainIff(x, from, g);
    var d := Product(x, from);
    NearestAtMost(g, d);
    if 2 <= g <= 62 {
      MiddleGainTooLarge(x, d, g);
      assert false;
    }
  }

  /** If some round is bright enough, the light is one of those. */
  lemma {:induction false} BrightIsReachable(hist: seq<Round>, k: nat, x: nat, i: nat)
    requires GainHistory(hist) && k < 3 && Sees(hist, k, x) && i < |hist| && hist[i].meas[k] >= 64000
    ensures Reachable(x)
  {
    hide GainFactor, GainNext, AllWhite, Peak;
    var g := hist[i].setting[k];
    BrightPeak(x, g);
    if i > 0 {
      if hist[i - 1].meas[k] >= 64000 {
        BrightIsReachable(hist, k, x, i - 1);
      } else {
        SettingAt(hist, k, x, i);
        ChosenGain(x, hist[i - 1].setting[k], g);
      }
    }
  }

  lemma SettingAt(hist: seq<Round>, k: nat, x: nat, i: nat)
    requires GainHistory(hist) && k < 3 && Sees(hist, k, x) && 0 < i < |hist|
    ensures hist[i].setting[k] == NextGain(x, hist[i - 1].setting[k])
  {
    hide GainFactor, GainNext, AllWhite, Peak;
    assert hist[i].setting == Regained(hist[i - 1]);
  }

  /** For such light one of the first two rounds is bright enough. */
  lemma ReachableIsBright(x: nat)
    requires Reachable(x)
    ensures Peak(x, 0) >= 64000 || Peak(x, NextGain(x, 0)) >= 64000
  {
    hide NextGain;
    BrightPeak(x, 0);
    BrightPeak(x, NextGain(x, 0));
    if x < 64000 {
      assert Quot(64 * x, 64) == x;
      NextGainIff(x, 0, 63);
      NextGainIff(x, 0, 1);
    }
  }

  /** A channel reaches the target in some round exactly for light of 1000..1024 or at least 63000. */
  lemma ChannelConvergesIff(hist: seq<Round>, gain: seq<int>, white: seq<nat>, converged: bool, k: nat, x: nat)
    requires GainOutcome(hist, gain, white, converged) && k < 3 && Sees(hist, k, x)
    ensures SomeWithin(hist, k, 64000, 0xFFFF) <==> 1000 <= x <= 1024 || x >= 63000
  {
    hide GainFactor, GainNext, SomeRound, Peak, NextGain, AllWhite;
    if SomeWithin(hist, k, 64000, 0xFFFF) {
      var i :| 0 <= i < |hist| && 64000 <= hist[i].meas[k] <= 0xFFFF;
      BrightIsReachable(hist, k, x, i);
    }
    if Reachable(x) {
      ReachableIsBright(x);
      assert hist[0].setting[k] == 0;
      if |hist| == 1 {
        WhiteAt(hist[0], k);
        assert 64000 <= hist[0].meas[k] <= 0xFFFF;
      } else {
        SettingAt(hist, k, x, 1);
        assert hist[0].meas[k] >= 64000 || hist[1].meas[k] >= 64000;
      }
    }
  }

  lemma WhiteAt(r: Round, k: nat)
    requires RoundOk(r) && AllWhite(r) && k < 3
    ensures r.meas[k] >= 64000
  {
  }

  /** The reported flag on three such channels. */
  lemma ConvergesIff(hist: seq<Round>, gain: seq<int>, white: seq<nat>, converged: bool, x: seq<nat>)
    requires GainOutcome(hist, gain, white, converged)
    requires |x| == 3 && forall k :: 0 <= k < 3 ==> Sees(hist, k, x[k])
    ensures converged <==> forall k :: 0 <= k < 3 ==> 1000 <= x[k] <= 1024 || x[k] >= 63000
  {
    hide Sees, SomeWithin, SomeRound, AllWhite, Regained;
    WhiteFlag(hist, gain, white, converged);
    forall k | 0 <= k < 3 ensures SomeWithin(hist, k, 64000, 0xFFFF) <==> 1000 <= x[k] <= 1024 || x[k] >= 63000 {
      ChannelConvergesIff(hist, gain, white, converged, k, x[k]);
    }
  }

  // ---- when the gain settles ------------------------------------------------------------------------

  /** Light for which the rounding of the peak moves the gain once more after round 1. */
  const SLIPPING := {1293, 2032, 2246, 2510, 2977, 3122, 3460, 4414, 4741, 6737, 7530, 18286}

  /** The least light, if any, at which gain `g` could be followed by the next higher one. */
  function Edge(g: nat): nat {
    128000 / (2 * g + 1) + 1
  }

  /** The peak at that light falls short by enough. */
  predicate Slips(g: nat)
    requires g <= GAIN_MAX
  {
    (2 * g + 1) * Product(Edge(g), g) <= 2 * WANTED
  }

  predicate SlippingGain(g: nat) {
    g in {3, 8, 9, 13, 14, 18, 20, 21, 25, 28, 31, 49}
  }

  lemma EdgeAt(g: nat, e: nat, q: nat)
    requires 1 <= g <= 62 && q < 0xFFFF
    requires (e - 1) * (2 * g + 1) <= 128000 < e * (2 * g + 1)
    requires q * (64 - g) <= 64 * e < (q + 1) * (64 - g)
    ensures Edge(g) == e && Peak(e, g) == q
    ensures Slips(g) <==> (2 * g + 1) * ((64 - g) * q) <= 2 * WANTED
  {
    DivModUnique(128000, 2 * g + 1, e - 1, 128000 - (e - 1) * (2 * g + 1));
    DivModUnique(64 * e, 64 - g, q, 64 * e - q * (64 - g));
  }

  lemma Slips1To12(g: nat)
    requires 1 <= g <= 12
    ensures Slips(g) <==> SlippingGain(g)
  {
    hide Slips, Edge, Peak, Product;
    EdgeAt(1, 42667, 43344); EdgeAt(2, 25601, 26426); EdgeAt(3, 18286, 19185); EdgeAt(4, 14223, 15171);
    EdgeAt(5, 11637, 12623); EdgeAt(6, 9847, 10865); EdgeAt(7, 8534, 9582); EdgeAt(8, 7530, 8605);
    EdgeAt(9, 6737, 7839); EdgeAt(10, 6096, 7224); EdgeAt(11, 5566, 6721); EdgeAt(12, 5121, 6302);
  }

  lemma Slips13To25(g: nat)
    requires 13 <= g <= 25
    ensures Slips(g) <==> SlippingGain(g)
  {
    hide Slips, Edge, Peak, Product;
    EdgeAt(13, 4741, 5949); EdgeAt(14, 4414, 5649); EdgeAt(15, 4130, 5394); EdgeAt(16, 3879, 5172);
    EdgeAt(17, 3658, 4981); EdgeAt(18, 3460, 4813); EdgeAt(19, 3283, 4669); EdgeAt(20, 3122, 4541);
    EdgeAt(21, 2977, 4430); EdgeAt(22, 2845, 4335); EdgeAt(23, 2724, 4252); EdgeAt(24, 2613, 4180);
    EdgeAt(25, 2510, 4118);
  }

  lemma Slips26To38(g: nat)
    requires 26 <= g <= 38
    ensures Slips(g) <==> SlippingGain(g)
  {
    hide Slips, Edge, Peak, Product;
    EdgeAt(26, 2416, 4069); EdgeAt(27, 2328, 4026); EdgeAt(28, 2246, 3992); EdgeAt(29, 2170, 3968);
    EdgeAt(30, 2099, 3951); EdgeAt(31, 2032, 3940); EdgeAt(32, 1970, 3940); EdgeAt(33, 1911, 3945);
    EdgeAt(34, 1856, 3959); EdgeAt(35, 1803, 3979); EdgeAt(36, 1754, 4009); EdgeAt(37, 1707, 4046);
    EdgeAt(38, 1663, 4093);
  }

  lemma Slips39To51(g: nat)
    requires 39 <= g <= 51
    ensures Slips(g) <==> SlippingGain(g)
  {
    hide Slips, Edge, Peak, Product;
    EdgeAt(39, 1621, 4149); EdgeAt(40, 1581, 4216); EdgeAt(41, 1543, 4293); EdgeAt(42, 1506, 4381);
    EdgeAt(43, 1472, 4486); EdgeAt(44, 1439, 4604); EdgeAt(45, 1407, 4739); EdgeAt(46, 1377, 4896);
    EdgeAt(47, 1348, 5074); EdgeAt(48, 1320, 5280); EdgeAt(49, 1293, 5516); EdgeAt(50, 1268, 5796);
    EdgeAt(51, 1243, 6119);
  }

  lemma Slips52To62(g: nat)
    requires 52 <= g <= 62
    ensures Slips(g) <==> SlippingGain(g)
  {
    hide Slips, Edge, Peak, Product;
    EdgeAt(52, 1220, 6506); EdgeAt(53, 1197, 6964); EdgeAt(54, 1175, 7520); EdgeAt(55, 1154, 8206);
    EdgeAt(56, 1133, 9064); EdgeAt(57, 1114, 10185); EdgeAt(58, 1095, 11680); EdgeAt(59, 1076, 13772);
    EdgeAt(60, 1058, 16928); EdgeAt(61, 1041, 22208); EdgeAt(62, 1025, 32800);
  }

  /** The gains with an edge that slips. */
  lemma SlipsIff(g: nat)
    requires 1 <= g <= 62
    ensures Slips(g) <==> SlippingGain(g)
  {
    hide Slips, SlippingGain;
    if g <= 12 {
      Slips1To12(g);
    } else if g <= 25 {
      Slips13To25(g);
    } else if g <= 38 {
      Slips26To38(g);
    } else if g <= 51 {
      Slips39To51(g);
    } else {
      Slips52To62(g);
    }
  }

  /** Light `x` first asks for gain `g`. */
  predicate AsksFor(x: nat, g: int) {
    (2 * g - 1) * x <= 128000 < (2 * g + 1) * x
  }

  lemma ListedLight(x: nat, g: nat)
    requires x in SLIPPING && AsksFor(x, g)
    ensures SlippingGain(g) && x == Edge(g)
  {
    if {
      case x == 1293 => assert g == 49;
      case x == 2032 => assert g == 31;
      case x == 2246 => assert g == 28;
      case x == 2510 => assert g == 25;
      case x == 2977 => assert g == 21;
      case x == 3122 => assert g == 20;
      case x == 3460 => assert g == 18;
      case x == 4414 => assert g == 14;
      case x == 4741 => assert g == 13;
      case x == 6737 => assert g == 9;
      case x == 7530 => assert g == 8;
      case x == 18286 => assert g == 3;
    }
  }

  lemma ListedGain(g: nat)
    requires SlippingGain(g)
    ensures Edge(g) in SLIPPING
  {
  }

  /** Light that asks for `g` is listed exactly if it is the edge of a listed gain. */
  lemma EdgesListed(x: nat, g: nat)
    requires 1 <= g <= 62 && AsksFor(x, g)
    ensures x >= Edge(g)
    ensures x in SLIPPING <==> x == Edge(g) && SlippingGain(g)
  {
    hide SlippingGain;
    var a, e := 2 * g + 1, Edge(g);
    assert (e - 1) * a <= 128000;
    if x < e {
      MulLe(x, e - 1, a);
    }
    if x in SLIPPING {
      ListedLight(x, g);
    }
    if SlippingGain(g) {
      ListedGain(g);
    }
  }

  /** The gain that light `x` first asks for. */
  lemma FirstGain(x: uint16, g: int)
    requires x > 0 && g == NextGain(x, 0)
    ensures 1 <= g && Peak(x, g) > 0 && (2 * g - 1) * x <= 128000 && (g < GAIN_MAX ==> AsksFor(x, g))
  {
    hide NextGain;
    assert Quot(64 * x, 64) == x;
    NextGainIff(x, 0, g);
    assert (2 * g - 1) * (64 * x) == 64 * ((2 * g - 1) * x);
    assert (2 * g + 1) * (64 * x) == 64 * ((2 * g + 1) * x);
    QuotAtLeast(64 * x, 1, 64 - g);
  }

  /** At overflow the gain stays. */
  lemma OverflowSettles(x: uint16, g: int)
    requires 1 <= g <= GAIN_MAX && (2 * g - 1) * x <= 128000 && Peak(x, g) == 0xFFFF
    ensures (g == 1 && x > 60000) || (g == 63 && x <= 1024)
    ensures NextGain(x, g) == g
  {
    hide NextGain;
    var w := 64 - g;
    MulLe(0xFFFF, Quot(64 * x, w), w);
    assert 64 * x >= 0xFFFF * w;
    if 2 <= g <= 62 {
      MiddleGainDark(x, g);
      assert false;
    }
    NextGainIff(x, g, g);
  }

  lemma MiddleGainDark(x: nat, g: int)
    requires 2 <= g <= 62 && x >= 1000 * (64 - g)
    ensures (2 * g - 1) * x > 128000
  {
    Parabola(g);
    MulLe(1000 * (64 - g), x, 2 * g - 1);
    assert (2 * g - 1) * (1000 * (64 - g)) == 1000 * ((2 * g - 1) * (64 - g));
  }

  lemma NotLess(x: nat, g: nat, d: nat)
    requires 1 <= g && (2 * g - 1) * x <= 128000 && d <= 64 * x
    ensures (2 * g - 1) * d <= 2 * WANTED
  {
    var m := 2 * g - 1;
    MulLe(d, 64 * x, m);
    assert 64 * x * m == 64 * (m * x);
  }

  lemma NotTwoMore(x: nat, g: nat, d: nat)
    requires g <= 62 && 128000 < (2 * g + 1) * x && 64 * x - 63 <= d
    ensures (2 * g + 3) * d > 2 * WANTED
  {
    var m := 2 * g + 1;
    MulLe(m, 125, x);
    MulLe(64 * x - 63, d, m + 2);
    assert (64 * x - 63) * (m + 2) == 64 * (m * x) + 128 * x - 63 * m - 126;
  }

  /** Without overflow the next gain is the same or one more, which depends on this product. */
  lemma SameOrNext(x: uint16, g: int)
    requires 1 <= g <= 62 && AsksFor(x, g) && 0 < Peak(x, g) < 0xFFFF
    ensures NextGain(x, g) == if (2 * g + 1) * Product(x, g) <= 2 * WANTED then g + 1 else g
  {
    hide NextGain, Product, Peak;
    ProductNear(x, g);
    NotLess(x, g, Product(x, g));
    NotTwoMore(x, g, Product(x, g));
    NextGainIff(x, g, g);
    NextGainIff(x, g, g + 1);
  }

  /** Above the edge of its gain light does not slip. */
  lemma AboveEdgeStays(x: nat, g: nat)
    requires 1 <= g <= 62 && x > Edge(g) && Peak(x, g) < 0xFFFF
    ensures (2 * g + 1) * Product(x, g) > 2 * WANTED
  {
    hide Product, Peak;
    ProductNear(x, g);
    var a, e := 2 * g + 1, Edge(g);
    assert 128000 < e * a;
    MulLe(64 * e, Product(x, g), a);
    assert a * (64 * e) == 64 * (e * a);
  }

  /** After the first gain for the light the next one is the same, except for the listed light. */
  lemma SecondGainIff(x: uint16)
    ensures NextGain(x, NextGain(x, 0)) == if x in SLIPPING then NextGain(x, 0) + 1 else NextGain(x, 0)
  {
    hide NextGain, Peak, SlippingGain, AsksFor;
    var g := NextGain(x, 0);
    if x == 0 {
      NoLightStays(g);
    } else {
      FirstGain(x, g);
      if g == GAIN_MAX {
        LastGainStays(x);
      } else {
        EdgesListed(x, g);
        SlipsIff(g);
        if Peak(x, g) == 0xFFFF {
          OverflowSettles(x, g);
        } else {
          SameOrNext(x, g);
          if x > Edge(g) {
            AboveEdgeStays(x, g);
          }
        }
      }
    }
  }

  lemma NoLightStays(g: int)
    requires g == NextGain(0, 0)
    ensures NextGain(0, g) == g
  {
    hide GainFactor;
    NoLight(0);
    NoLight(g);
  }

  lemma LastGainStays(x: uint16)
    requires x > 0 && 125 * x <= 128000
    ensures NextGain(x, 63) == 63
  {
    hide NextGain;
    NextGainIff(x, 63, 63);
  }

  /** The settings of a channel from round 1 on. */
  ghost predicate Settled(hist: seq<Round>, k: nat)
    requires RoundsOk(hist) && k < 3
  {
    forall i :: 1 <= i < |hist| ==> hist[i].setting[k] == hist[1].setting[k]
  }

  /**
   From round 1 on a channel keeps its gain, except for twelve values of the light,
   for which round 2 raises it by one.
   */
  lemma GainSettlesIff(hist: seq<Round>, k: nat, x: uint16)
    requires GainHistory(hist) && k < 3 && Sees(hist, k, x)
    ensures Settled(hist, k) <==> x !in SLIPPING || |hist| < 3
    ensures |hist| >= 3 && x in SLIPPING ==> hist[2].setting[k] == hist[1].setting[k] + 1
  {
    hide NextGain, Peak, AllWhite, Regained;
    if |hist| >= 3 {
      assert hist[0].setting[k] == 0;
      SettingAt(hist, k, x, 1);
      SettingAt(hist, k, x, 2);
      SecondGainIff(x);
      if |hist| == 4 && x !in SLIPPING {
        SettingAt(hist, k, x, 3);
      }
    }
  }

  /** A round of three channels that see light `x`. */
  function Seen(x: nat, g: int): Round
    requires 0 <= g <= GAIN_MAX
  {
    Round([g, g, g], [Peak(x, g), Peak(x, g), Peak(x, g)])
  }

  lemma SeenNext(x: nat, g: int)
    requires 0 <= g <= GAIN_MAX && Peak(x, g) < 64000
    ensures RoundOk(Seen(x, g)) && !AllWhite(Seen(x, g)) && !WhiteConverged(Peak(x, g))
    ensures Regained(Seen(x, g)) == Seen(x, NextGain(x, g)).setting
  {
    hide GainNext, GainFactor;
  }

  /** Four rounds that never reach the target, at gains 0, `a`, `b` and `c`. */
  lemma SeenRun(x: nat, a: int, b: int, c: int) returns (hist: seq<Round>)
    requires a == NextGain(x, 0) && b == NextGain(x, a) && c == NextGain(x, b)
    requires Peak(x, 0) < 64000 && Peak(x, a) < 64000 && Peak(x, b) < 64000 && Peak(x, c) < 64000
    ensures hist == [Seen(x, 0), Seen(x, a), Seen(x, b), Seen(x, c)]
    ensures GainOutcome(hist, [c, c, c], [Peak(x, c), Peak(x, c), Peak(x, c)], false)
  {
    hide NextGain, Peak, AllWhite, Regained, WhiteConverged;
    SeenNext(x, 0);
    SeenNext(x, a);
    SeenNext(x, b);
    SeenNext(x, c);
    hist := [Seen(x, 0), Seen(x, a), Seen(x, b), Seen(x, c)];
    assert !SomeRound(hist, 0, WhiteConverged);
  }

  /** Light 32000 is programmed gain 2 in every round, which gives 33032: half the target. */
  lemma NeverReached() returns (hist: seq<Round>)
    ensures GainOutcome(hist, [2, 2, 2], [33032, 33032, 33032], false)
    ensures forall k :: 0 <= k < 3 ==> Sees(hist, k, 32000)
  {
    hide NextGain;
    assert Peak(32000, 0) == 32000 && Peak(32000, 2) == 33032;
    NextGainIff(32000, 0, 2);
    NextGainIff(32000, 2, 2);
    hist := SeenRun(32000, 2, 2, 2);
  }

  /** Light 2032 swings between the gains 31 and 32. */
  lemma NeverSettled() returns (hist: seq<Round>)
    ensures GainOutcome(hist, [31, 31, 31], [3940, 3940, 3940], false)
    ensures forall k :: 0 <= k < 3 ==> Sees(hist, k, 2032)
    ensures hist[1].setting == [31, 31, 31] && hist[2].setting == [32, 32, 32]
  {
    hide NextGain;
    assert Peak(2032, 0) == 2032 && Peak(2032, 31) == 3940 && Peak(2032, 32) == 4064;
    NextGainIff(2032, 0, 31);
    NextGainIff(2032, 31, 32);
    NextGainIff(2032, 32, 31);
    hist := SeenRun(2032, 31, 32, 31);
  }
}
