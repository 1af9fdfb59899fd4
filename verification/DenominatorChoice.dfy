/**
 When the nearest denominator is good enough: the exact condition on a configuration under which no
 drawing is refused although one of its denominators fits.
 */
module DenominatorChoice {
  import opened RealArithmetic
  import opened SheetGeometry
  import opened Wrappers

  ghost predicate Positive(cs: seq<real>) {
    cs != [] && forall d :: d in cs ==> d > 0.0
  }

  ghost predicate Distinct(cs: seq<real>) {
    forall i, j :: 0 <= i < j < |cs| ==> cs[i] != cs[j]
  }

  ghost predicate SomeFits(cs: seq<real>, derived: real, t: real)
    requires Positive(cs)
  {
    exists e :: e in cs && Fitting(e, derived, t)
  }

  /** Whenever some denominator fits a derived scale, the nearest one does. */
  ghost predicate NearestSuffices(cs: seq<real>, t: real)
    requires Positive(cs)
  {
    forall m :: m > 0.0 && SomeFits(cs, m, t) ==> Closest(cs, m) > 0.0 && Fitting(Closest(cs, m), m, t)
  }

  /**
   The denominators at `i` and `j` are neighbours between which a scale is nearer to the lower one and
   fits only the upper one. At equality that scale is the midpoint, which goes to the one listed first.
   */
  ghost predicate Gap(cs: seq<real>, t: real, i: nat, j: nat)
    requires i < |cs| && j < |cs|
  {
    && cs[i] < cs[j] && (forall e :: e in cs ==> e <= cs[i] || cs[j] <= e)
    && (1.0 + 2.0 * t) * cs[i] < cs[j]
    && ((1.0 - 2.0 * t) * cs[j] < cs[i] || ((1.0 - 2.0 * t) * cs[j] == cs[i] && i < j))
  }

  ghost predicate NoGap(cs: seq<real>, t: real) {
    forall i, j :: 0 <= i < |cs| && 0 <= j < |cs| ==> !Gap(cs, t, i, j)
  }

  /* ------------------------------------------------------------ which one is nearest */

  /** The denominator at `k` is nearest, and every earlier one is farther away. */
  ghost predicate FirstNearest(cs: seq<real>, m: real, k: nat)
    requires k < |cs|
  {
    && (forall i :: 0 <= i < |cs| ==> Abs(cs[k] - m) <= Abs(cs[i] - m))
    && (forall i :: 0 <= i < k ==> Abs(cs[k] - m) < Abs(cs[i] - m))
  }

  lemma {:induction false} ClosestIsFirst(cs: seq<real>, m: real) returns (k: nat)
    requires cs != []
    ensures k < |cs| && Closest(cs, m) == cs[k] && FirstNearest(cs, m, k)
  {
    hide Abs;
    var n := |cs| - 1;
    if n == 0 {
      k := 0;
    } else {
      k := ClosestIsFirst(cs[..n], m);
      if Abs(cs[n] - m) < Abs(cs[k] - m) {
        assert forall i :: 0 <= i < n ==> Abs(cs[k] - m) <= Abs(cs[..n][i] - m);
        k := n;
      } else {
        assert forall i :: 0 <= i < n ==> cs[..n][i] == cs[i];
      }
    }
  }

  lemma FirstNearestIsClosest(cs: seq<real>, m: real, k: nat)
    requires k < |cs| && FirstNearest(cs, m, k)
    ensures Closest(cs, m) == cs[k]
  {
    var first := ClosestIsFirst(cs, m);
    hide Abs, Closest;
  }

  /* ------------------------------------------------------------ one derived scale */

  lemma FittingBelow(d: real, m: real, t: real)
    requires d > 0.0 && t >= 0.0
    ensures m >= d ==> (Fitting(d, m, t) <==> m <= (1.0 + t) * d)
    ensures m <= d ==> m <= (1.0 + t) * d
  {
    FittingIs(d, m, t);
    MultiplyAtMost(t, 0.0, d);
    assert (1.0 + t) * d == d + t * d;
    hide Fitting;
  }

  /** If some denominator fits, the nearest one does unless the derived scale is too far above it. */
  lemma NearestFitsExactly(cs: seq<real>, m: real, t: real)
    requires 0.0 <= t < 1.0 && m > 0.0 && Positive(cs) && SomeFits(cs, m, t)
    ensures Closest(cs, m) > 0.0
    ensures Fitting(Closest(cs, m), m, t) <==> m <= (1.0 + t) * Closest(cs, m)
  {
    hide Closest, Fitting, Abs;
    var e :| e in cs && Fitting(e, m, t);
    MissedFromBelow(cs, m, t, e);
    FittingBelow(Closest(cs, m), m, t);
  }

  /* ------------------------------------------------------------ a miss comes from a gap */

  ghost function Between(cs: seq<real>, d: real, e: real): set<real> {
    set x | x in cs && d < x < e
  }

  /** The next larger denominator. */
  lemma {:induction false} Next(cs: seq<real>, d: real, e: real) returns (j: nat)
    requires e in cs && d < e
    ensures j < |cs| && d < cs[j] <= e
    ensures forall x :: x in cs ==> x <= d || cs[j] <= x
    decreases Between(cs, d, e)
  {
    if c :| c in cs && d < c < e {
      assert c in Between(cs, d, e) && c !in Between(cs, d, c);
      j := Next(cs, d, c);
    } else {
      j :| 0 <= j < |cs| && cs[j] == e;
    }
  }

  /** The scale `m` lies between `d` and `e`, nearer to `d` or in the middle, too far above `d`, and within reach of `e`. */
  predicate Missed(d: real, e: real, m: real, t: real) {
    TooFar(d, m, t) && 2.0 * m <= d + e && (1.0 - t) * e <= m
  }

  lemma MissedSum(d: real, e: real, m: real, t: real)
    requires Missed(d, e, m, t)
    ensures (1.0 + 2.0 * t) * d < e && (1.0 - 2.0 * t) * e <= d
    ensures (1.0 - 2.0 * t) * e == d ==> 2.0 * m == d + e
  {
    assert (1.0 + t) * d == d + t * d && (1.0 + 2.0 * t) * d == d + 2.0 * (t * d);
    assert (1.0 - t) * e == e - t * e && (1.0 - 2.0 * t) * e == e - 2.0 * (t * e);
  }

  lemma MissIsGap(cs: seq<real>, m: real, t: real) returns (i: nat, j: nat)
    requires 0.0 <= t < 1.0 && m > 0.0 && Positive(cs) && SomeFits(cs, m, t)
    requires Closest(cs, m) > 0.0 && !Fitting(Closest(cs, m), m, t)
    ensures i < |cs| && j < |cs| && Gap(cs, t, i, j)
  {
    hide Abs, Fitting, Closest, FirstNearest, Gap;
    var e :| e in cs && Fitting(e, m, t);
    NearestFitsExactly(cs, m, t);
    i := ClosestIsFirst(cs, m);
    assert cs[i] in cs;
    j := GapAbove(cs, m, t, i, e);
  }

  predicate TooFar(d: real, m: real, t: real) {
    (1.0 + t) * d < m
  }

  lemma GapAbove(cs: seq<real>, m: real, t: real, i: nat, e: real) returns (j: nat)
    requires 0.0 <= t < 1.0 && Positive(cs) && i < |cs| && FirstNearest(cs, m, i)
    requires TooFar(cs[i], m, t) && e in cs && Fitting(e, m, t)
    ensures j < |cs| && Gap(cs, t, i, j)
  {
    NearerThan(cs, m, i, e);
    assert cs[i] in cs;
    hide *;
    Above(cs[i], e, m, t);
    j := Next(cs, cs[i], e);
    NearerThan(cs, m, i, cs[j]);
    Reach(cs[i], cs[j], e, m, t);
    TieOrder(cs, m, i, j);
    GapIs(cs, m, t, i, j);
  }

  lemma GapIs(cs: seq<real>, m: real, t: real, i: nat, j: nat)
    requires i < |cs| && j < |cs| && cs[i] < cs[j] && (forall e :: e in cs ==> e <= cs[i] || cs[j] <= e)
    requires Missed(cs[i], cs[j], m, t)
    requires 2.0 * m == cs[i] + cs[j] ==> i < j
    ensures Gap(cs, t, i, j)
  {
    MissedSum(cs[i], cs[j], m, t);
    hide Missed;
  }

  lemma NearerThan(cs: seq<real>, m: real, i: nat, e: real)
    requires i < |cs| && FirstNearest(cs, m, i) && e in cs
    ensures Abs(cs[i] - m) <= Abs(e - m)
  {
    hide Abs;
  }

  lemma TieOrder(cs: seq<real>, m: real, i: nat, j: nat)
    requires i < |cs| && j < |cs| && FirstNearest(cs, m, i) && cs[i] < cs[j]
    ensures 2.0 * m == cs[i] + cs[j] ==> i < j
  {
    assert 2.0 * m == cs[i] + cs[j] ==> Abs(cs[i] - m) == Abs(cs[j] - m);
    hide Abs;
  }

  lemma Above(d: real, e: real, m: real, t: real)
    requires 0.0 <= t < 1.0 && d > 0.0 && e > 0.0 && Fitting(e, m, t)
    requires TooFar(d, m, t) && Abs(d - m) <= Abs(e - m)
    ensures d < e && m < e
  {
    FittingIs(e, m, t);
    hide Fitting;
    MultiplyAtMost(t, 0.0, d);
    assert (1.0 + t) * d == d + t * d;
    if e <= d {
      MultiplyAtMost(t, e, d);
    }
  }

  lemma Reach(d: real, next: real, e: real, m: real, t: real)
    requires 0.0 <= t < 1.0 && 0.0 < d < next <= e && m < e && Fitting(e, m, t)
    requires TooFar(d, m, t) && Abs(d - m) <= Abs(next - m)
    ensures Missed(d, next, m, t)
  {
    FittingIs(e, m, t);
    hide Fitting;
    MultiplyAtMost(t, 0.0, d);
    assert (1.0 + t) * d == d + t * d;
    MultiplyAtMost(1.0 - t, next, e);
    assert (1.0 - t) * e == e - t * e;
  }

  /* ------------------------------------------------------------ a gap makes a miss */

  /** A scale that the gap misses. */
  function MissedScale(d: real, e: real, t: real): real {
    var low := if (1.0 + t) * d < (1.0 - t) * e then (1.0 - t) * e else (1.0 + t) * d;
    if (1.0 - 2.0 * t) * e == d then (d + e) / 2.0 else (low + (d + e) / 2.0) / 2.0
  }

  lemma MissedScaleIs(d: real, e: real, t: real)
    requires 0.0 <= t && 0.0 < d < e && (1.0 + 2.0 * t) * d < e && (1.0 - 2.0 * t) * e <= d
    ensures var m := MissedScale(d, e, t);
            d < m < e && Missed(d, e, m, t) && 2.0 * m <= d + e && (2.0 * m == d + e ==> (1.0 - 2.0 * t) * e == d)
  {
    MultiplyAtMost(t, 0.0, d);
    assert (1.0 + t) * d == d + t * d && (1.0 + 2.0 * t) * d == d + 2.0 * (t * d);
    assert (1.0 - t) * e == e - t * e && (1.0 - 2.0 * t) * e == e - 2.0 * (t * e);
  }

  lemma MissedFits(d: real, e: real, m: real, t: real)
    requires d > 0.0 && d < m < e && Missed(d, e, m, t)
    ensures !Fitting(d, m, t) && Fitting(e, m, t)
  {
    FittingIs(d, m, t);
    FittingIs(e, m, t);
    hide Fitting;
    assert (1.0 + t) * d == d + t * d && (1.0 - t) * e == e - t * e;
  }

  lemma GapIsMiss(cs: seq<real>, t: real, i: nat, j: nat) returns (m: real)
    requires 0.0 <= t < 1.0 && Positive(cs) && Distinct(cs) && i < |cs| && j < |cs| && Gap(cs, t, i, j)
    ensures m > 0.0 && SomeFits(cs, m, t) && Closest(cs, m) == cs[i] > 0.0 && !Fitting(cs[i], m, t)
  {
    assert cs[i] in cs && cs[j] in cs;
    m := MissedScale(cs[i], cs[j], t);
    MissedScaleIs(cs[i], cs[j], t);
    hide MissedScale, Missed, Fitting, Closest, FirstNearest;
    MissedFits(cs[i], cs[j], m, t);
    LowerIsNearest(cs, m, i, j);
    FirstNearestIsClosest(cs, m, i);
  }

  lemma LowerIsNearest(cs: seq<real>, m: real, i: nat, j: nat)
    requires Distinct(cs) && i < |cs| && j < |cs| && cs[i] < m < cs[j] && (forall e :: e in cs ==> e <= cs[i] || cs[j] <= e)
    requires 2.0 * m <= cs[i] + cs[j] && (2.0 * m == cs[i] + cs[j] ==> i < j)
    ensures FirstNearest(cs, m, i)
  {
    forall k | 0 <= k < |cs| && k != i
      ensures Abs(cs[i] - m) <= Abs(cs[k] - m) && (k < i ==> Abs(cs[i] - m) < Abs(cs[k] - m))
    {
      assert cs[k] in cs && cs[k] != cs[i];
      assert k < i ==> cs[k] != cs[j] || 2.0 * m != cs[i] + cs[j];
    }
  }

  /** Exactly the configurations without a gap never miss a denominator that fits. */
  lemma NearestSufficesExactly(cs: seq<real>, t: real)
    requires 0.0 <= t < 1.0 && Positive(cs) && Distinct(cs)
    ensures NearestSuffices(cs, t) <==> NoGap(cs, t)
  {
    hide Gap, Closest, Fitting, SomeFits, Distinct;
    if !NoGap(cs, t) {
      var i, j :| 0 <= i < |cs| && 0 <= j < |cs| && Gap(cs, t, i, j);
      var m := GapIsMiss(cs, t, i, j);
    } else {
      forall m | m > 0.0 && SomeFits(cs, m, t)
        ensures Closest(cs, m) > 0.0 && Fitting(Closest(cs, m), m, t)
      {
        NearestFitsExactly(cs, m, t);
        if !Fitting(Closest(cs, m), m, t) {
          var i, j := MissIsGap(cs, m, t);
        }
      }
    }
  }

  ghost predicate Ascending(cs: seq<real>) {
    forall i, j :: 0 <= i < j < |cs| ==> cs[i] < cs[j]
  }

  /** The denominators at `i` and `i + 1` of an ascending list leave a gap. */
  predicate Apart(cs: seq<real>, t: real, i: nat)
    requires i + 1 < |cs|
  {
    (1.0 + 2.0 * t) * cs[i] < cs[i + 1] && (1.0 - 2.0 * t) * cs[i + 1] <= cs[i]
  }

  lemma ApartIsGap(cs: seq<real>, t: real, i: nat)
    requires Ascending(cs) && i + 1 < |cs|
    ensures Apart(cs, t, i) <==> Gap(cs, t, i, i + 1)
  {
    forall e | e in cs
      ensures e <= cs[i] || cs[i + 1] <= e
    {
      var k :| 0 <= k < |cs| && cs[k] == e;
      assert k <= i || i + 1 <= k;
    }
  }

  lemma GapIsNext(cs: seq<real>, t: real, i: nat, j: nat)
    requires Ascending(cs) && i < |cs| && j < |cs| && Gap(cs, t, i, j)
    ensures j == i + 1
  {
    AscendingOrder(cs, i, j);
    assert cs[i + 1] in cs;
  }

  lemma AscendingOrder(cs: seq<real>, i: nat, j: nat)
    requires Ascending(cs) && i < |cs| && j < |cs| && cs[i] < cs[j]
    ensures i < j
  {
  }

  /** In an ascending list only neighbours have to be compared. */
  lemma AscendingSuffices(cs: seq<real>, t: real)
    requires 0.0 <= t < 1.0 && Positive(cs) && Ascending(cs)
    ensures NearestSuffices(cs, t) <==> forall i :: 0 <= i && i + 1 < |cs| ==> !Apart(cs, t, i)
  {
    NearestSufficesExactly(cs, t);
    hide NearestSuffices, Gap, Apart;
    if i :| 0 <= i && i + 1 < |cs| && Apart(cs, t, i) {
      ApartIsGap(cs, t, i);
    } else if !NoGap(cs, t) {
      var i, j :| 0 <= i < |cs| && 0 <= j < |cs| && Gap(cs, t, i, j);
      GapIsNext(cs, t, i, j);
      ApartIsGap(cs, t, i);
    }
  }

  /** The denominators that are used when none are configured. */
  const DEFAULT_DENOMINATORS: seq<real> := [1.0, 2.0, 5.0, 10.0, 20.0, 25.0, 50.0, 100.0, 200.0, 500.0]

  /** They suffice for every tolerance that may be configured but the largest, where 22.5 goes to 20 instead of 25. */
  lemma DefaultsSuffice(t: real)
    requires 0.0 <= t <= 0.1
    ensures Positive(DEFAULT_DENOMINATORS) && Distinct(DEFAULT_DENOMINATORS)
    ensures NearestSuffices(DEFAULT_DENOMINATORS, t) <==> t < 0.1
  {
    var cs := DEFAULT_DENOMINATORS;
    AscendingSuffices(cs, t);
    hide NearestSuffices;
    assert Apart(cs, t, 4) <==> t == 0.1;
    assert forall i :: 0 <= i && i + 1 < |cs| && i != 4 ==> !Apart(cs, t, i);
  }

  /* ------------------------------------------------------------ seen from the drawing */

  /** The sides of the frame match those of the paper, and some configured denominator fits the scale. */
  ghost predicate Plottable(window: Window, paper: Paper, config: Config) {
    && config.Valid() && paper.width > 0.0 && paper.height > 0.0 && window.Width() > 0.0 && window.Height() > 0.0
    && var best := Best(FrameWidth(window, config.drawingUnit), FrameHeight(window, config.drawingUnit), paper.width, paper.height);
       best.mismatch <= config.tolerance && SomeFits(config.denominators, best.average, config.tolerance)
  }

  /** No plottable drawing is refused. */
  ghost predicate RefusesNone(config: Config)
    requires config.Valid()
  {
    forall window, paper :: Plottable(window, paper, config) ==>
      Geometry(window, paper, config).Ok? && Geometry(window, paper, config).value.Some?
  }

  lemma PlottableIsPlotted(window: Window, paper: Paper, config: Config)
    requires Plottable(window, paper, config) && NearestSuffices(config.denominators, config.tolerance)
    ensures Geometry(window, paper, config).Ok? && Geometry(window, paper, config).value.Some?
  {
    GeometryIs(window, paper, config);
    var w, h := FrameWidth(window, config.drawingUnit), FrameHeight(window, config.drawingUnit);
    AveragePositive(w, h, paper.width, paper.height);
    hide Best, Closest, Geometry, RelativeError, SomeFits, FrameWidth, FrameHeight;
  }

  lemma AveragePositive(w: real, h: real, p: real, q: real)
    requires w > 0.0 && h > 0.0 && p > 0.0 && q > 0.0
    ensures Best(w, h, p, q).average > 0.0
  {
    OverPositive(w, p);
    OverPositive(h, q);
    OverPositive(w, q);
    OverPositive(h, p);
    hide Over, Abs;
  }

  /** A square window on a paper of one by one millimetre has any scale that one likes. */
  lemma SquareWindow(m: real, unit: real) returns (window: Window)
    requires m > 0.0 && unit > 0.0
    ensures window.Width() > 0.0 && window.Height() > 0.0
    ensures Best(FrameWidth(window, unit), FrameHeight(window, unit), 1.0, 1.0) == Candidate(0.0, m, Upright)
  {
    OverIs(m, unit);
    OverPositive(m, unit);
    window := Window(0.0, 0.0, Over(m, unit), Over(m, unit));
    assert FrameWidth(window, unit) == m && FrameHeight(window, unit) == m;
    SquareFit(m);
    hide Over, FrameWidth, FrameHeight, Best;
  }

  lemma SquareFit(m: real)
    requires m > 0.0
    ensures Best(m, m, 1.0, 1.0) == Candidate(0.0, m, Upright)
  {
    OverUnique(m, m, 1.0);
    OverUnique(0.0, 0.0, m);
    hide Over;
  }

  lemma GapRefuses(config: Config, i: nat, j: nat)
    requires config.Valid() && Distinct(config.denominators)
    requires i < |config.denominators| && j < |config.denominators| && Gap(config.denominators, config.tolerance, i, j)
    ensures !RefusesNone(config)
  {
    var m := GapIsMiss(config.denominators, config.tolerance, i, j);
    var window := SquareWindow(m, config.drawingUnit);
    var paper := Paper(1.0, 1.0);
    GeometryIs(window, paper, config);
    hide Best, Closest, Geometry, RelativeError, SomeFits, FrameWidth, FrameHeight, Gap;
    assert Plottable(window, paper, config);
  }

  /** A configuration plots every drawing that has a fitting denominator if and only if its denominators leave no gap. */
  lemma RefusesNoneExactly(config: Config)
    requires config.Valid() && Distinct(config.denominators)
    ensures RefusesNone(config) <==> NoGap(config.denominators, config.tolerance)
  {
    NearestSufficesExactly(config.denominators, config.tolerance);
    hide Gap, Geometry, Plottable, NearestSuffices, Distinct;
    if NoGap(config.denominators, config.tolerance) {
      forall window, paper | Plottable(window, paper, config)
        ensures Geometry(window, paper, config).Ok? && Geometry(window, paper, config).value.Some?
      {
        PlottableIsPlotted(window, paper, config);
      }
    } else {
      var i, j :| 0 <= i < |config.denominators| && 0 <= j < |config.denominators| && Gap(config.denominators, config.tolerance, i, j);
      GapRefuses(config, i, j);
    }
  }

  /* ------------------------------------------------------------ a drawing that is refused */

  lemma MissedFrame()
    ensures Best(42856.8, 30305.88, 297.0, 420.0) == Candidate(0.0, 102.04, Turned)
  {
    UprightExactly(42856.8, 30305.88, 297.0, 420.0);
    BestRotation(42856.8, 30305.88, 297.0, 420.0);
    MissedFit();
    hide Fit, Best;
    assert (42856.8 - 30305.88) * (297.0 - 420.0) < 0.0;
  }

  lemma MissedFit()
    ensures Fit(42856.8, 30305.88, 420.0, 297.0, Turned) == Candidate(0.0, 102.04, Turned)
  {
    OverUnique(102.04, 42856.8, 420.0);
    OverUnique(102.04, 30305.88, 297.0);
    OverUnique(0.0, 0.0, 102.04);
    hide Over;
  }

  lemma MissedWindow()
    ensures var window := Window(0.0, 0.0, 42856.8, 30305.88);
            && window.Width() == FrameWidth(window, 1.0) == 42856.8
            && window.Height() == FrameHeight(window, 1.0) == 30305.88
  {
  }

  lemma MissedConfig()
    ensures var config := Config(1.0, [100.0, 104.1], 0.02);
            config.Valid() && Distinct(config.denominators) && Positive(config.denominators)
  {
  }

  lemma MissedScaleFits()
    ensures Positive([100.0, 104.1]) && SomeFits([100.0, 104.1], 102.04, 0.02)
  {
    NearestMayMiss();
    hide Fitting;
    assert [100.0, 104.1][1] in [100.0, 104.1];
  }

  /**
   A frame of 42856.8 by 30305.88 on A3 has the scale 102.04. With denominators 100 and 104.1 and a
   tolerance of 2 percent it gets no geometry, although 104.1 fits.
   */
  lemma PlottableRefused()
    ensures var window, paper, config := Window(0.0, 0.0, 42856.8, 30305.88), Paper(297.0, 420.0), Config(1.0, [100.0, 104.1], 0.02);
            && Plottable(window, paper, config)
            && Geometry(window, paper, config) == Ok(None)
  {
    var window, paper, config := Window(0.0, 0.0, 42856.8, 30305.88), Paper(297.0, 420.0), Config(1.0, [100.0, 104.1], 0.02);
    MissedConfig();
    MissedWindow();
    MissedFrame();
    MissedScaleFits();
    hide Best, Closest, Geometry, RelativeError, SomeFits, FrameWidth, FrameHeight;
    NearestMayMiss();
    GeometryIs(window, paper, config);
  }
}
