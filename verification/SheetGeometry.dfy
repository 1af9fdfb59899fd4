/**
 The plot geometry of one sheet, over the reals: which way the paper is turned, which scale is
 chosen, and how far the plotted frame can be from the paper. Rounding is not modelled.
 */
module SheetGeometry {
  import opened RealArithmetic
  import opened Wrappers

  datatype Window = Window(minX: real, minY: real, maxX: real, maxY: real)
  {
    function Width(): real { maxX - minX }
    function Height(): real { maxY - minY }
  }

  datatype Paper = Paper(width: real, height: real)

  datatype Config = Config(drawingUnit: real, denominators: seq<real>, tolerance: real)
  {
    /** What loading the configuration guarantees. */
    ghost predicate Valid() {
      && drawingUnit > 0.0 && 0.0 <= tolerance <= 0.1
      && denominators != [] && forall d :: d in denominators ==> d > 0.0
    }
  }

  datatype Rotation = Upright | Turned

  datatype Candidate = Candidate(mismatch: real, average: real, rotation: Rotation)

  datatype PlotGeometry = PlotGeometry(window: Window, rotation: Rotation, denominator: real, derived: real, unit: real, paper: Paper)

  datatype GeometryError = DivisionByZero

  /** The frame in millimetres. */
  function FrameWidth(window: Window, unit: real): (w: real)
    requires unit > 0.0
    ensures w > 0.0 <==> window.Width() > 0.0
  {
    Scaled(0.0, window.Width(), unit);
    window.Width() * unit
  }

  function FrameHeight(window: Window, unit: real): (h: real)
    requires unit > 0.0
    ensures h > 0.0 <==> window.Height() > 0.0
  {
    Scaled(0.0, window.Height(), unit);
    window.Height() * unit
  }

  /** Tuple order: mismatch, then average scale, then rotation. */
  predicate Better(a: Candidate, b: Candidate) {
    || a.mismatch < b.mismatch
    || (a.mismatch == b.mismatch
        && (a.average < b.average || (a.average == b.average && a.rotation == Upright && b.rotation == Turned)))
  }

  /** The mean of two scales, and by how much they disagree relative to it. */
  function FromScales(a: real, b: real, rotation: Rotation): Candidate
    requires a > 0.0 && b > 0.0
  {
    var average := (a + b) / 2.0;
    Candidate(Over(Abs(a - b), average), average, rotation)
  }

  function Fit(w: real, h: real, p: real, q: real, rotation: Rotation): Candidate
    requires w > 0.0 && h > 0.0 && p > 0.0 && q > 0.0
  {
    OverPositive(w, p);
    OverPositive(h, q);
    FromScales(Over(w, p), Over(h, q), rotation)
  }

  /** The candidate for a frame of `w` by `h` millimetres on a paper of `p` by `q`. */
  function Best(w: real, h: real, p: real, q: real): Candidate
    requires w > 0.0 && h > 0.0 && p > 0.0 && q > 0.0
  {
    var upright, turned := Fit(w, h, p, q, Upright), Fit(w, h, q, p, Turned);
    if Better(turned, upright) then turned else upright
  }

  function RelativeError(d: real, derived: real): real
    requires d > 0.0
  {
    Over(Abs(d - derived), d)
  }

  /** `min` over the configured denominators by distance; the first of equally near ones wins. */
  function Closest(candidates: seq<real>, derived: real): real
    requires candidates != []
  {
    var last := candidates[|candidates| - 1];
    if |candidates| == 1 then last
    else
      var earlier := Closest(candidates[..|candidates| - 1], derived);
      if Abs(last - derived) < Abs(earlier - derived) then last else earlier
  }

  lemma {:induction false} ClosestIsNearest(candidates: seq<real>, derived: real)
    requires candidates != []
    ensures Closest(candidates, derived) in candidates
    ensures forall e :: e in candidates ==> Abs(Closest(candidates, derived) - derived) <= Abs(e - derived)
  {
    if |candidates| > 1 {
      ClosestIsNearest(candidates[..|candidates| - 1], derived);
      assert candidates == candidates[..|candidates| - 1] + [candidates[|candidates| - 1]];
    }
  }

  /** `_derive_plot_geometry` for a label that names a paper size. */
  function Geometry(window: Window, paper: Paper, config: Config): Result<Option<PlotGeometry>, GeometryError>
    requires config.Valid() && paper.width >= 0.0 && paper.height >= 0.0
  {
    if window.Width() <= 0.0 || window.Height() <= 0.0 then Ok(None)
    else if paper.width == 0.0 || paper.height == 0.0 then Err(DivisionByZero)
    else
      var best := Best(FrameWidth(window, config.drawingUnit), FrameHeight(window, config.drawingUnit), paper.width, paper.height);
      if best.mismatch > config.tolerance then Ok(None)
      else
        var denominator := Closest(config.denominators, best.average);
        ClosestIsNearest(config.denominators, best.average);
        if RelativeError(denominator, best.average) > config.tolerance then Ok(None)
        else Ok(Some(PlotGeometry(window, best.rotation, denominator, best.average, config.drawingUnit, paper)))
  }

  /* ------------------------------------------------------------ the loops of the source */

  method NearestDenominator(candidates: seq<real>, derived: real) returns (d: real)
    requires candidates != []
    ensures d == Closest(candidates, derived)
  {
    d := candidates[0];
    assert candidates[..1] == [candidates[0]];
    for i := 1 to |candidates|
      invariant d == Closest(candidates[..i], derived)
    {
      assert candidates[..i + 1][..i] == candidates[..i];
      if Abs(candidates[i] - derived) < Abs(d - derived) {
        d := candidates[i];
      }
    }
    assert candidates[..|candidates|] == candidates;
  }

  method BestCandidate(w: real, h: real, paperWidth: real, paperHeight: real) returns (chosen: Candidate)
    requires w > 0.0 && h > 0.0 && paperWidth > 0.0 && paperHeight > 0.0
    ensures chosen == Best(w, h, paperWidth, paperHeight)
  {
    hide Over;
    var candidates := [(Upright, paperWidth, paperHeight), (Turned, paperHeight, paperWidth)];
    var best: Option<Candidate> := None;
    for i := 0 to 2
      invariant i == 0 ==> best == None
      invariant i == 1 ==> best == Some(Fit(w, h, paperWidth, paperHeight, Upright))
      invariant i == 2 ==> best == Some(Best(w, h, paperWidth, paperHeight))
    {
      var (rotation, width, height) := candidates[i];
      OverPositive(w, width);
      OverPositive(h, height);
      var widthScale, heightScale := Over(w, width), Over(h, height);
      var average := (widthScale + heightScale) / 2.0;
      var candidate := Candidate(Over(Abs(widthScale - heightScale), average), average, rotation);
      if best.None? || Better(candidate, best.value) {
        best := Some(candidate);
      }
    }
    chosen := best.value;
  }

  method DerivePlotGeometry(window: Window, paper: Option<Paper>, config: Config) returns (geometry: Result<Option<PlotGeometry>, GeometryError>)
    requires config.Valid() && (paper.Some? ==> paper.value.width >= 0.0 && paper.value.height >= 0.0)
    ensures geometry == if paper.None? then Ok(None) else Geometry(window, paper.value, config)
  {
    if paper.None? {
      return Ok(None);
    }
    if window.Width() <= 0.0 || window.Height() <= 0.0 {
      return Ok(None);
    }
    if paper.value.width == 0.0 || paper.value.height == 0.0 {
      return Err(DivisionByZero);
    }
    var frameWidth, frameHeight := FrameWidth(window, config.drawingUnit), FrameHeight(window, config.drawingUnit);
    hide Best, FrameWidth, FrameHeight, RelativeError, Closest;
    var best := BestCandidate(frameWidth, frameHeight, paper.value.width, paper.value.height);
    if best.mismatch > config.tolerance {
      return Ok(None);
    }
    var derived := best.average;
    var denominator := NearestDenominator(config.denominators, derived);
    ClosestIsNearest(config.denominators, derived);
    if RelativeError(denominator, derived) > config.tolerance {
      return Ok(None);
    }
    return Ok(Some(PlotGeometry(window, best.rotation, denominator, derived, config.drawingUnit, paper.value)));
  }

  /* ------------------------------------------------------------ rotation */

  /** The mismatch by cross products. */
  lemma MismatchIs(w: real, h: real, p: real, q: real, rotation: Rotation)
    requires w > 0.0 && h > 0.0 && p > 0.0 && q > 0.0
    ensures w * q + h * p > 0.0
    ensures Fit(w, h, p, q, rotation).mismatch == Over(2.0 * Abs(w * q - h * p), w * q + h * p)
  {
    hide Over, Abs;
    OverPositive(w, p);
    OverPositive(h, q);
    var a, b, k := Over(w, p), Over(h, q), p * q;
    ProductPositive(p, q);
    ScaleTimesArea(w, p, q, k);
    ScaleTimesArea(h, q, p, k);
    RelativeDifference(a, b, k);
  }

  lemma ScaleTimesArea(w: real, p: real, q: real, area: real)
    requires p > 0.0 && (area == p * q || area == q * p)
    ensures Over(w, p) * area == w * q
  {
    OverIs(w, p);
    hide Over;
    assert Over(w, p) * (p * q) == (Over(w, p) * p) * q;
  }

  lemma WideProducts(w: real, h: real, p: real, q: real, x: real, y: real, u: real, v: real)
    requires w > h > 0.0 && p > q > 0.0 && x == w * q && y == h * p && u == w * p && v == h * q
    ensures x > 0.0 && y > 0.0 && u > v > 0.0 && x * v < u * y
  {
    SquaredSides(q, p, w, h);
    MultiplyLess(h, w, q, p);
    ProductPositive(w, q);
    ProductPositive(h, p);
    ProductPositive(h, q);
  }

  lemma OtherProducts(w: real, h: real, p: real, q: real, x: real, y: real, u: real, v: real)
    requires w > h > 0.0 && p > q > 0.0 && x == w * q && y == h * p && u == w * p && v == h * q
    ensures y * v < u * x
  {
    SquaredSides(h, w, p, q);
  }

  lemma WideRatio(w: real, h: real, p: real, q: real)
    requires w > h > 0.0 && p > q > 0.0
    ensures w * q + h * p > 0.0 && w * p + h * q > 0.0
    ensures Over(2.0 * Abs(w * q - h * p), w * q + h * p) < Over(2.0 * Abs(w * p - h * q), w * p + h * q)
  {
    hide Over, Abs;
    var x, y, u, v := w * q, h * p, w * p, h * q;
    WideProducts(w, h, p, q, x, y, u, v);
    OtherProducts(w, h, p, q, x, y, u, v);
    FurtherApart(x, y, u, v);
  }

  /** A wide frame on a wide paper, or a tall one on a tall one, fits better upright; otherwise turned. */
  lemma StrictRotation(w: real, h: real, p: real, q: real)
    requires w > 0.0 && h > 0.0 && p > 0.0 && q > 0.0
    requires (w > h && p > q) || (w < h && p < q)
    ensures Fit(w, h, p, q, Upright).mismatch < Fit(w, h, q, p, Turned).mismatch
  {
    MismatchIs(w, h, p, q, Upright);
    MismatchIs(w, h, q, p, Turned);
    hide Fit, Over, Abs;
    if w > h {
      WideRatio(w, h, p, q);
    } else {
      WideRatio(h, w, q, p);
      AbsSwap(w * q, h * p);
      AbsSwap(w * p, h * q);
      assert h * p + w * q == w * q + h * p && h * q + w * p == w * p + h * q;
    }
  }

  /** Mismatch and average do not depend on the name of the rotation. */
  lemma SameMismatch(w: real, h: real, p: real, q: real)
    requires w > 0.0 && h > 0.0 && p > 0.0 && q > 0.0
    ensures Fit(w, h, p, q, Upright).mismatch == Fit(w, h, p, q, Turned).mismatch
  {
    hide Over, Abs;
  }

  lemma Tie(w: real, h: real, p: real, q: real)
    requires w > 0.0 && h > 0.0 && p > 0.0 && q > 0.0 && (w == h || p == q)
    ensures Best(w, h, p, q).rotation == Upright
  {
    hide Over, Abs;
    AbsSwap(Over(w, p), Over(h, q));
  }

  /** The paper stays upright exactly when frame and paper do not disagree on which side is longer; ties included. */
  lemma UprightExactly(w: real, h: real, p: real, q: real)
    requires w > 0.0 && h > 0.0 && p > 0.0 && q > 0.0
    ensures Best(w, h, p, q).rotation == Upright <==> (w - h) * (p - q) >= 0.0
  {
    SignOfProduct(w - h, p - q);
    hide Fit, FromScales;
    if (w > h && p > q) || (w < h && p < q) {
      StrictRotation(w, h, p, q);
      BestRotation(w, h, p, q);
    } else if (w > h && p < q) || (w < h && p > q) {
      StrictRotation(w, h, q, p);
      SameMismatch(w, h, p, q);
      SameMismatch(w, h, q, p);
      BestRotation(w, h, p, q);
    } else {
      Tie(w, h, p, q);
    }
  }

  lemma BestRotation(w: real, h: real, p: real, q: real)
    requires w > 0.0 && h > 0.0 && p > 0.0 && q > 0.0
    ensures var best := Best(w, h, p, q);
            best == if best.rotation == Upright then Fit(w, h, p, q, Upright) else Fit(w, h, q, p, Turned)
    ensures Fit(w, h, p, q, Upright).mismatch < Fit(w, h, q, p, Turned).mismatch ==> Best(w, h, p, q).rotation == Upright
    ensures Fit(w, h, p, q, Upright).mismatch > Fit(w, h, q, p, Turned).mismatch ==> Best(w, h, p, q).rotation == Turned
  {
    hide Over, Abs;
  }

  /* ------------------------------------------------------------ the viewport and the audited page */

  /** The page that the audit expects. */
  function ExpectedPage(g: PlotGeometry): Paper {
    if g.rotation == Upright then g.paper else Paper(g.paper.height, g.paper.width)
  }

  datatype Viewport = Viewport(paperWidth: real, paperHeight: real, centerX: real, centerY: real, customScale: real, quarterTurn: bool)

  /** `ViewportGeometryCalculator.Calculate`; it refuses sizes that are not positive. */
  function Calculate(g: PlotGeometry, page: Paper, paperUnit: real): Option<Viewport> {
    if page.width <= 0.0 || page.height <= 0.0 || paperUnit <= 0.0 || g.unit <= 0.0 || g.denominator <= 0.0
       || g.window.Width() <= 0.0 || g.window.Height() <= 0.0 then None
    else
      var paperWidth, paperHeight := Over(page.width, paperUnit), Over(page.height, paperUnit);
      Some(Viewport(
        paperWidth, paperHeight,
        (g.window.minX + g.window.maxX) / 2.0, (g.window.minY + g.window.maxY) / 2.0,
        Over(Over(g.unit, g.denominator), paperUnit),
        (g.window.Width() > g.window.Height()) != (paperWidth > paperHeight)))
  }

  /**
   The viewport in products and sums: it has the size of the page, it is centred on the window, and a
   drawing unit at its scale is that many millimetres over the denominator. It turns exactly when window
   and page disagree on whether they are wider than high.
   */
  lemma ViewportMeans(g: PlotGeometry, page: Paper, paperUnit: real)
    ensures Calculate(g, page, paperUnit).Some? <==>
      && 0.0 < page.width && 0.0 < page.height && 0.0 < paperUnit && 0.0 < g.unit && 0.0 < g.denominator
      && g.window.minX < g.window.maxX && g.window.minY < g.window.maxY
    ensures Calculate(g, page, paperUnit).Some? ==>
      var v := Calculate(g, page, paperUnit).value;
      && v.paperWidth * paperUnit == page.width && v.paperHeight * paperUnit == page.height
      && v.centerX - g.window.minX == g.window.maxX - v.centerX
      && v.centerY - g.window.minY == g.window.maxY - v.centerY
      && (v.customScale * paperUnit) * g.denominator == g.unit
      && (v.quarterTurn <==>
            || (g.window.maxX - g.window.minX > g.window.maxY - g.window.minY && page.width <= page.height)
            || (g.window.maxX - g.window.minX <= g.window.maxY - g.window.minY && page.width > page.height))
  {
    if Calculate(g, page, paperUnit).Some? {
      OverIs(page.width, paperUnit);
      OverIs(page.height, paperUnit);
      OverOrder(page.height, page.width, paperUnit);
      OverIs(g.unit, g.denominator);
      OverIs(Over(g.unit, g.denominator), paperUnit);
      hide Over;
    }
  }

  /** What a returned geometry has passed, on the page as it is turned. */
  lemma PassedTests(window: Window, paper: Paper, config: Config)
    requires config.Valid() && paper.width > 0.0 && paper.height > 0.0
    requires Geometry(window, paper, config).Ok? && Geometry(window, paper, config).value.Some?
    ensures var g := Geometry(window, paper, config).value.value;
            var page := ExpectedPage(g);
            && g.window == window && g.paper == paper && g.unit == config.drawingUnit && g.denominator > 0.0
            && page.width > 0.0 && page.height > 0.0 && window.Width() > 0.0 && window.Height() > 0.0
            && g.rotation == Best(FrameWidth(window, g.unit), FrameHeight(window, g.unit), paper.width, paper.height).rotation
            && var fit := Fit(FrameWidth(window, g.unit), FrameHeight(window, g.unit), page.width, page.height, g.rotation);
               fit.mismatch <= config.tolerance && RelativeError(g.denominator, fit.average) <= config.tolerance
  {
    hide RelativeError, Closest, FrameWidth, FrameHeight, Fit, Best;
    var g := Geometry(window, paper, config).value.value;
    ClosestIsNearest(config.denominators, g.derived);
    BestRotation(FrameWidth(window, g.unit), FrameHeight(window, g.unit), paper.width, paper.height);
  }

  lemma FrameOrder(window: Window, unit: real)
    requires unit > 0.0
    ensures FrameWidth(window, unit) < FrameHeight(window, unit) <==> window.Width() < window.Height()
    ensures FrameWidth(window, unit) == FrameHeight(window, unit) <==> window.Width() == window.Height()
  {
    Scaled(window.Width(), window.Height(), unit);
  }

  /** On the page that the audit expects the viewport turns only for a square window or a square paper. */
  lemma NoQuarterTurn(window: Window, paper: Paper, config: Config, paperUnit: real)
    requires config.Valid() && paper.width > 0.0 && paper.height > 0.0 && paperUnit > 0.0
    requires Geometry(window, paper, config).Ok? && Geometry(window, paper, config).value.Some?
    ensures var g := Geometry(window, paper, config).value.value;
            var page := ExpectedPage(g);
            var v := Calculate(g, page, paperUnit);
            && v.Some?
            && (v.value.quarterTurn <==>
                  || (window.Width() == window.Height() && page.width > page.height)
                  || (paper.width == paper.height && window.Width() > window.Height()))
  {
    PassedTests(window, paper, config);
    hide Geometry, Best, Fit, Over;
    var g := Geometry(window, paper, config).value.value;
    var page := ExpectedPage(g);
    var w, h := FrameWidth(window, g.unit), FrameHeight(window, g.unit);
    UprightExactly(w, h, paper.width, paper.height);
    SignOfProduct(w - h, paper.width - paper.height);
    FrameOrder(window, g.unit);
    hide FrameWidth, FrameHeight;
    OverOrder(page.height, page.width, paperUnit);
  }

  /* ------------------------------------------------------------ the scale error */

  /** How far a length may be off, as a factor of the paper side. */
  function Bound(tolerance: real): real {
    tolerance * (3.0 + tolerance) / 2.0
  }

  lemma ErrorSum(t: real, d: real)
    ensures t * (d + t * d) / 2.0 + t * d == Bound(t) * d
  {
    assert t * (d + t * d) == t * d + t * (t * d);
    assert t * (3.0 + t) * d == 3.0 * (t * d) + t * (t * d);
  }

  lemma AddErrors(a: real, b: real, m: real, d: real, x: real, y: real, z: real, sum: real)
    requires m == (a + b) / 2.0 && Abs(a - b) <= x && Abs(d - m) <= y && x <= z && z / 2.0 + y == sum
    ensures Abs(a - d) <= sum
  {
  }

  lemma AtMostSum(d: real, m: real, y: real)
    requires Abs(d - m) <= y
    ensures m <= d + y
  {
  }

  /** One of two scales that agree with their mean, when the mean is near the denominator. */
  lemma ScaleNear(a: real, b: real, d: real, t: real, rotation: Rotation)
    requires a > 0.0 && b > 0.0 && d > 0.0 && t >= 0.0
    requires FromScales(a, b, rotation).mismatch <= t && RelativeError(d, FromScales(a, b, rotation).average) <= t
    ensures Within(a, d, Bound(t)) && Within(b, d, Bound(t))
  {
    hide Over, Abs, Bound;
    var m := (a + b) / 2.0;
    OverAtMost(Abs(a - b), m, t);
    OverAtMost(Abs(d - m), d, t);
    var tm, td := t * m, t * d;
    AtMostSum(d, m, td);
    MultiplyAtMost(t, m, d + td);
    ErrorSum(t, d);
    AddErrors(a, b, m, d, tm, td, t * (d + td), Bound(t) * d);
    AbsSwap(a, b);
    AddErrors(b, a, m, d, tm, td, t * (d + td), Bound(t) * d);
  }

  /** `x` differs from `target` by at most the given factor of it. */
  predicate Within(x: real, target: real, factor: real) {
    Abs(x - target) <= factor * target
  }

  /** From scales to lengths: a frame side of `w` on a paper side of `p`. */
  lemma LengthNear(w: real, p: real, d: real, bound: real)
    requires w > 0.0 && p > 0.0 && d > 0.0 && Within(Over(w, p), d, bound)
    ensures Within(Over(w, d), p, bound)
  {
    var a, r := Over(w, p), Over(w, d);
    OverIs(w, p);
    OverIs(w, d);
    hide Over;
    assert (r - p) * d == w - p * d && (a - d) * p == w - d * p;
    AbsScaled(r - p, d);
    AbsScaled(a - d, p);
    hide Abs;
    Rescaled(Abs(a - d), Abs(r - p), p, d, bound);
  }

  lemma Rescaled(x: real, y: real, p: real, d: real, bound: real)
    requires p > 0.0 && d > 0.0 && x <= bound * d && y * d == x * p
    ensures y <= bound * p
  {
    Scaled(bound * d, x, p);
    assert (bound * d) * p == (bound * p) * d;
    Scaled(bound * p, y, d);
  }

  /** Both plotted sides are within the error bound of the sides of the page, as it is turned. */
  lemma PlottedSizeFits(window: Window, paper: Paper, config: Config)
    requires config.Valid() && paper.width > 0.0 && paper.height > 0.0
    requires Geometry(window, paper, config).Ok? && Geometry(window, paper, config).value.Some?
    ensures var g := Geometry(window, paper, config).value.value;
            var page := ExpectedPage(g);
            && g.denominator > 0.0 && g.unit > 0.0
            && Within(Over(FrameWidth(window, g.unit), g.denominator), page.width, Bound(config.tolerance))
            && Within(Over(FrameHeight(window, g.unit), g.denominator), page.height, Bound(config.tolerance))
  {
    PassedTests(window, paper, config);
    hide RelativeError, Bound, Geometry, FrameWidth, FrameHeight, Best, Over, Abs, FromScales, Within;
    var g := Geometry(window, paper, config).value.value;
    var page := ExpectedPage(g);
    var w, h := FrameWidth(window, g.unit), FrameHeight(window, g.unit);
    OverPositive(w, page.width);
    OverPositive(h, page.height);
    ScaleNear(Over(w, page.width), Over(h, page.height), g.denominator, config.tolerance, g.rotation);
    LengthNear(w, page.width, g.denominator, Bound(config.tolerance));
    LengthNear(h, page.height, g.denominator, Bound(config.tolerance));
  }

  /** A drawing length in a viewport of this scale. */
  function AtScale(length: real, scale: real): real {
    length * scale
  }

  lemma InPaperUnits(x: real, unit: real, y: real, d: real, side: real, factor: real, k: real)
    requires d > 0.0 && k > 0.0 && y == x * unit && Within(Over(y, d), side, factor)
    ensures Within(AtScale(x, Over(Over(unit, d), k)), Over(side, k), factor)
  {
    var u, r, z, s := Over(unit, d), Over(y, d), Over(Over(unit, d), k), Over(side, k);
    OverIs(unit, d);
    OverIs(u, k);
    OverIs(side, k);
    assert (x * u) * d == x * (u * d);
    OverUnique(x * u, y, d);
    hide Over;
    assert (x * z - s) * k == x * (z * k) - s * k;
    AbsScaled(x * z - s, k);
    hide Abs;
    assert factor * (s * k) == (factor * s) * k;
    Scaled(factor * s, Abs(x * z - s), k);
  }

  /** The same bound in paper units, for the scale that the viewport is given. */
  lemma ViewportSizeFits(window: Window, paper: Paper, config: Config, paperUnit: real)
    requires config.Valid() && paper.width > 0.0 && paper.height > 0.0 && paperUnit > 0.0
    requires Geometry(window, paper, config).Ok? && Geometry(window, paper, config).value.Some?
    ensures var g := Geometry(window, paper, config).value.value;
            var v := Calculate(g, ExpectedPage(g), paperUnit);
            && v.Some?
            && Within(AtScale(window.Width(), v.value.customScale), v.value.paperWidth, Bound(config.tolerance))
            && Within(AtScale(window.Height(), v.value.customScale), v.value.paperHeight, Bound(config.tolerance))
  {
    hide Geometry, Bound, RelativeError, Fit, Abs, Over, Best, Within, FrameWidth, FrameHeight, Calculate, AtScale;
    PassedTests(window, paper, config);
    PlottedSizeFits(window, paper, config);
    var g := Geometry(window, paper, config).value.value;
    var page := ExpectedPage(g);
    ViewportIs(g, page, paperUnit);
    WidthInPaperUnits(window, g.unit, g.denominator, page.width, Bound(config.tolerance), paperUnit);
    HeightInPaperUnits(window, g.unit, g.denominator, page.height, Bound(config.tolerance), paperUnit);
  }

  lemma ViewportIs(g: PlotGeometry, page: Paper, paperUnit: real)
    requires page.width > 0.0 && page.height > 0.0 && paperUnit > 0.0 && g.unit > 0.0 && g.denominator > 0.0
    requires g.window.Width() > 0.0 && g.window.Height() > 0.0
    ensures var v := Calculate(g, page, paperUnit);
            && v.Some? && v.value.customScale == Over(Over(g.unit, g.denominator), paperUnit)
            && v.value.paperWidth == Over(page.width, paperUnit) && v.value.paperHeight == Over(page.height, paperUnit)
  {
    hide Over;
  }

  lemma WidthInPaperUnits(window: Window, unit: real, d: real, side: real, factor: real, k: real)
    requires unit > 0.0 && d > 0.0 && k > 0.0 && Within(Over(FrameWidth(window, unit), d), side, factor)
    ensures Within(AtScale(window.Width(), Over(Over(unit, d), k)), Over(side, k), factor)
  {
    hide Over, Within;
    InPaperUnits(window.Width(), unit, FrameWidth(window, unit), d, side, factor, k);
  }

  lemma HeightInPaperUnits(window: Window, unit: real, d: real, side: real, factor: real, k: real)
    requires unit > 0.0 && d > 0.0 && k > 0.0 && Within(Over(FrameHeight(window, unit), d), side, factor)
    ensures Within(AtScale(window.Height(), Over(Over(unit, d), k)), Over(side, k), factor)
  {
    hide Over, Within;
    InPaperUnits(window.Height(), unit, FrameHeight(window, unit), d, side, factor, k);
  }

  /** When a geometry is returned, and which. */
  lemma GeometryIs(window: Window, paper: Paper, config: Config)
    requires config.Valid() && paper.width > 0.0 && paper.height > 0.0 && window.Width() > 0.0 && window.Height() > 0.0
    ensures var best := Best(FrameWidth(window, config.drawingUnit), FrameHeight(window, config.drawingUnit), paper.width, paper.height);
            var d := Closest(config.denominators, best.average);
            && d > 0.0
            && Geometry(window, paper, config) ==
                 Ok(if best.mismatch <= config.tolerance && RelativeError(d, best.average) <= config.tolerance
                    then Some(PlotGeometry(window, best.rotation, d, best.average, config.drawingUnit, paper)) else None)
  {
    hide Best, Closest, RelativeError, FrameWidth, FrameHeight;
    ClosestIsNearest(config.denominators,
      Best(FrameWidth(window, config.drawingUnit), FrameHeight(window, config.drawingUnit), paper.width, paper.height).average);
  }

  /** A frame of 420 by 297 on an A3 label is plotted turned and at full size. */
  lemma FullSizeExample()
    ensures var window, paper, config := Window(0.0, 0.0, 420.0, 297.0), Paper(297.0, 420.0), Config(1.0, [1.0, 2.0], 0.02);
            config.Valid() && Geometry(window, paper, config) == Ok(Some(PlotGeometry(window, Turned, 1.0, 1.0, 1.0, paper)))
  {
    ValidExample();
    hide *;
    var window, paper, config := Window(0.0, 0.0, 420.0, 297.0), Paper(297.0, 420.0), Config(1.0, [1.0, 2.0], 0.02);
    A3Turned();
    ExactDenominator();
    FrameIsA3();
    WindowIsA3();
    GeometryIs(window, paper, config);
  }

  lemma ValidExample()
    ensures Config(1.0, [1.0, 2.0], 0.02).Valid()
  {
  }

  lemma WindowIsA3()
    ensures Window(0.0, 0.0, 420.0, 297.0).Width() == 420.0 && Window(0.0, 0.0, 420.0, 297.0).Height() == 297.0
  {
  }

  lemma FrameIsA3()
    ensures FrameWidth(Window(0.0, 0.0, 420.0, 297.0), 1.0) == 420.0 && FrameHeight(Window(0.0, 0.0, 420.0, 297.0), 1.0) == 297.0
  {
  }

  lemma A3Turned()
    ensures Best(420.0, 297.0, 297.0, 420.0) == Candidate(0.0, 1.0, Turned)
  {
    UprightExactly(420.0, 297.0, 297.0, 420.0);
    BestRotation(420.0, 297.0, 297.0, 420.0);
    ExactFit();
    hide Fit, Best;
    assert (420.0 - 297.0) * (297.0 - 420.0) < 0.0;
  }

  lemma ExactFit()
    ensures Fit(420.0, 297.0, 420.0, 297.0, Turned) == Candidate(0.0, 1.0, Turned)
  {
    OverUnique(1.0, 420.0, 420.0);
    OverUnique(1.0, 297.0, 297.0);
    OverUnique(0.0, 0.0, 1.0);
    hide Over;
  }

  lemma ExactDenominator()
    ensures Closest([1.0, 2.0], 1.0) == 1.0 && RelativeError(1.0, 1.0) == 0.0
  {
    assert [1.0, 2.0][..1] == [1.0];
    OverUnique(0.0, 0.0, 1.0);
  }

  /* ------------------------------------------------------------ the choice of a denominator */

  predicate Fitting(d: real, derived: real, t: real)
    requires d > 0.0
  {
    RelativeError(d, derived) <= t
  }

  lemma FittingIs(d: real, derived: real, t: real)
    requires d > 0.0
    ensures Fitting(d, derived, t) <==> Abs(d - derived) <= t * d
  {
    OverAtMost(Abs(d - derived), d, t);
    hide Over;
  }

  /** If some denominator fits but the nearest one does not, then the nearest one is too small. */
  lemma MissedFromBelow(candidates: seq<real>, derived: real, t: real, e: real)
    requires 0.0 <= t < 1.0 && derived > 0.0
    requires candidates != [] && (forall d :: d in candidates ==> d > 0.0)
    requires e in candidates && Fitting(e, derived, t)
    ensures Closest(candidates, derived) > 0.0
    ensures Closest(candidates, derived) >= derived ==> Fitting(Closest(candidates, derived), derived, t)
  {
    ClosestIsNearest(candidates, derived);
    var d := Closest(candidates, derived);
    FittingIs(e, derived, t);
    FittingIs(d, derived, t);
    hide Closest, Fitting, RelativeError;
    if d >= derived {
      NearerFits(d, e, derived, t);
    }
  }

  lemma NearerFits(d: real, e: real, m: real, t: real)
    requires 0.0 <= t < 1.0 && 0.0 < m <= d && e > 0.0 && Abs(d - m) <= Abs(e - m) <= t * e
    ensures Abs(d - m) <= t * d
  {
    if e >= m {
      MultiplyAtMost(1.0 - t, d, e);
      assert (1.0 - t) * d == d - t * d && (1.0 - t) * e == e - t * e;
    } else {
      MultiplyAtMost(t, e, d);
    }
  }

  /** The nearest of 100 and 104.1 to 102.04 is 100, which does not fit within 2 percent although 104.1 does. */
  lemma NearestMayMiss()
    ensures Closest([100.0, 104.1], 102.04) == 100.0
    ensures !Fitting(100.0, 102.04, 0.02) && Fitting(104.1, 102.04, 0.02)
  {
    assert [100.0, 104.1][..1] == [100.0];
    FittingIs(100.0, 102.04, 0.02);
    FittingIs(104.1, 102.04, 0.02);
    hide Fitting;
  }
}
