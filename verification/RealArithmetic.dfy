/**
 The few facts about real products and quotients that plot geometry needs. Quotients have a name so
 that larger proofs can keep them closed.
 */
module RealArithmetic {
  function Abs(x: real): real {
    if x < 0.0 then -x else x
  }

  function Over(x: real, y: real): real
    requires y != 0.0
  {
    x / y
  }

  lemma OverIs(x: real, y: real)
    requires y != 0.0
    ensures Over(x, y) * y == x
  {
  }

  lemma Scaled(a: real, b: real, k: real)
    requires k > 0.0
    ensures (a * k < b * k <==> a < b) && (a * k == b * k <==> a == b)
  {
  }

  lemma OverUnique(r: real, n: real, d: real)
    requires d > 0.0 && r * d == n
    ensures Over(n, d) == r
  {
    OverIs(n, d);
    Scaled(Over(n, d), r, d);
    hide Over;
  }

  lemma OverPositive(x: real, y: real)
    requires y > 0.0
    ensures Over(x, y) > 0.0 <==> x > 0.0
  {
    OverIs(x, y);
    Scaled(0.0, Over(x, y), y);
    hide Over;
  }

  lemma OverOrder(a: real, b: real, k: real)
    requires k > 0.0
    ensures Over(a, k) < Over(b, k) <==> a < b
  {
    OverIs(a, k);
    OverIs(b, k);
    Scaled(Over(a, k), Over(b, k), k);
    hide Over;
  }

  lemma OverAtMost(x: real, y: real, t: real)
    requires y > 0.0
    ensures Over(x, y) <= t <==> x <= t * y
  {
    OverIs(x, y);
    Scaled(t, Over(x, y), y);
    hide Over;
  }

  lemma ProductPositive(x: real, y: real)
    requires x > 0.0 && y > 0.0
    ensures x * y > 0.0
  {
  }

  lemma MultiplyAtMost(t: real, x: real, y: real)
    requires t >= 0.0 && x <= y
    ensures t * x <= t * y
  {
  }

  lemma MultiplyLess(a: real, b: real, c: real, d: real)
    requires 0.0 < a < b && 0.0 < c < d
    ensures a * c < b * d
  {
    Scaled(a, b, c);
    Scaled(c, d, b);
  }

  lemma AbsScaled(x: real, k: real)
    requires k > 0.0
    ensures Abs(x * k) == Abs(x) * k
  {
  }

  lemma AbsSwap(x: real, y: real)
    ensures Abs(x - y) == Abs(y - x)
  {
  }

  /** `a / b < c / d` by cross products. */
  lemma CrossLess(a: real, b: real, c: real, d: real)
    requires b > 0.0 && d > 0.0 && a * d < c * b
    ensures Over(a, b) < Over(c, d)
  {
    OverIs(a, b);
    OverIs(c, d);
    hide Over;
    Crossed(Over(a, b), b, Over(c, d), d);
  }

  lemma Crossed(x: real, b: real, y: real, d: real)
    requires b > 0.0 && d > 0.0 && (x * b) * d < (y * d) * b
    ensures x < y
  {
    ProductPositive(b, d);
    assert (x * b) * d == x * (b * d) && (y * d) * b == y * (b * d);
    Scaled(x, y, b * d);
  }

  lemma SignOfProduct(x: real, y: real)
    ensures x * y >= 0.0 <==> (x >= 0.0 && y >= 0.0) || (x <= 0.0 && y <= 0.0)
  {
  }

  /** A common factor does not change how far two numbers differ relative to their mean. */
  lemma RelativeDifference(a: real, b: real, k: real)
    requires a > 0.0 && b > 0.0 && k > 0.0
    ensures a * k + b * k > 0.0
    ensures Over(Abs(a - b), (a + b) / 2.0) == Over(2.0 * Abs(a * k - b * k), a * k + b * k)
  {
    ProductPositive(a, k);
    ProductPositive(b, k);
    var r := Over(Abs(a - b), (a + b) / 2.0);
    OverIs(Abs(a - b), (a + b) / 2.0);
    hide Over;
    AbsScaled(a - b, k);
    assert (a - b) * k == a * k - b * k;
    Halves(r, a, b, Abs(a - b), k);
    OverUnique(r, 2.0 * Abs(a * k - b * k), a * k + b * k);
  }

  lemma Halves(r: real, a: real, b: real, n: real, k: real)
    requires r * ((a + b) / 2.0) == n
    ensures r * (a * k + b * k) == 2.0 * (n * k)
  {
    var m := (a + b) / 2.0;
    assert a * k + b * k == 2.0 * (m * k);
    assert r * (m * k) == (r * m) * k;
  }

  /** The products on which the choice of a rotation rests. */
  lemma SquaredSides(a: real, b: real, c: real, d: real)
    requires 0.0 < a < b && 0.0 < c && d > 0.0
    ensures (a * c) * (a * d) < (b * c) * (b * d)
    ensures (c * a) * (d * a) < (c * b) * (d * b)
  {
    ProductPositive(c, d);
    MultiplyLess(a, b, a, b);
    Scaled(a * a, b * b, c * d);
    Regroup(a, c, d);
    Regroup(b, c, d);
  }

  lemma Regroup(a: real, c: real, d: real)
    ensures (a * c) * (a * d) == (a * a) * (c * d) && (c * a) * (d * a) == (a * a) * (c * d)
  {
  }

  /** Numbers further apart with the same product differ more relative to their sum. */
  lemma FurtherApart(x: real, y: real, u: real, v: real)
    requires x > 0.0 && y > 0.0 && u > v > 0.0
    requires x * v < u * y && y * v < u * x
    ensures Over(2.0 * Abs(x - y), x + y) < Over(2.0 * Abs(u - v), u + v)
  {
    var xu, xv, yu, yv := u * x, x * v, u * y, y * v;
    assert (x - y) * (u + v) == xu + xv - yu - yv;
    assert (u - v) * (x + y) == xu + yu - xv - yv;
    assert (y - x) * (u + v) == yu + yv - xu - xv;
    assert Abs(x - y) * (u + v) < (u - v) * (x + y);
    Doubled(Abs(x - y), u + v, u - v, x + y);
    hide Over;
    CrossLess(2.0 * Abs(x - y), x + y, 2.0 * Abs(u - v), u + v);
  }

  lemma Doubled(a: real, b: real, c: real, d: real)
    requires a * b < c * d
    ensures (2.0 * a) * b < (2.0 * c) * d
  {
  }
}
