/** The curve y^2 - x^2 = 1 + d x^2 y^2 over the integers modulo q, and its addition law. */
module Edwards {
  import opened Modular
  import opened Primes

  datatype Curve = Curve(q: nat, d: int)

  datatype Point = Point(x: int, y: int)

  const NEUTRAL := Point(0, 1)

  /** q is a prime of the form 8k + 5 and d is not a square: what makes the addition complete. */
  ghost predicate IsComplete(c: Curve) {
    IsPrime(c.q) && c.q % 8 == 5 && !IsSquare(c.q, c.d)
  }

  ghost function Defect(d: int, x: int, y: int): int {
    y * y - x * x - 1 - d * ((x * y) * (x * y))
  }

  ghost predicate OnCurve(c: Curve, p: Point)
    requires c.q > 0
  {
    0 <= p.x < c.q && 0 <= p.y < c.q && Zero(c.q, Defect(c.d, p.x, p.y))
  }

  function Inv(q: nat, x: int): int
    requires q >= 2
  {
    Pow(x, q - 2) % q
  }

  function Add(c: Curve, p: Point, r: Point): Point
    requires c.q >= 2
  {
    var t := c.d * p.x * r.x * p.y * r.y;
    Point((p.x * r.y + r.x * p.y) * Inv(c.q, 1 + t) % c.q,
          (p.y * r.y + p.x * r.x) * Inv(c.q, 1 - t) % c.q)
  }

  lemma InvIsInverse(q: nat, x: int)
    requires IsPrime(q) && !Zero(q, x)
    ensures Cong(q, x * Inv(q, x), 1)
  {
    Fermat(q, x);
    var z := Pow(x, q - 2);
    Residue(q, z);
    Comb(q, x * (z % q) - 1, 1, x * z - 1, -x, z - z % q);
  }

  lemma Quotient(q: nat, a: int, b: int)
    requires IsPrime(q) && !Zero(q, b)
    ensures Cong(q, (a * Inv(q, b) % q) * b, a)
  {
    InvIsInverse(q, b);
    var i := Inv(q, b);
    Residue(q, a * i);
    assert (a * i % q) * b - a == b * (a * i % q - a * i) + a * (b * i - 1);
    Comb(q, (a * i % q) * b - a, b, a * i % q - a * i, a, b * i - 1);
  }

  // ---- completeness: the denominators never vanish

  lemma ScaledSquares(d: int, z: int, w: int, v: int)
    ensures (z * v) * (z * v) - d * ((w * v) * (w * v)) == (v * v) * (z * z - d * (w * w))
    ensures d * ((w * v) * (w * v)) - d == (d * (w * v + 1)) * (w * v - 1)
  {
    assert (z * v) * (z * v) == (v * v) * (z * z) && (w * v) * (w * v) == (v * v) * (w * w);
    assert (v * v) * (d * (w * w)) == d * ((v * v) * (w * w));
  }

  lemma SquareQuotient(q: nat, d: int, z: int, w: int)
    requires IsPrime(q) && !Zero(q, w) && Zero(q, z * z - d * (w * w))
    ensures IsSquare(q, d)
  {
    var v := Inv(q, w);
    InvIsInverse(q, w);
    var e := w * v;
    ScaledSquares(d, z, w, v);
    Scale(q, (z * v) * (z * v) - d * (e * e), v * v, z * z - d * (w * w));
    Scale(q, d * (e * e) - d, d * (e + 1), e - 1);
    Comb(q, (z * v) * (z * v) - d, 1, (z * v) * (z * v) - d * (e * e), 1, d * (e * e) - d);
  }

  lemma SquareOfSum(a: int, b: int)
    ensures (a + b) * (a + b) == a * a + 2 * (a * b) + b * b
  {
  }

  lemma SquareOfProduct(a: int, b: int)
    ensures (a * b) * (a * b) == (a * a) * (b * b)
  {
    assert (a * b) * (a * b) == a * (b * (a * b)) == a * (a * (b * b));
  }

  /** The square of i x1 + g e y1, and d times the square of x1 y1 (i x2 + g y2), for a sign g. */
  lemma TwistedSquares(d: int, i: int, g: int, x1: int, y1: int, x2: int, y2: int, e: int)
    requires g * g == 1 && e == d * (x1 * y1) * (x2 * y2)
    ensures (i * x1 + g * e * y1) * (i * x1 + g * e * y1)
         == (i * i) * (x1 * x1) + 2 * (g * i * e * (x1 * y1)) + (e * e) * (y1 * y1)
    ensures d * ((x1 * y1 * (i * x2 + g * y2)) * (x1 * y1 * (i * x2 + g * y2)))
         == d * ((x1 * y1) * (x1 * y1)) * ((i * i) * (x2 * x2) + y2 * y2) + 2 * (g * i * e * (x1 * y1))
  {
    var s1, w := x1 * y1, i * x2 + g * y2;
    SquareOfSum(i * x1, g * e * y1);
    SquareOfProduct(i, x1);
    SquareOfProduct(g * e, y1);
    SquareOfProduct(g, e);
    assert (i * x1) * (g * e * y1) == g * i * e * (x1 * y1);
    SquareOfSum(i * x2, g * y2);
    SquareOfProduct(i, x2);
    SquareOfProduct(g, y2);
    SquareOfProduct(s1, w);
    assert w * w == (i * i) * (x2 * x2) + 2 * ((i * x2) * (g * y2)) + y2 * y2;
    Cross(d, g, i, s1, x2, y2);
  }

  lemma Cross(d: int, g: int, i: int, s1: int, x2: int, y2: int)
    ensures d * (s1 * s1) * (2 * ((i * x2) * (g * y2))) == 2 * (g * i * (d * s1 * (x2 * y2)) * s1)
  {
    assert (i * x2) * (g * y2) == g * i * (x2 * y2);
    var t := x2 * y2;
    assert d * (s1 * s1) * (g * i * t) == g * i * (d * s1 * t) * s1;
  }

  /** If (d x1 y1 x2 y2)^2 = 1 then both squares differ by a factor d. */
  lemma SquaresDifferByD(q: nat, d: int, i: int, g: int, x1: int, y1: int, x2: int, y2: int, e: int)
    requires q > 0 && g * g == 1 && e == d * (x1 * y1) * (x2 * y2)
    requires Zero(q, i * i + 1) && Zero(q, e * e - 1)
    requires Zero(q, Defect(d, x1, y1)) && Zero(q, Defect(d, x2, y2))
    ensures Zero(q, (i * x1 + g * e * y1) * (i * x1 + g * e * y1)
                    - d * ((x1 * y1 * (i * x2 + g * y2)) * (x1 * y1 * (i * x2 + g * y2))))
  {
    var k := d * ((x1 * y1) * (x1 * y1));
    TwistedSquares(d, i, g, x1, y1, x2, y2, e);
    SquareOfUnit(d, x1 * y1, x2 * y2);
    Collect(i * i, x1 * x1, y1 * y1, x2 * x2, y2 * y2, k, d * ((x2 * y2) * (x2 * y2)), e * e);
    Comb4(q, (i * i) * (x1 * x1) + (e * e) * (y1 * y1) - k * ((i * i) * (x2 * x2) + y2 * y2),
          x1 * x1 - k * (x2 * x2), i * i + 1, y1 * y1 - 1, e * e - 1,
          1, Defect(d, x1, y1), -k, Defect(d, x2, y2));
  }

  lemma SquareOfUnit(d: int, s: int, t: int)
    ensures d * (s * s) * (d * (t * t)) == (d * s * t) * (d * s * t)
  {
    SquareOfProduct(d * s, t);
    SquareOfProduct(d, s);
    var a, b := s * s, t * t;
    assert d * a * (d * b) == d * d * a * b;
  }

  lemma Collect(i2: int, a: int, b: int, m: int, n: int, k: int, l: int, e2: int)
    requires k * l == e2
    ensures i2 * a + e2 * b - k * (i2 * m + n)
      == (a - k * m) * (i2 + 1) + (b - 1) * (e2 - 1) + 1 * (b - a - 1 - k) + -k * (n - m - 1 - l)
  {
    assert k * (n - m - 1 - l) == k * n - k * m - k - e2;
    assert k * (i2 * m + n) == i2 * (k * m) + k * n;
  }

  /** No product of two curve points makes d x1 x2 y1 y2 a square root of 1: d would be a square. */
  lemma DenominatorsNonZero(c: Curve, p: Point, r: Point)
    requires IsComplete(c) && OnCurve(c, p) && OnCurve(c, r)
    ensures !Zero(c.q, 1 + c.d * p.x * r.x * p.y * r.y)
    ensures !Zero(c.q, 1 - c.d * p.x * r.x * p.y * r.y)
  {
    var q, t := c.q, c.d * p.x * r.x * p.y * r.y;
    var e := c.d * (p.x * p.y) * (r.x * r.y);
    Regroup(c.d, p.x, p.y, r.x, r.y);
    NoUnitProduct(c, p, r, e);
    if Zero(q, 1 + e) { Scale(q, e * e - 1, e - 1, 1 + e); }
    if Zero(q, 1 - e) { Scale(q, e * e - 1, -1 - e, 1 - e); }
  }

  lemma Regroup(d: int, x1: int, y1: int, x2: int, y2: int)
    ensures d * x1 * x2 * y1 * y2 == d * (x1 * y1) * (x2 * y2)
  {
    assert x1 * x2 * y1 * y2 == (x1 * y1) * (x2 * y2);
    assert d * x1 * x2 * y1 * y2 == d * (x1 * x2 * y1 * y2);
  }

  lemma NoUnitProduct(c: Curve, p: Point, r: Point, e: int)
    requires IsComplete(c) && OnCurve(c, p) && OnCurve(c, r)
    requires e == c.d * (p.x * p.y) * (r.x * r.y)
    ensures !Zero(c.q, e * e - 1)
  {
    var q, i := c.q, Pow(2, (c.q - 1) / 4);
    if Zero(q, e * e - 1) {
      RootOfMinusOne(q);
      assert Zero(q, i * i + 1);
      FactorsNonZero(c, p, r, e);
      FactorVanishes(c, p, r, e, i, 1);
      FactorVanishes(c, p, r, e, i, -1);
      Comb(q, 2 * r.y, 1, i * r.x + 1 * r.y, -1, i * r.x + -1 * r.y);
      SmallNonZero(q, 2);
      NonZeroProduct(q, 2, r.y);
    }
  }

  lemma FactorVanishes(c: Curve, p: Point, r: Point, e: int, i: int, g: int)
    requires IsComplete(c) && OnCurve(c, p) && OnCurve(c, r)
    requires e == c.d * (p.x * p.y) * (r.x * r.y) && Zero(c.q, e * e - 1)
    requires g * g == 1 && Zero(c.q, i * i + 1)
    ensures Zero(c.q, i * r.x + g * r.y)
  {
    var q, w := c.q, i * r.x + g * r.y;
    FactorsNonZero(c, p, r, e);
    SquaresDifferByD(q, c.d, i, g, p.x, p.y, r.x, r.y, e);
    if !Zero(q, w) {
      NonZeroProduct(q, p.x * p.y, w);
      SquareQuotient(q, c.d, i * p.x + g * e * p.y, p.x * p.y * w);
    }
  }

  lemma FactorsNonZero(c: Curve, p: Point, r: Point, e: int)
    requires IsComplete(c) && e == c.d * (p.x * p.y) * (r.x * r.y) && Zero(c.q, e * e - 1)
    ensures !Zero(c.q, p.x * p.y) && !Zero(c.q, r.y)
  {
    var q := c.q;
    if Zero(q, p.x * p.y) || Zero(q, r.y) {
      if Zero(q, p.x * p.y) {
        Scale(q, e * e, c.d * (r.x * r.y) * e, p.x * p.y);
      } else {
        Scale(q, e * e, c.d * (p.x * p.y) * r.x * e, r.y);
      }
      Comb(q, 1, 1, e * e, -1, e * e - 1);
      SmallNonZero(q, 1);
    }
  }

  // ---- closure

  lemma AddQuotients(c: Curve, p: Point, r: Point)
    requires IsComplete(c) && OnCurve(c, p) && OnCurve(c, r)
    ensures var u := c.d * (p.x * p.y) * (r.x * r.y); var s := Add(c, p, r);
            && 0 <= s.x < c.q && 0 <= s.y < c.q
            && !Zero(c.q, 1 + u) && !Zero(c.q, 1 - u)
            && Cong(c.q, s.x * (1 + u), p.x * r.y + r.x * p.y)
            && Cong(c.q, s.y * (1 - u), p.y * r.y + p.x * r.x)
  {
    var q, t := c.q, c.d * p.x * r.x * p.y * r.y;
    Regroup(c.d, p.x, p.y, r.x, r.y);
    DenominatorsNonZero(c, p, r);
    Quotient(q, p.x * r.y + r.x * p.y, 1 + t);
    Quotient(q, p.y * r.y + p.x * r.x, 1 - t);
  }

  function Norm(x: int, y: int): int { y * y - x * x }

  function Trace(x: int, y: int): int { y * y + x * x }

  lemma Expand(a: int, b: int, c: int, d: int)
    ensures (a + b) * (c + d) == a * c + a * d + b * c + b * d
  {
  }

  lemma Interleave(a: int, b: int, c: int, d: int)
    ensures (a * b) * (c * d) == (a * c) * (b * d) == (a * d) * (b * c)
  {
    assert (a * b) * (c * d) == a * (b * (c * d)) == a * (c * (b * d)) == (a * c) * (b * d);
    assert a * (b * (c * d)) == a * (d * (b * c)) == (a * d) * (b * c);
  }

  /** The squares of the two numerators of a sum, through the norms and traces of the summands. */
  lemma NumeratorSquares(x1: int, y1: int, x2: int, y2: int)
    ensures var a, b := x1 * y2 + x2 * y1, y1 * y2 + x1 * x2;
            && b * b - a * a == Norm(x1, y1) * Norm(x2, y2)
            && b * b + a * a == Trace(x1, y1) * Trace(x2, y2) + 4 * ((x1 * y1) * (x2 * y2))
  {
    SquareOfSum(x1 * y2, x2 * y1);
    SquareOfSum(y1 * y2, x1 * x2);
    SquareOfProduct(x1, y2);
    SquareOfProduct(x2, y1);
    SquareOfProduct(y1, y2);
    SquareOfProduct(x1, x2);
    Interleave(x1, y2, x2, y1);
    Interleave(y1, y2, x1, x2);
    var r1, t1, r2, t2 := x1 * x1, y1 * y1, x2 * x2, y2 * y2;
    assert (y1 * x1) * (y2 * x2) == (x1 * y1) * (x2 * y2);
    Expand(t1, -r1, t2, -r2);
    Expand(t1, r1, t2, r2);
  }

  lemma NumeratorProduct(x1: int, y1: int, x2: int, y2: int)
    ensures (x1 * y2 + x2 * y1) * (y1 * y2 + x1 * x2)
      == Trace(x1, y1) * (x2 * y2) + Trace(x2, y2) * (x1 * y1)
  {
    Expand(x1 * y2, x2 * y1, y1 * y2, x1 * x2);
    Interleave(x1, y2, y1, y2);
    Interleave(x1, y2, x1, x2);
    Interleave(x2, y1, y1, y2);
    Interleave(x2, y1, x1, x2);
  }

  lemma TraceSquared(x: int, y: int)
    ensures Trace(x, y) * Trace(x, y) == Norm(x, y) * Norm(x, y) + 4 * ((x * y) * (x * y))
  {
    SquareOfProduct(x, y);
    SquareOfSum(y * y, x * x);
    SquareOfSum(y * y, -(x * x));
  }

  /** The defect of the sum, cleared of denominators, in the norms g and the areas s of the summands. */
  lemma ClearedDefect(d: int, x1: int, y1: int, x2: int, y2: int, u: int)
    requires u == d * (x1 * y1) * (x2 * y2)
    ensures var a, b := x1 * y2 + x2 * y1, y1 * y2 + x1 * x2;
            var g1, g2, r1, r2 := Norm(x1, y1), Norm(x2, y2), d * ((x1 * y1) * (x1 * y1)), d * ((x2 * y2) * (x2 * y2));
            (b * b) * ((1 + u) * (1 + u)) - (a * a) * ((1 - u) * (1 - u)) - d * ((a * b) * (a * b))
            == (g1 * g2) * (1 + u * u) - r2 * (g1 * g1) - r1 * (g2 * g2)
  {
    var a, b := x1 * y2 + x2 * y1, y1 * y2 + x1 * x2;
    var s1, s2, h1, h2 := x1 * y1, x2 * y2, Trace(x1, y1), Trace(x2, y2);
    NumeratorSquares(x1, y1, x2, y2);
    NumeratorProduct(x1, y1, x2, y2);
    TraceSquared(x1, y1);
    TraceSquared(x2, y2);
    SquareOfSum(h1 * s2, h2 * s1);
    SquareOfProduct(h1, s2);
    SquareOfProduct(h2, s1);
    Interleave(h1, s2, h2, s1);
    TwoSquares(b * b, a * a, u);
    SquareOfProduct(s1, s2);
    ClearedDefectSum(d, u, h1 * h2, s1 * s2, s1 * s1, s2 * s2, Norm(x1, y1) * Norm(x1, y1), Norm(x2, y2) * Norm(x2, y2));
    assert (a * b) * (a * b) == (h1 * h1) * (s2 * s2) + 2 * ((h1 * h2) * (s1 * s2)) + (h2 * h2) * (s1 * s1);
  }

  lemma TwoSquares(m: int, n: int, u: int)
    ensures m * ((1 + u) * (1 + u)) - n * ((1 - u) * (1 - u)) == (m - n) * (1 + u * u) + 2 * u * (m + n)
  {
    Expand(1, u, 1, u);
    Expand(1, -u, 1, -u);
  }

  lemma ClearedDefectSum(d: int, u: int, hh: int, ss: int, a1: int, a2: int, gg1: int, gg2: int)
    requires u == d * ss && a1 * a2 == ss * ss
    ensures 2 * u * (hh + 4 * ss) - d * ((gg1 + 4 * a1) * a2 + 2 * (hh * ss) + (gg2 + 4 * a2) * a1)
      == -(d * a2) * gg1 - (d * a1) * gg2
  {
    assert (gg1 + 4 * a1) * a2 == gg1 * a2 + 4 * (ss * ss);
    assert (gg2 + 4 * a2) * a1 == gg2 * a1 + 4 * (ss * ss);
    assert d * (gg1 * a2) == (d * a2) * gg1;
    assert d * (gg2 * a1) == (d * a1) * gg2;
  }

  /** The cleared equation of the sum lies in the ideal of the summands' equations. */
  lemma ClosureIdentity(g1: int, g2: int, r1: int, r2: int)
    ensures (g1 * g2) * (1 + r1 * r2) - r2 * (g1 * g1) - r1 * (g2 * g2) - (1 - r1 * r2) * (1 - r1 * r2)
      == (g2 * (1 + r1 * r2) - r2 * (g1 + 1 + r1)) * (g1 - 1 - r1)
         + ((1 + r1) * (1 + r1 * r2) - r1 * (g2 + 1 + r2)) * (g2 - 1 - r2)
  {
    var k1, k2, w := 1 + r1, 1 + r2, 1 + r1 * r2;
    Residual(r1, r2);
    ShiftProduct(w, g1, g2, k1, k2);
    ShiftSquare(r2, g1, k1);
    ShiftSquare(r1, g2, k2);
    Gather(g2 * w, r2 * (g1 + k1), k1 * w, r1 * (g2 + k2), g1 - k1, g2 - k2);
  }

  lemma ShiftProduct(w: int, g1: int, g2: int, k1: int, k2: int)
    ensures (g1 * g2) * w == k1 * k2 * w + (g2 * w) * (g1 - k1) + (k1 * w) * (g2 - k2)
  {
    assert g1 * g2 == k1 * k2 + g2 * (g1 - k1) + k1 * (g2 - k2);
  }

  lemma ShiftSquare(r: int, g: int, k: int)
    ensures r * (g * g) == r * (k * k) + (r * (g + k)) * (g - k)
  {
    assert g * g == k * k + (g + k) * (g - k);
  }

  lemma Gather(a: int, b: int, c: int, d: int, f1: int, f2: int)
    ensures (a - b) * f1 + (c - d) * f2 == a * f1 + c * f2 - b * f1 - d * f2
  {
  }

  lemma Residual(r1: int, r2: int)
    ensures (1 + r1) * (1 + r2) * (1 + r1 * r2) - r2 * ((1 + r1) * (1 + r1)) - r1 * ((1 + r2) * (1 + r2))
      == (1 - r1 * r2) * (1 - r1 * r2)
  {
  }

  lemma ClearDenominators(q: nat, d: int, x: int, y: int, m: int, n: int, a: int, b: int)
    requires q > 0 && Cong(q, x * m, a) && Cong(q, y * n, b)
    ensures Cong(q, ((m * n) * (m * n)) * Defect(d, x, y),
                    (b * b) * (m * m) - (a * a) * (n * n) - d * ((a * b) * (a * b)) - (m * n) * (m * n))
  {
    var X, Y := x * m, y * n;
    SquareOfProduct(x, m);
    SquareOfProduct(y, n);
    SquareOfProduct(m, n);
    SquareOfProduct(X, Y);
    SquareOfProduct(x, y);
    Distribute(d, x * x, y * y, m * m, n * n);
    CongMul(q, X, a, X, a);
    CongMul(q, Y, b, Y, b);
    CongMul(q, X, a, Y, b);
    CongMul(q, X * Y, a * b, X * Y, a * b);
    CongCombination(q, d, m * m, n * n, X * X, a * a, Y * Y, b * b, (X * Y) * (X * Y), (a * b) * (a * b));
  }

  lemma CongCombination(q: nat, d: int, m: int, n: int, x: int, a: int, y: int, b: int, z: int, c: int)
    requires q > 0 && Cong(q, x, a) && Cong(q, y, b) && Cong(q, z, c)
    ensures Cong(q, y * m - x * n - d * z - m * n, b * m - a * n - d * c - m * n)
  {
    Comb4(q, y * m - x * n - d * z - m * n - (b * m - a * n - d * c - m * n), m, y - b, -n, x - a, -d, z - c, 0, 0);
  }

  lemma Distribute(d: int, xx: int, yy: int, mm: int, nn: int)
    ensures (mm * nn) * (yy - xx - 1 - d * (xx * yy))
      == (yy * nn) * mm - (xx * mm) * nn - d * ((xx * mm) * (yy * nn)) - mm * nn
  {
    assert (xx * mm) * (yy * nn) == (mm * nn) * (xx * yy);
    assert d * ((mm * nn) * (xx * yy)) == (mm * nn) * (d * (xx * yy));
  }

  /** The sum of two curve points is a curve point. */
  lemma AddOnCurve(c: Curve, p: Point, r: Point)
    requires IsComplete(c) && OnCurve(c, p) && OnCurve(c, r)
    ensures OnCurve(c, Add(c, p, r))
  {
    var q, d, s := c.q, c.d, Add(c, p, r);
    var u := d * (p.x * p.y) * (r.x * r.y);
    var m, n, a, b := 1 + u, 1 - u, p.x * r.y + r.x * p.y, p.y * r.y + p.x * r.x;
    AddQuotients(c, p, r);
    ClearDenominators(q, d, s.x, s.y, m, n, a, b);
    NumeratorsOnCurve(q, d, p.x, p.y, r.x, r.y, u);
    var e := (b * b) * (m * m) - (a * a) * (n * n) - d * ((a * b) * (a * b)) - (m * n) * (m * n);
    Comb(q, ((m * n) * (m * n)) * Defect(d, s.x, s.y), 1, ((m * n) * (m * n)) * Defect(d, s.x, s.y) - e, 1, e);
    NonZeroProduct(q, m, n);
    NonZeroProduct(q, m * n, m * n);
    Euclid(q, (m * n) * (m * n), Defect(d, s.x, s.y));
  }

  lemma NumeratorsOnCurve(q: nat, d: int, x1: int, y1: int, x2: int, y2: int, u: int)
    requires q > 0 && Zero(q, Defect(d, x1, y1)) && Zero(q, Defect(d, x2, y2))
    requires u == d * (x1 * y1) * (x2 * y2)
    ensures var a, b, m, n := x1 * y2 + x2 * y1, y1 * y2 + x1 * x2, 1 + u, 1 - u;
            Zero(q, (b * b) * (m * m) - (a * a) * (n * n) - d * ((a * b) * (a * b)) - (m * n) * (m * n))
  {
    var g1, g2, r1, r2 := Norm(x1, y1), Norm(x2, y2), d * ((x1 * y1) * (x1 * y1)), d * ((x2 * y2) * (x2 * y2));
    ClearedDefect(d, x1, y1, x2, y2, u);
    SquareOfUnit(d, x1 * y1, x2 * y2);
    assert u * u == r1 * r2;
    assert (1 + u) * (1 - u) == 1 - r1 * r2;
    ClosureIdentity(g1, g2, r1, r2);
    Comb(q, (g1 * g2) * (1 + r1 * r2) - r2 * (g1 * g1) - r1 * (g2 * g2) - (1 - r1 * r2) * (1 - r1 * r2),
         g2 * (1 + r1 * r2) - r2 * (g1 + 1 + r1), Defect(d, x1, y1),
         (1 + r1) * (1 + r1 * r2) - r1 * (g2 + 1 + r2), Defect(d, x2, y2));
  }
}
