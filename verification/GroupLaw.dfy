/** Associativity of the addition law, from a cleared-denominator identity that holds for both coordinates. */
module GroupLaw {
  import opened Modular
  import opened Primes
  import opened Edwards

  // Each summand is seen through p = y + x, m = y - x, s = x y and h = x^2 + y^2, where p^2 = h + 2s,
  // m^2 = h - 2s and, on the curve, p m = 1 + d s^2. The sign e covers both coordinates of the sum.

  /** The common denominator of (P1 + P2) + P3, multiplied out. */
  function Den(d: int, s1: int, h1: int, s2: int, h2: int, s3: int): int {
    1 - (d * s1 * s2) * (d * s1 * s2) + d * s3 * (h1 * s2 + h2 * s1)
  }

  function Kappa(d: int, s1: int, h1: int, s2: int, s3: int, h3: int): int {
    d * s2 * (s1 * s1 - s3 * s3) + (h3 * s1 - h1 * s3)
  }

  function Inner(d: int, e: int, a: int, b: int, c: int, s1: int, h1: int, s2: int, h2: int, s3: int, h3: int): int {
    a * Kappa(d, s1, h1, s2, s3, h3) - e * (s1 * b * Den(d, s2, h2, s3, h3, s1) - s3 * c * Den(d, s1, h1, s2, h2, s3))
  }

  function F0(d: int, e: int, a: int, b: int, c: int, s1: int, h1: int, s3: int, h3: int): int {
    a * (h3 * s1 - h1 * s3) - e * (s1 * b - s3 * c) + d * s1 * s3 * (s1 * c - s3 * b)
  }

  function F1(e: int, a: int, b: int, c: int, s1: int, h1: int, s3: int, h3: int): int {
    a * (s1 * s1 - s3 * s3) - e * (s1 * s1 * ((h3 + 2 * s3) * b) - s3 * s3 * ((h1 + 2 * s1) * c))
  }

  function FF(d: int, e: int, a: int, b: int, c: int, s1: int, h1: int, s2: int, s3: int, h3: int): int {
    F0(d, e, a, b, c, s1, h1, s3, h3) + d * s2 * F1(e, a, b, c, s1, h1, s3, h3)
  }

  lemma F0Zero(q: nat, d: int, e: int, a: int, b: int, c: int, s1: int, h1: int, s3: int, h3: int)
    requires q > 0
    requires Cong(q, (e + d * s1 * s1) * c, (h1 - 2 * s1) * a)
    requires Cong(q, (e + d * s3 * s3) * b, (h3 - 2 * s3) * a)
    ensures Zero(q, F0(d, e, a, b, c, s1, h1, s3, h3))
  {
    var x, y := (e + d * s1 * s1) * c - (h1 - 2 * s1) * a, (e + d * s3 * s3) * b - (h3 - 2 * s3) * a;
    F0Identity(d, e, a, b, c, s1, h1, s3, h3);
    Comb(q, F0(d, e, a, b, c, s1, h1, s3, h3), s3, x, -s1, y);
  }

  lemma F0Identity(d: int, e: int, a: int, b: int, c: int, s1: int, h1: int, s3: int, h3: int)
    ensures F0(d, e, a, b, c, s1, h1, s3, h3)
         == s3 * ((e + d * s1 * s1) * c - (h1 - 2 * s1) * a) + -s1 * ((e + d * s3 * s3) * b - (h3 - 2 * s3) * a)
  {
    SpreadPair(s3, (e + d * s1 * s1) * c, (h1 - 2 * s1) * a);
    SpreadPair(-s1, (e + d * s3 * s3) * b, (h3 - 2 * s3) * a);
    CurveTerm(d, e, s1, s3, c);
    CurveTerm(d, e, s3, s1, b);
    SpurTerm(h1, s1, s3, a);
    SpurTerm(h3, s3, s1, a);
    F0Parts(d, e, a, b, c, s1, h1, s3, h3);
    NegatedLeft(s1, (e + d * s3 * s3) * b);
    NegatedLeft(s1, (h3 - 2 * s3) * a);
  }

  lemma SpreadPair(t: int, x: int, y: int)
    ensures t * (x - y) == t * x - t * y
  {
  }

  lemma NegatedLeft(s: int, x: int)
    ensures -s * x == 0 - s * x
  {
  }

  lemma CurveTerm(d: int, e: int, s: int, t: int, c: int)
    ensures t * ((e + d * s * s) * c) == e * (t * c) + (d * (s * t)) * (s * c)
  {
    assert (e + d * s * s) * c == e * c + (d * s * s) * c;
    assert t * ((d * s * s) * c) == (d * (s * t)) * (s * c);
    assert t * (e * c) == e * (t * c);
  }

  lemma SpurTerm(h: int, s: int, t: int, a: int)
    ensures t * ((h - 2 * s) * a) == a * (h * t) - 2 * ((s * t) * a)
  {
    assert (h - 2 * s) * a == h * a - 2 * (s * a);
    assert t * (h * a) == a * (h * t) && t * (2 * (s * a)) == 2 * ((s * t) * a);
  }

  lemma F0Parts(d: int, e: int, a: int, b: int, c: int, s1: int, h1: int, s3: int, h3: int)
    ensures F0(d, e, a, b, c, s1, h1, s3, h3)
         == a * (h3 * s1) - a * (h1 * s3) - (e * (s1 * b) - e * (s3 * c)) + ((d * (s1 * s3)) * (s1 * c) - (d * (s3 * s1)) * (s3 * b))
  {
    SpreadPair(a, h3 * s1, h1 * s3);
    SpreadPair(e, s1 * b, s3 * c);
    SpreadPair(d * (s1 * s3), s1 * c, s3 * b);
    assert d * s1 * s3 == d * (s1 * s3) && s1 * s3 == s3 * s1;
  }

  lemma F1Zero(q: nat, d: int, e: int, a: int, b: int, c: int, s1: int, h1: int, s3: int, h3: int)
    requires q > 0 && e * e == 1
    requires Cong(q, (h1 + 2 * s1) * c, (e + d * s1 * s1) * a)
    requires Cong(q, (h3 + 2 * s3) * b, (e + d * s3 * s3) * a)
    ensures Zero(q, F1(e, a, b, c, s1, h1, s3, h3))
  {
    var x, y := (h1 + 2 * s1) * c - (e + d * s1 * s1) * a, (h3 + 2 * s3) * b - (e + d * s3 * s3) * a;
    F1Identity(d, e, a, (h3 + 2 * s3) * b, (h1 + 2 * s1) * c, s1 * s1, s3 * s3);
    LeftSquare(d, s1);
    LeftSquare(d, s3);
    Comb(q, F1(e, a, b, c, s1, h1, s3, h3), e * (s3 * s3), x, -(e * (s1 * s1)), y);
  }

  lemma LeftSquare(d: int, s: int)
    ensures d * s * s == d * (s * s)
  {
  }

  lemma F1Identity(d: int, e: int, a: int, b3: int, c1: int, r1: int, r3: int)
    requires e * e == 1
    ensures a * (r1 - r3) - e * (r1 * b3 - r3 * c1)
      == (e * r3) * (c1 - (e + d * r1) * a) + -(e * r1) * (b3 - (e + d * r3) * a)
  {
    assert e == 1 || e == -1;
  }

  /** Inner as a polynomial in s2, the part in h2 apart. */
  lemma InnerSplit(d: int, e: int, a: int, b: int, c: int, s1: int, h1: int, s2: int, h2: int, s3: int, h3: int)
    requires e * e == 1
    ensures Inner(d, e, a, b, c, s1, h1, s2, h2, s3, h3)
         == FF(d, e, a, b, c, s1, h1, s2, s3, h3)
            - e * (d * (s1 * s3) * ((e + d * s2 * s2) * (s1 * c - s3 * b) + (h2 - 2 * s2) * (s1 * b - s3 * c)))
  {
    var X, Y, v, s := s1 * b - s3 * c, s1 * c - s3 * b, d * s2, s1 * s3;
    var k0, k1, Z := a * (h3 * s1 - h1 * s3), a * (s1 * s1 - s3 * s3), s1 * s1 * (h3 * b) - s3 * s3 * (h1 * c);
    InnerTerms(d, e, a, b, c, s1, h1, s2, h2, s3, h3);
    FFTerms(d, e, a, b, c, s1, h1, s2, s3, h3);
    TailTerms(d, e, s, s2, h2, X, Y);
    Assemble(e, v, k0, k1, X, d * s * Y, Z, v * s * X, v * v * s * Y, d * s * h2 * X);
  }

  lemma InnerTerms(d: int, e: int, a: int, b: int, c: int, s1: int, h1: int, s2: int, h2: int, s3: int, h3: int)
    ensures var X, Y, v, s := s1 * b - s3 * c, s1 * c - s3 * b, d * s2, s1 * s3;
            Inner(d, e, a, b, c, s1, h1, s2, h2, s3, h3)
            == a * (h3 * s1 - h1 * s3) + v * (a * (s1 * s1 - s3 * s3))
            - e * (X + v * (s1 * s1 * (h3 * b) - s3 * s3 * (h1 * c)) + v * v * s * Y + d * s * h2 * X)
  {
    DenTerms(d, s1, b, c, h1, s2, h2, s3, h3);
    KappaTerms(d, a, s1, h1, s2, s3, h3);
  }

  lemma FFTerms(d: int, e: int, a: int, b: int, c: int, s1: int, h1: int, s2: int, s3: int, h3: int)
    ensures var X, Y, v, s := s1 * b - s3 * c, s1 * c - s3 * b, d * s2, s1 * s3;
            FF(d, e, a, b, c, s1, h1, s2, s3, h3)
            == a * (h3 * s1 - h1 * s3) - e * X + d * s * Y + v * (a * (s1 * s1 - s3 * s3))
            - v * (e * (s1 * s1 * (h3 * b) - s3 * s3 * (h1 * c))) - 2 * e * (v * s * X)
  {
    var X, v, s := s1 * b - s3 * c, d * s2, s1 * s3;
    F1Terms(e, a, b, c, s1, h1, s3, h3);
    F0Terms(d, e, a, b, c, s1, h1, s3, h3);
    LastTerms(e, v, a * (s1 * s1 - s3 * s3), s1 * s1 * (h3 * b) - s3 * s3 * (h1 * c), s * X, v * s * X);
  }

  lemma KappaTerms(d: int, a: int, s1: int, h1: int, s2: int, s3: int, h3: int)
    ensures a * Kappa(d, s1, h1, s2, s3, h3) == a * (h3 * s1 - h1 * s3) + d * s2 * (a * (s1 * s1 - s3 * s3))
  {
    var k := s1 * s1 - s3 * s3;
    assert a * (d * s2 * k) == d * s2 * (a * k);
  }

  lemma F0Terms(d: int, e: int, a: int, b: int, c: int, s1: int, h1: int, s3: int, h3: int)
    ensures F0(d, e, a, b, c, s1, h1, s3, h3)
         == a * (h3 * s1 - h1 * s3) - e * (s1 * b - s3 * c) + d * (s1 * s3) * (s1 * c - s3 * b)
  {
    assert d * s1 * s3 == d * (s1 * s3);
  }

  lemma LastTerms(e: int, v: int, k1: int, Z: int, x: int, vx: int)
    requires vx == v * x
    ensures v * (k1 - e * Z - 2 * e * x) == v * k1 - v * (e * Z) - 2 * e * vx
  {
    assert v * (2 * e * x) == 2 * e * (v * x);
  }

  lemma DenTerms(d: int, s1: int, b: int, c: int, h1: int, s2: int, h2: int, s3: int, h3: int)
    ensures s1 * b * Den(d, s2, h2, s3, h3, s1) - s3 * c * Den(d, s1, h1, s2, h2, s3)
      == (s1 * b - s3 * c) + d * s2 * (s1 * s1 * (h3 * b) - s3 * s3 * (h1 * c))
         + (d * s2) * (d * s2) * (s1 * s3) * (s1 * c - s3 * b) + d * (s1 * s3) * h2 * (s1 * b - s3 * c)
  {
    DenTerm(d, s1, b, s2, h2, s3, h3);
    DenTerm(d, s3, c, s2, h2, s1, h1);
    assert d * s1 * s2 == d * s2 * s1 && s3 * s1 == s1 * s3;
    var w, t := (d * s2) * (d * s2) * (s1 * s3), d * (s1 * s3) * h2;
    assert w * (s1 * c - s3 * b) == w * (s1 * c) - w * (s3 * b);
    assert t * (s1 * b - s3 * c) == t * (s1 * b) - t * (s3 * c);
    Difference(d * s2, s1 * s1 * (h3 * b), s3 * s3 * (h1 * c));
  }

  lemma Difference(v: int, x: int, y: int)
    ensures v * (x - y) == v * x - v * y
  {
  }

  lemma DenTerm(d: int, s1: int, b: int, s2: int, h2: int, s3: int, h3: int)
    ensures s1 * b * Den(d, s2, h2, s3, h3, s1)
         == s1 * b - (d * s2) * (d * s2) * (s1 * s3) * (s3 * b) + d * s2 * (s1 * s1 * (h3 * b)) + d * (s1 * s3) * h2 * (s1 * b)
  {
    var u, v := s1 * b, d * s2;
    SquareTerm(v, s1, s3, b);
    assert u * (d * s1 * (h2 * s3)) == d * (s1 * s3) * h2 * u;
    TraceTerm(d, s1, h3, s2, b);
    Spread(u, (v * s3) * (v * s3), d * s1, h2 * s3, h3 * s2);
  }

  lemma Spread(u: int, x: int, y: int, z: int, w: int)
    ensures u * (1 - x + y * (z + w)) == u - u * x + u * (y * z) + u * (y * w)
  {
  }

  lemma SquareTerm(v: int, s1: int, s3: int, b: int)
    ensures s1 * b * ((v * s3) * (v * s3)) == v * v * (s1 * s3) * (s3 * b)
  {
  }

  lemma TraceTerm(d: int, s1: int, h3: int, s2: int, b: int)
    ensures s1 * b * (d * s1 * (h3 * s2)) == d * s2 * (s1 * s1 * (h3 * b))
  {
  }

  lemma F1Terms(e: int, a: int, b: int, c: int, s1: int, h1: int, s3: int, h3: int)
    ensures F1(e, a, b, c, s1, h1, s3, h3)
         == a * (s1 * s1 - s3 * s3) - e * (s1 * s1 * (h3 * b) - s3 * s3 * (h1 * c)) - 2 * e * (s1 * s3 * (s1 * b - s3 * c))
  {
    ShiftedTrace(s1, s3, h3, b);
    ShiftedTrace(s3, s1, h1, c);
    assert s1 * s3 == s3 * s1;
  }

  lemma ShiftedTrace(s1: int, s3: int, h3: int, b: int)
    ensures s1 * s1 * ((h3 + 2 * s3) * b) == s1 * s1 * (h3 * b) + 2 * (s1 * s3 * (s1 * b))
  {
  }

  lemma TailTerms(d: int, e: int, s: int, s2: int, h2: int, X: int, Y: int)
    ensures d * s * ((e + d * s2 * s2) * Y + (h2 - 2 * s2) * X)
      == e * (d * s * Y) + (d * s2) * (d * s2) * s * Y + d * s * h2 * X - 2 * (d * s2 * s * X)
  {
  }

  lemma Assemble(e: int, v: int, k0: int, k1: int, X: int, tY: int, Z: int, vX: int, wY: int, hX: int)
    requires e * e == 1
    ensures k0 + v * k1 - e * (X + v * Z + wY + hX)
      == k0 - e * X + tY + v * k1 - v * (e * Z) - 2 * e * vX - e * (e * tY + wY + hX - 2 * vX)
  {
    assert e == 1 || e == -1;
  }

  /** A point seen through p and m, for the sign e. */
  ghost predicate Factored(q: nat, d: int, e: int, p: int, m: int, s: int, h: int)
    requires q > 0
  {
    p * p == h + 2 * s && m * m == h - 2 * s && Cong(q, p * m, e + d * s * s)
  }

  lemma Exchanges(q: nat, d: int, e: int, p: int, m: int, s: int, h: int, z: int)
    requires q > 0 && Factored(q, d, e, p, m, s, h)
    ensures Cong(q, (e + d * s * s) * (m * z), (h - 2 * s) * (p * z))
    ensures Cong(q, (h + 2 * s) * (m * z), (e + d * s * s) * (p * z))
    ensures Cong(q, (e + d * s * s) * (p * z), (h + 2 * s) * (m * z))
    ensures Cong(q, (h - 2 * s) * (p * z), (e + d * s * s) * (m * z))
  {
    var k := e + d * s * s;
    assert (h - 2 * s) * (p * z) == (p * m) * (m * z) by { Interleave(m, m, p, z); }
    assert (h + 2 * s) * (m * z) == (p * m) * (p * z) by { Interleave(p, p, m, z); }
    Scale(q, k * (m * z) - (p * m) * (m * z), -(m * z), p * m - k);
    Scale(q, (p * m) * (m * z) - k * (m * z), m * z, p * m - k);
    Scale(q, k * (p * z) - (p * m) * (p * z), -(p * z), p * m - k);
    Scale(q, (p * m) * (p * z) - k * (p * z), p * z, p * m - k);
  }

  lemma CoefficientZero(q: nat, d: int, e: int, a: int, b: int, c: int, s1: int, h1: int, s2: int, s3: int, h3: int)
    requires q > 0 && e * e == 1
    requires Cong(q, (e + d * s1 * s1) * c, (h1 - 2 * s1) * a) && Cong(q, (h1 + 2 * s1) * c, (e + d * s1 * s1) * a)
    requires Cong(q, (e + d * s3 * s3) * b, (h3 - 2 * s3) * a) && Cong(q, (h3 + 2 * s3) * b, (e + d * s3 * s3) * a)
    ensures Zero(q, FF(d, e, a, b, c, s1, h1, s2, s3, h3))
  {
    F0Zero(q, d, e, a, b, c, s1, h1, s3, h3);
    F1Zero(q, d, e, a, b, c, s1, h1, s3, h3);
    var f0, f1 := F0(d, e, a, b, c, s1, h1, s3, h3), F1(e, a, b, c, s1, h1, s3, h3);
    Comb(q, f0 + d * s2 * f1, 1, f0, d * s2, f1);
  }

  /** The identity behind associativity: the coefficients of p2 and of m2 vanish together. */
  lemma InnersCancel(q: nat, d: int, e: int, p1: int, m1: int, s1: int, h1: int,
                     p2: int, m2: int, s2: int, h2: int, p3: int, m3: int, s3: int, h3: int)
    requires q > 0 && e * e == 1
    requires Factored(q, d, e, p1, m1, s1, h1) && Factored(q, d, e, p2, m2, s2, h2) && Factored(q, d, e, p3, m3, s3, h3)
    ensures Zero(q, p2 * Inner(d, e, p1 * p3, p1 * m3, m1 * p3, s1, h1, s2, h2, s3, h3)
                    + m2 * Inner(d, e, m1 * m3, m1 * p3, p1 * m3, -s1, h1, -s2, h2, -s3, h3))
  {
    var a, b, c, g := p1 * p3, p1 * m3, m1 * p3, m1 * m3;
    ForwardZero(q, d, e, p1, m1, s1, h1, s2, p3, m3, s3, h3);
    MirroredZero(q, d, e, p1, m1, s1, h1, s2, p3, m3, s3, h3);
    Exchanges(q, d, e, p2, m2, s2, h2, 1);
    SplitForward(d, e, a, b, c, s1, h1, s2, h2, s3, h3);
    SplitMirrored(d, e, g, b, c, s1, h1, s2, h2, s3, h3);
    CancelTails(q, e * (d * (s1 * s3)), e + d * s2 * s2, h2, s2, p2, m2, s1 * b - s3 * c, s1 * c - s3 * b,
                FF(d, e, a, b, c, s1, h1, s2, s3, h3), FF(d, e, g, c, b, -s1, h1, -s2, -s3, h3));
  }

  lemma ForwardZero(q: nat, d: int, e: int, p1: int, m1: int, s1: int, h1: int, s2: int, p3: int, m3: int, s3: int, h3: int)
    requires q > 0 && e * e == 1
    requires Factored(q, d, e, p1, m1, s1, h1) && Factored(q, d, e, p3, m3, s3, h3)
    ensures Zero(q, FF(d, e, p1 * p3, p1 * m3, m1 * p3, s1, h1, s2, s3, h3))
  {
    Exchanges(q, d, e, p1, m1, s1, h1, p3);
    Exchanges(q, d, e, p3, m3, s3, h3, p1);
    assert p3 * p1 == p1 * p3 && m3 * p1 == p1 * m3;
    CoefficientZero(q, d, e, p1 * p3, p1 * m3, m1 * p3, s1, h1, s2, s3, h3);
  }

  /** The same for the opposite points: p and m change places and every s changes sign. */
  lemma MirroredZero(q: nat, d: int, e: int, p1: int, m1: int, s1: int, h1: int, s2: int, p3: int, m3: int, s3: int, h3: int)
    requires q > 0 && e * e == 1
    requires Factored(q, d, e, p1, m1, s1, h1) && Factored(q, d, e, p3, m3, s3, h3)
    ensures Zero(q, FF(d, e, m1 * m3, m1 * p3, p1 * m3, -s1, h1, -s2, -s3, h3))
  {
    Opposite(q, d, e, p1, m1, s1, h1);
    Opposite(q, d, e, p3, m3, s3, h3);
    ForwardZero(q, d, e, m1, p1, -s1, h1, -s2, m3, p3, -s3, h3);
  }

  lemma Opposite(q: nat, d: int, e: int, p: int, m: int, s: int, h: int)
    requires q > 0 && Factored(q, d, e, p, m, s, h)
    ensures Factored(q, d, e, m, p, -s, h)
  {
    assert m * p == p * m && d * (-s) * (-s) == d * s * s;
  }

  lemma SplitForward(d: int, e: int, a: int, b: int, c: int, s1: int, h1: int, s2: int, h2: int, s3: int, h3: int)
    requires e * e == 1
    ensures Inner(d, e, a, b, c, s1, h1, s2, h2, s3, h3)
         == FF(d, e, a, b, c, s1, h1, s2, s3, h3)
            - e * (d * (s1 * s3)) * ((e + d * s2 * s2) * (s1 * c - s3 * b) + (h2 - 2 * s2) * (s1 * b - s3 * c))
  {
    InnerSplit(d, e, a, b, c, s1, h1, s2, h2, s3, h3);
    Associate(e, d * (s1 * s3), (e + d * s2 * s2) * (s1 * c - s3 * b) + (h2 - 2 * s2) * (s1 * b - s3 * c));
  }

  lemma SplitMirrored(d: int, e: int, g: int, b: int, c: int, s1: int, h1: int, s2: int, h2: int, s3: int, h3: int)
    requires e * e == 1
    ensures Inner(d, e, g, c, b, -s1, h1, -s2, h2, -s3, h3)
         == FF(d, e, g, c, b, -s1, h1, -s2, -s3, h3)
            + e * (d * (s1 * s3)) * ((e + d * s2 * s2) * (s1 * b - s3 * c) + (h2 + 2 * s2) * (s1 * c - s3 * b))
  {
    InnerSplit(d, e, g, c, b, -s1, h1, -s2, h2, -s3, h3);
    NegatedProducts(s1, s3);
    NegatedSquare(d, s2);
    NegatedDifference(s1, b, s3, c);
    NegatedDifference(s1, c, s3, b);
    MirrorTail(Inner(d, e, g, c, b, -s1, h1, -s2, h2, -s3, h3), FF(d, e, g, c, b, -s1, h1, -s2, -s3, h3), e, d,
               (-s1) * (-s3), e + d * (-s2) * (-s2), (-s1) * b - (-s3) * c, h2 - 2 * (-s2), (-s1) * c - (-s3) * b,
               s1 * s3, e + d * s2 * s2, s1 * b - s3 * c, h2 + 2 * s2, s1 * c - s3 * b);
  }

  lemma NegatedProducts(a: int, b: int)
    ensures (-a) * (-b) == a * b
  {
  }

  lemma NegatedSquare(d: int, s: int)
    ensures d * (-s) * (-s) == d * s * s
  {
  }

  lemma NegatedDifference(a: int, b: int, c: int, d: int)
    ensures (-a) * b - (-c) * d == 0 - (a * b - c * d)
  {
  }

  /** Changing the signs in the tail of the split. */
  lemma MirrorTail(inner: int, ff: int, e: int, d: int, p: int, k: int, X: int, r: int, Y: int, p': int, k': int, X': int, r': int, Y': int)
    requires inner == ff - e * (d * p * (k * X + r * Y))
    requires p == p' && k == k' && r == r' && X == 0 - X' && Y == 0 - Y'
    ensures inner == ff + e * (d * p') * (k' * X' + r' * Y')
  {
    NegatedSum(k', X', r', Y');
    NegatedTail(e, d * p', k' * X' + r' * Y');
  }

  lemma NegatedSum(k: int, X: int, r: int, Y: int)
    ensures k * (0 - X) + r * (0 - Y) == 0 - (k * X + r * Y)
  {
  }

  lemma NegatedTail(e: int, t: int, z: int)
    ensures 0 - e * (t * (0 - z)) == e * t * z
  {
    Associate(e, t, z);
    Associate(e, t, 0 - z);
  }

  lemma Associate(e: int, t: int, z: int)
    ensures e * (t * z) == e * t * z
  {
  }

  lemma CancelTails(q: nat, t: int, k: int, h: int, s: int, p: int, m: int, X: int, Y: int, f: int, g: int)
    requires q > 0 && Zero(q, f) && Zero(q, g)
    requires Cong(q, (h - 2 * s) * p, k * m) && Cong(q, k * p, (h + 2 * s) * m)
    ensures Zero(q, p * (f - t * (k * Y + (h - 2 * s) * X)) + m * (g + t * (k * X + (h + 2 * s) * Y)))
  {
    TailsIdentity(t, k, h - 2 * s, h + 2 * s, p, m, X, Y, f, g);
    Comb4(q, p * (f - t * (k * Y + (h - 2 * s) * X)) + m * (g + t * (k * X + (h + 2 * s) * Y)),
          p, f, m, g, -(t * X), (h - 2 * s) * p - k * m, -(t * Y), k * p - (h + 2 * s) * m);
  }

  lemma TailsIdentity(t: int, k: int, l: int, r: int, p: int, m: int, X: int, Y: int, f: int, g: int)
    ensures p * (f - t * (k * Y + l * X)) + m * (g + t * (k * X + r * Y))
         == p * f + m * g + -(t * X) * (l * p - k * m) + -(t * Y) * (k * p - r * m)
  {
    Tail(p, f, -t, k, Y, l, X);
    Tail(m, g, t, k, X, r, Y);
    assert -(t * X) * (l * p - k * m) == -(t * X) * (l * p) + (t * X) * (k * m);
    assert -(t * Y) * (k * p - r * m) == -(t * Y) * (k * p) + (t * Y) * (r * m);
  }

  lemma Tail(p: int, f: int, t: int, k: int, Y: int, l: int, X: int)
    ensures p * (f + t * (k * Y + l * X)) == p * f + (t * Y) * (k * p) + (t * X) * (l * p)
  {
  }

  // ---- the two ways of adding three points

  /** Twice the multiplied-out numerator of (P1 + P2) + P3. */
  function TwiceNum(d: int, e: int, p1: int, m1: int, p2: int, m2: int, p3: int, m3: int, ss: int): int {
    (p1 * p2 * p3 - m1 * m2 * m3) - e * (d * ss * (p1 * p2 * m3 - m1 * m2 * p3))
  }

  lemma CrossMultiplied(q: nat, d: int, e: int, p1: int, m1: int, s1: int, h1: int,
                        p2: int, m2: int, s2: int, h2: int, p3: int, m3: int, s3: int, h3: int)
    requires q > 0 && e * e == 1
    requires Factored(q, d, e, p1, m1, s1, h1) && Factored(q, d, e, p2, m2, s2, h2) && Factored(q, d, e, p3, m3, s3, h3)
    ensures Cong(q, TwiceNum(d, e, p1, m1, p2, m2, p3, m3, s1 * s2) * Den(d, s2, h2, s3, h3, s1),
                    TwiceNum(d, e, p3, m3, p2, m2, p1, m1, s3 * s2) * Den(d, s1, h1, s2, h2, s3))
  {
    InnersCancel(q, d, e, p1, m1, s1, h1, p2, m2, s2, h2, p3, m3, s3, h3);
    NumDifference(d, e, p1, m1, s1, h1, p2, m2, s2, h2, p3, m3, s3, h3);
    Scale(q, TwiceNum(d, e, p1, m1, p2, m2, p3, m3, s1 * s2) * Den(d, s2, h2, s3, h3, s1)
             - TwiceNum(d, e, p3, m3, p2, m2, p1, m1, s3 * s2) * Den(d, s1, h1, s2, h2, s3),
          d * s2, p2 * Inner(d, e, p1 * p3, p1 * m3, m1 * p3, s1, h1, s2, h2, s3, h3)
                  + m2 * Inner(d, e, m1 * m3, m1 * p3, p1 * m3, -s1, h1, -s2, h2, -s3, h3));
  }

  lemma NumDifference(d: int, e: int, p1: int, m1: int, s1: int, h1: int,
                      p2: int, m2: int, s2: int, h2: int, p3: int, m3: int, s3: int, h3: int)
    ensures TwiceNum(d, e, p1, m1, p2, m2, p3, m3, s1 * s2) * Den(d, s2, h2, s3, h3, s1)
            - TwiceNum(d, e, p3, m3, p2, m2, p1, m1, s3 * s2) * Den(d, s1, h1, s2, h2, s3)
         == d * s2 * (p2 * Inner(d, e, p1 * p3, p1 * m3, m1 * p3, s1, h1, s2, h2, s3, h3)
                      + m2 * Inner(d, e, m1 * m3, m1 * p3, p1 * m3, -s1, h1, -s2, h2, -s3, h3))
  {
    var a, b, c, g := p1 * p3, p1 * m3, m1 * p3, m1 * m3;
    var D, D', k := Den(d, s1, h1, s2, h2, s3), Den(d, s2, h2, s3, h3, s1), Kappa(d, s1, h1, s2, s3, h3);
    NumTerms(p1, p2, p3, m1, m2, m3);
    NumTerms(p3, p2, p1, m3, m2, m1);
    DenDifference(d, s1, h1, s2, h2, s3, h3);
    DenMirrored(d, s1, h1, s2, h2, s3, h3);
    CrossIdentity(d, e, s1, s2, s3, k, D, D', p2 * a - m2 * g, p2 * b - m2 * c, p2 * c - m2 * b);
    InnersAsProducts(e, p2, m2, a, b, c, g, s1, s3, k, D, D');
  }

  lemma NumTerms(p1: int, p2: int, p3: int, m1: int, m2: int, m3: int)
    ensures p1 * p2 * p3 == p2 * (p1 * p3) == p2 * (p3 * p1) && m1 * m2 * m3 == m2 * (m1 * m3) == m2 * (m3 * m1)
    ensures p1 * p2 * m3 == p2 * (p1 * m3) == p2 * (m3 * p1) && m1 * m2 * p3 == m2 * (m1 * p3) == m2 * (p3 * m1)
  {
  }

  lemma DenDifference(d: int, s1: int, h1: int, s2: int, h2: int, s3: int, h3: int)
    ensures Den(d, s2, h2, s3, h3, s1) - Den(d, s1, h1, s2, h2, s3) == d * s2 * Kappa(d, s1, h1, s2, s3, h3)
  {
  }

  lemma DenMirrored(d: int, s1: int, h1: int, s2: int, h2: int, s3: int, h3: int)
    ensures Den(d, -s1, h1, -s2, h2, -s3) == Den(d, s1, h1, s2, h2, s3)
    ensures Den(d, -s2, h2, -s3, h3, -s1) == Den(d, s2, h2, s3, h3, s1)
    ensures Kappa(d, -s1, h1, -s2, -s3, h3) == -Kappa(d, s1, h1, s2, s3, h3)
  {
  }

  lemma CrossIdentity(d: int, e: int, s1: int, s2: int, s3: int, k: int, D: int, D': int, u: int, v3: int, v1: int)
    requires D' - D == d * s2 * k
    ensures (u - e * (d * (s1 * s2) * v3)) * D' - (u - e * (d * (s3 * s2) * v1)) * D
         == d * s2 * (u * k - e * (s1 * D' * v3 - s3 * D * v1))
  {
    var t := d * s2;
    assert (u - e * (d * (s1 * s2) * v3)) * D' == u * D' - t * (e * (s1 * D' * v3)) by { CrossTerm(d, s1, s2, e, v3, D', u); }
    assert (u - e * (d * (s3 * s2) * v1)) * D == u * D - t * (e * (s3 * D * v1)) by { CrossTerm(d, s3, s2, e, v1, D, u); }
    assert u * D' - u * D == u * (t * k) == t * (u * k);
    Spread3(t, u * k, e, s1 * D' * v3, s3 * D * v1);
  }

  lemma CrossTerm(d: int, s1: int, s2: int, e: int, v: int, D: int, u: int)
    ensures (u - e * (d * (s1 * s2) * v)) * D == u * D - d * s2 * (e * (s1 * D * v))
  {
    assert (e * (d * (s1 * s2) * v)) * D == d * s2 * (e * (s1 * D * v));
  }

  lemma Spread3(t: int, x: int, e: int, y: int, z: int)
    ensures t * (x - e * (y - z)) == t * x - t * (e * y) + t * (e * z)
  {
  }

  lemma InnersAsProducts(e: int, p: int, m: int, a: int, b: int, c: int, g: int, s1: int, s3: int, k: int, D: int, D': int)
    ensures p * (a * k - e * (s1 * b * D' - s3 * c * D)) + m * (g * -k - e * (-s1 * c * D' - -s3 * b * D))
         == (p * a - m * g) * k - e * (s1 * D' * (p * b - m * c) - s3 * D * (p * c - m * b))
  {
    var x, y := s1 * D', s3 * D;
    assert s1 * b * D' == x * b && s3 * c * D == y * c && -s1 * c * D' == -(x * c) && -s3 * b * D == -(y * b);
    ProductsIdentity(e, p, m, a * k, g * k, x, y, b, c);
    assert (p * a - m * g) * k == p * (a * k) - m * (g * k);
    assert g * -k == -(g * k);
  }

  lemma ProductsIdentity(e: int, p: int, m: int, ak: int, gk: int, x: int, y: int, b: int, c: int)
    ensures p * (ak - e * (x * b - y * c)) + m * (-gk - e * (-(x * c) + y * b))
         == p * ak - m * gk - e * (x * (p * b - m * c) - y * (p * c - m * b))
  {
    Spread3(p, ak, e, x * b, y * c);
    Spread3(m, -gk, e, -(x * c), -(y * b));
    Reorder(e, p, m, x, b, c);
    Reorder(e, p, m, y, c, b);
    Spread3(1, 0, e, x * (p * b - m * c), y * (p * c - m * b));
  }

  lemma Reorder(e: int, p: int, m: int, x: int, b: int, c: int)
    ensures e * (x * (p * b - m * c)) == p * (e * (x * b)) - m * (e * (x * c))
  {
  }

  // ---- back to points

  function Plus(p: Point): int { p.y + p.x }
  function Minus(p: Point): int { p.y - p.x }
  function Area(p: Point): int { p.x * p.y }
  function Spur(p: Point): int { Trace(p.x, p.y) }

  lemma PointFactored(c: Curve, p: Point)
    requires c.q > 0 && OnCurve(c, p)
    ensures Factored(c.q, c.d, 1, Plus(p), Minus(p), Area(p), Spur(p))
    ensures Factored(c.q, -c.d, -1, Plus(p), -Minus(p), Area(p), Spur(p))
  {
    var f := Defect(c.d, p.x, p.y);
    PlusMinus(p);
    DefectTerms(c.d, Area(p), Plus(p) * Minus(p), f);
    Scale(c.q, Plus(p) * Minus(p) - (1 + c.d * Area(p) * Area(p)), 1, f);
    Scale(c.q, Plus(p) * -Minus(p) - (-1 + -c.d * Area(p) * Area(p)), -1, f);
  }

  lemma PlusMinus(p: Point)
    ensures Plus(p) * Plus(p) == Spur(p) + 2 * Area(p) && Minus(p) * Minus(p) == Spur(p) - 2 * Area(p)
    ensures (-Minus(p)) * (-Minus(p)) == Minus(p) * Minus(p) && Plus(p) * -Minus(p) == -(Plus(p) * Minus(p))
    ensures Plus(p) * Minus(p) == p.y * p.y - p.x * p.x
  {
    SquareOfSum(p.y, p.x);
    SquareOfSum(p.y, -p.x);
    Expand(p.y, p.x, p.y, -p.x);
  }

  lemma DefectTerms(d: int, s: int, n: int, f: int)
    requires f == n - 1 - d * (s * s)
    ensures n - (1 + d * s * s) == f && -n - (-1 + -d * s * s) == -f
  {
    assert d * s * s == d * (s * s) && -d * s * s == -(d * (s * s));
  }

  /** Both coordinates of (P + R) + S over one denominator. */
  lemma TripleSum(c: Curve, p: Point, r: Point, s: Point)
    requires IsComplete(c) && OnCurve(c, p) && OnCurve(c, r) && OnCurve(c, s)
    ensures var t := Add(c, Add(c, p, r), s); 0 <= t.x < c.q && 0 <= t.y < c.q
    ensures AbscissaOver(c, p, r, s) && OrdinateOver(c, p, r, s)
  {
    AddOnCurve(c, p, r);
    AddQuotients(c, Add(c, p, r), s);
    TripleAbscissa(c, p, r, s);
    TripleOrdinate(c, p, r, s);
  }

  ghost predicate AbscissaOver(c: Curve, p: Point, r: Point, s: Point)
    requires c.q > 0
  {
    var D := Den(c.d, Area(p), Spur(p), Area(r), Spur(r), Area(s));
    && !Zero(c.q, D)
    && Cong(c.q, 2 * (Add(c, Add(c, p, r), s).x * D),
            TwiceNum(c.d, 1, Plus(p), Minus(p), Plus(r), Minus(r), Plus(s), Minus(s), Area(p) * Area(r)))
  }

  ghost predicate OrdinateOver(c: Curve, p: Point, r: Point, s: Point)
    requires c.q > 0
  {
    var D := Den(-c.d, Area(p), Spur(p), Area(r), Spur(r), Area(s));
    && !Zero(c.q, D)
    && Cong(c.q, 2 * (Add(c, Add(c, p, r), s).y * D),
            TwiceNum(-c.d, -1, Plus(p), -Minus(p), Plus(r), -Minus(r), Plus(s), -Minus(s), Area(p) * Area(r)))
  }

  lemma TripleAbscissa(c: Curve, p: Point, r: Point, s: Point)
    requires IsComplete(c) && OnCurve(c, p) && OnCurve(c, r) && OnCurve(c, s)
    ensures AbscissaOver(c, p, r, s)
  {
    var q, d, g := c.q, c.d, Add(c, p, r);
    var t, u, w := Add(c, g, s), d * Area(p) * Area(r), d * Area(g) * Area(s);
    var a, b := p.x * r.y + r.x * p.y, p.y * r.y + p.x * r.x;
    AddOnCurve(c, p, r);
    AddQuotients(c, p, r);
    AddQuotients(c, g, s);
    TripleDen(d, u, p, r, s, a, b);
    Regroup(d, g.x, g.y, s.x, s.y);
    NumFromProducts(d, u, p, r, s, a, b);
    DoubledOut(q, d, 1 + u, 1 - u, g.x, g.y, a, b, Area(s), t.x, s.y, s.x, w,
               Den(d, Area(p), Spur(p), Area(r), Spur(r), Area(s)),
               TwiceNum(d, 1, Plus(p), Minus(p), Plus(r), Minus(r), Plus(s), Minus(s), Area(p) * Area(r)));
  }

  lemma TripleOrdinate(c: Curve, p: Point, r: Point, s: Point)
    requires IsComplete(c) && OnCurve(c, p) && OnCurve(c, r) && OnCurve(c, s)
    ensures OrdinateOver(c, p, r, s)
  {
    var q, d, g := c.q, c.d, Add(c, p, r);
    var t, u, w := Add(c, g, s), d * Area(p) * Area(r), d * Area(g) * Area(s);
    var a, b := p.x * r.y + r.x * p.y, p.y * r.y + p.x * r.x;
    AddOnCurve(c, p, r);
    AddQuotients(c, p, r);
    AddQuotients(c, g, s);
    TripleDen(d, u, p, r, s, a, b);
    Regroup(d, g.x, g.y, s.x, s.y);
    NumFromProducts(d, u, p, r, s, a, b);
    DoubledOut(q, -d, 1 - u, 1 + u, g.y, g.x, b, a, Area(s), t.y, s.y, s.x, -w,
               Den(-d, Area(p), Spur(p), Area(r), Spur(r), Area(s)),
               TwiceNum(-d, -1, Plus(p), -Minus(p), Plus(r), -Minus(r), Plus(s), -Minus(s), Area(p) * Area(r)));
  }

  lemma TripleDen(d: int, u: int, p: Point, r: Point, s: Point, a: int, b: int)
    requires a == p.x * r.y + r.x * p.y && b == p.y * r.y + p.x * r.x && u == d * Area(p) * Area(r)
    ensures Den(d, Area(p), Spur(p), Area(r), Spur(r), Area(s)) == (1 + u) * (1 - u) + d * (a * b) * Area(s)
    ensures Den(-d, Area(p), Spur(p), Area(r), Spur(r), Area(s)) == (1 - u) * (1 + u) + -d * (b * a) * Area(s)
  {
    NumeratorProduct(p.x, p.y, r.x, r.y);
    assert a * b == Spur(p) * Area(r) + Spur(r) * Area(p) && b * a == a * b;
    DenFromProducts(d, Area(p), Area(r), Area(s), a * b, u);
  }

  lemma DenFromProducts(d: int, s1: int, s2: int, s3: int, ab: int, u: int)
    requires u == d * s1 * s2
    ensures 1 - (d * s1 * s2) * (d * s1 * s2) + d * s3 * ab == (1 + u) * (1 - u) + d * ab * s3
    ensures 1 - (-d * s1 * s2) * (-d * s1 * s2) + -d * s3 * ab == (1 - u) * (1 + u) + -d * ab * s3
  {
    assert -d * s1 * s2 == -u;
    assert (-u) * (-u) == u * u;
  }

  lemma Doubled(q: nat, a: int, b: int)
    requires q > 0 && Cong(q, a, b)
    ensures Cong(q, 2 * a, 2 * b)
  {
    Scale(q, 2 * a - 2 * b, 2, a - b);
  }

  lemma MultiplyOut(q: nat, d: int, m: int, n: int, X: int, Y: int, a: int, b: int, s: int,
                    T: int, y3: int, x3: int, w: int)
    requires IsPrime(q) && !Zero(q, m) && !Zero(q, n) && !Zero(q, 1 + w) && w == d * (X * Y) * s
    requires Cong(q, X * m, a) && Cong(q, Y * n, b) && Cong(q, T * (1 + w), X * y3 + x3 * Y)
    ensures !Zero(q, m * n + d * (a * b) * s)
    ensures Cong(q, T * (m * n + d * (a * b) * s), a * n * y3 + b * m * x3)
  {
    var D := m * n + d * (a * b) * s;
    CongMul(q, X * m, a, Y * n, b);
    Interleave(X, m, Y, n);
    assert Cong(q, m * n * (1 + w), D) by {
      assert m * n * (1 + w) - D == (d * s) * ((X * m) * (Y * n) - a * b) by {
        assert m * n * (d * (X * Y) * s) == (d * s) * ((X * Y) * (m * n));
      }
      Scale(q, m * n * (1 + w) - D, d * s, (X * m) * (Y * n) - a * b);
    }
    NonZeroProduct(q, m, n);
    NonZeroProduct(q, m * n, 1 + w);
    if Zero(q, D) { Comb(q, m * n * (1 + w), 1, m * n * (1 + w) - D, 1, D); }
    MultiplyThrough(q, m, n, X, Y, a, b, T, y3, x3, w, D);
  }

  lemma DoubledOut(q: nat, d: int, m: int, n: int, X: int, Y: int, a: int, b: int, s: int,
                   T: int, y3: int, x3: int, w: int, D: int, twice: int)
    requires IsPrime(q) && !Zero(q, m) && !Zero(q, n) && !Zero(q, 1 + w) && w == d * (X * Y) * s
    requires Cong(q, X * m, a) && Cong(q, Y * n, b) && Cong(q, T * (1 + w), X * y3 + x3 * Y)
    requires D == m * n + d * (a * b) * s && twice == 2 * (a * n * y3 + b * m * x3)
    ensures !Zero(q, D) && Cong(q, 2 * (T * D), twice)
  {
    MultiplyOut(q, d, m, n, X, Y, a, b, s, T, y3, x3, w);
    Doubled(q, T * D, a * n * y3 + b * m * x3);
  }

  lemma MultiplyThrough(q: nat, m: int, n: int, X: int, Y: int, a: int, b: int, T: int, y3: int, x3: int, w: int, D: int)
    requires q > 0 && Cong(q, X * m, a) && Cong(q, Y * n, b) && Cong(q, T * (1 + w), X * y3 + x3 * Y)
    requires Cong(q, m * n * (1 + w), D)
    ensures Cong(q, T * D, a * n * y3 + b * m * x3)
  {
    var k := m * n;
    ThroughIdentity(k, m, n, X, Y, a, b, T, y3, x3, w, D);
    Comb4(q, T * D - (a * n * y3 + b * m * x3), -T, k * (1 + w) - D, k, T * (1 + w) - (X * y3 + x3 * Y),
          n * y3, X * m - a, m * x3, Y * n - b);
  }

  lemma ThroughIdentity(k: int, m: int, n: int, X: int, Y: int, a: int, b: int, T: int, y3: int, x3: int, w: int, D: int)
    requires k == m * n
    ensures T * D - (a * n * y3 + b * m * x3)
         == -T * (k * (1 + w) - D) + k * (T * (1 + w) - (X * y3 + x3 * Y)) + n * y3 * (X * m - a) + m * x3 * (Y * n - b)
  {
    var l := 1 + w;
    assert -T * (k * l - D) == T * D - k * (T * l);
    assert k * (T * l - (X * y3 + x3 * Y)) == k * (T * l) - k * (X * y3) - k * (x3 * Y);
    NumeratorTerm(m, n, X, y3, a);
    NumeratorTerm(n, m, Y, x3, b);
    assert k == n * m && Y * x3 == x3 * Y;
  }

  lemma NumeratorTerm(m: int, n: int, X: int, y: int, a: int)
    ensures n * y * (X * m - a) == m * n * (X * y) - a * n * y
  {
    assert n * y * (X * m) == m * n * (X * y);
    assert n * y * a == a * n * y;
  }

  lemma NumFromProducts(d: int, u: int, p: Point, r: Point, s: Point, a: int, b: int)
    requires a == p.x * r.y + r.x * p.y && b == p.y * r.y + p.x * r.x && u == d * Area(p) * Area(r)
    ensures 2 * (a * (1 - u) * s.y + b * (1 + u) * s.x)
         == TwiceNum(d, 1, Plus(p), Minus(p), Plus(r), Minus(r), Plus(s), Minus(s), Area(p) * Area(r))
    ensures 2 * (b * (1 + u) * s.y + a * (1 - u) * s.x)
         == TwiceNum(-d, -1, Plus(p), -Minus(p), Plus(r), -Minus(r), Plus(s), -Minus(s), Area(p) * Area(r))
  {
    Expand(p.y, p.x, r.y, r.x);
    Expand(p.y, -p.x, r.y, -r.x);
    assert Plus(p) * Plus(r) == b + a && Minus(p) * Minus(r) == b - a && (-Minus(p)) * (-Minus(r)) == b - a;
    assert u == d * (Area(p) * Area(r)) && -u == -d * (Area(p) * Area(r));
    HalfSums(a, b, s.y, s.x);
    NumTermsX(u, a, b, s.y, s.x);
    NumTermsX(-u, b, a, s.y, s.x);
  }

  lemma NumTermsX(u: int, a: int, b: int, y: int, x: int)
    ensures 2 * (a * (1 - u) * y + b * (1 + u) * x) == 2 * (a * y + b * x) - u * (2 * (a * y - b * x))
  {
    assert a * (1 - u) * y == a * y - u * (a * y) && b * (1 + u) * x == b * x + u * (b * x);
  }

  lemma HalfSums(a: int, b: int, y: int, x: int)
    ensures (b + a) * (y + x) - (b - a) * (y - x) == 2 * (a * y + b * x)
    ensures (b + a) * (y - x) - (b - a) * (y + x) == 2 * (a * y - b * x)
    ensures (b + a) * (y + x) - (b - a) * -(y - x) == 2 * (b * y + a * x)
    ensures (b + a) * -(y - x) - (b - a) * (y + x) == -2 * (b * y - a * x)
  {
  }

  lemma AddCommutes(c: Curve, p: Point, r: Point)
    requires c.q >= 2
    ensures Add(c, p, r) == Add(c, r, p)
  {
    Regroup(c.d, p.x, p.y, r.x, r.y);
    Regroup(c.d, r.x, r.y, p.x, p.y);
    assert c.d * (p.x * p.y) * (r.x * r.y) == c.d * (r.x * r.y) * (p.x * p.y);
    assert p.x * r.y + r.x * p.y == r.x * p.y + p.x * r.y;
    assert p.y * r.y + p.x * r.x == r.y * p.y + r.x * p.x;
  }

  lemma SameQuotient(q: nat, x: int, D: int, n: int, x': int, D': int, n': int)
    requires IsPrime(q) && q > 2 && !Zero(q, D) && !Zero(q, D') && 0 <= x < q && 0 <= x' < q
    requires Cong(q, 2 * (x * D), n) && Cong(q, 2 * (x' * D'), n') && Cong(q, n * D', n' * D)
    ensures x == x'
  {
    var k := 2 * (D * D');
    QuotientIdentity(x, D, n, x', D', n');
    Comb4(q, k * x - k * x', D', 2 * (x * D) - n, -D, 2 * (x' * D') - n', 1, n * D' - n' * D, 0, 0);
    TwiceNonZero(q, D, D');
    EqualResidues(q, k, x, x');
  }

  lemma TwiceNonZero(q: nat, a: int, b: int)
    requires IsPrime(q) && q > 2 && !Zero(q, a) && !Zero(q, b)
    ensures !Zero(q, 2 * (a * b))
  {
    SmallNonZero(q, 2);
    NonZeroProduct(q, a, b);
    NonZeroProduct(q, 2, a * b);
  }

  lemma EqualResidues(q: nat, k: int, x: int, x': int)
    requires IsPrime(q) && !Zero(q, k) && Cong(q, k * x, k * x') && 0 <= x < q && 0 <= x' < q
    ensures x == x'
  {
    Cancel(q, k, x, x');
    EqualInRange(q, x, x');
  }

  lemma EqualInRange(q: nat, x: int, x': int)
    requires q > 0 && Cong(q, x, x') && 0 <= x < q && 0 <= x' < q
    ensures x == x'
  {
    SameResidue(q, x, x');
    DivModUnique(q, x, 0, x);
    DivModUnique(q, x', 0, x');
  }

  lemma QuotientIdentity(x: int, D: int, n: int, x': int, D': int, n': int)
    ensures var k := 2 * (D * D');
            k * x - k * x' == D' * (2 * (x * D) - n) + -D * (2 * (x' * D') - n') + 1 * (n * D' - n' * D)
  {
    var k := 2 * (D * D');
    assert D' * (2 * (x * D)) == k * x && D * (2 * (x' * D')) == k * x';
  }

  /** Curve points form a semigroup: with DenominatorsNonZero, no case is excepted. */
  lemma AddAssociates(c: Curve, p: Point, r: Point, s: Point)
    requires IsComplete(c) && OnCurve(c, p) && OnCurve(c, r) && OnCurve(c, s)
    ensures Add(c, Add(c, p, r), s) == Add(c, p, Add(c, r, s))
  {
    var q, d := c.q, c.d;
    TripleSum(c, p, r, s);
    TripleSum(c, s, r, p);
    AddCommutes(c, r, s);
    AddCommutes(c, p, Add(c, s, r));
    PointFactored(c, p);
    PointFactored(c, r);
    PointFactored(c, s);
    CoordinatesAgree(q, d, 1, p, r, s, 1);
    CoordinatesAgree(q, -d, -1, p, r, s, -1);
    var t, t' := Add(c, Add(c, p, r), s), Add(c, Add(c, s, r), p);
    var ss, ss' := Area(p) * Area(r), Area(s) * Area(r);
    SameQuotient(q, t.x, Den(d, Area(p), Spur(p), Area(r), Spur(r), Area(s)),
                 TwiceNum(d, 1, Plus(p), Minus(p), Plus(r), Minus(r), Plus(s), Minus(s), ss),
                 t'.x, Den(d, Area(s), Spur(s), Area(r), Spur(r), Area(p)),
                 TwiceNum(d, 1, Plus(s), Minus(s), Plus(r), Minus(r), Plus(p), Minus(p), ss'));
    SameQuotient(q, t.y, Den(-d, Area(p), Spur(p), Area(r), Spur(r), Area(s)),
                 TwiceNum(-d, -1, Plus(p), -Minus(p), Plus(r), -Minus(r), Plus(s), -Minus(s), ss),
                 t'.y, Den(-d, Area(s), Spur(s), Area(r), Spur(r), Area(p)),
                 TwiceNum(-d, -1, Plus(s), -Minus(s), Plus(r), -Minus(r), Plus(p), -Minus(p), ss'));
  }

  lemma CoordinatesAgree(q: nat, d: int, e: int, p: Point, r: Point, s: Point, g: int)
    requires q > 0 && e * e == 1
    requires Factored(q, d, e, Plus(p), g * Minus(p), Area(p), Spur(p))
    requires Factored(q, d, e, Plus(r), g * Minus(r), Area(r), Spur(r))
    requires Factored(q, d, e, Plus(s), g * Minus(s), Area(s), Spur(s))
    ensures Cong(q, TwiceNum(d, e, Plus(p), g * Minus(p), Plus(r), g * Minus(r), Plus(s), g * Minus(s), Area(p) * Area(r))
                    * Den(d, Area(s), Spur(s), Area(r), Spur(r), Area(p)),
                    TwiceNum(d, e, Plus(s), g * Minus(s), Plus(r), g * Minus(r), Plus(p), g * Minus(p), Area(s) * Area(r))
                    * Den(d, Area(p), Spur(p), Area(r), Spur(r), Area(s)))
  {
    CrossMultiplied(q, d, e, Plus(p), g * Minus(p), Area(p), Spur(p), Plus(r), g * Minus(r), Area(r), Spur(r),
                    Plus(s), g * Minus(s), Area(s), Spur(s));
    DenSymmetric(d, Area(r), Spur(r), Area(s), Spur(s), Area(p));
  }

  lemma DenSymmetric(d: int, s1: int, h1: int, s2: int, h2: int, s3: int)
    ensures Den(d, s1, h1, s2, h2, s3) == Den(d, s2, h2, s1, h1, s3)
  {
    assert d * s1 * s2 == d * s2 * s1;
  }

  lemma AddNeutral(c: Curve, p: Point)
    requires c.q > 2 && 0 <= p.x < c.q && 0 <= p.y < c.q
    ensures Add(c, p, NEUTRAL) == p == Add(c, NEUTRAL, p)
  {
    var t := c.d * p.x * 0 * p.y * 1;
    InvOfOne(c.q);
    assert t == 0;
    UnitFactor(c.q, p.x, p.x * 1 + 0 * p.y);
    UnitFactor(c.q, p.y, p.y * 1 + p.x * 0);
    AddCommutes(c, p, NEUTRAL);
  }

  lemma InvOfOne(q: nat)
    requires q > 2
    ensures Inv(q, 1) == 1
  {
    PowOne(q - 2);
  }

  lemma UnitFactor(q: nat, x: int, y: int)
    requires 0 <= x < q && y == x
    ensures y * 1 % q == x
  {
  }
}
