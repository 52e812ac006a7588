/** The 32-byte encoding of curve points (RFC 8032 sections 5.1.2 and 5.1.3). */
module PointCodec {
  import opened Wrappers
  import opened Numbers
  import opened Modular
  import opened Primes
  import opened Edwards
  import opened Bytes

  /** The square root of -1 that the code calls I. */
  function RootOfMinusOneMod(q: nat): int
    requires q > 0
  {
    Pow(2, (q - 1) / 4) % q
  }

  function CandidateRoot(q: nat, a: int): int
    requires q > 0
  {
    var x := Pow(a, (q + 3) / 8) % q;
    if (x * x - a) % q != 0 then x * RootOfMinusOneMod(q) % q else x
  }

  function Encode(p: Point): (b: seq<Byte>)
    requires 0 <= p.y
    ensures |b| == 32
  {
    var b := ToLE(p.y, 32);
    b[..31] + [if b[31] >= 128 then b[31] else b[31] + 128 * (p.x % 2)]
  }

  function Decode(c: Curve, b: seq<Byte>): Option<Point>
    requires c.q >= 2
  {
    if |b| != 32 then None else
    var q := c.q;
    var y, sign := FromLE(b[..31] + [b[31] % 128]), b[31] / 128;
    if y >= q then None else
    var u, v := (y * y - 1) % q, (c.d * y * y + 1) % q;
    var xx := u * Inv(q, v) % q;
    var x := CandidateRoot(q, xx);
    if (x * x - xx) % q != 0 then None
    else if x == 0 && sign == 1 then None
    else Some(Point(if x % 2 != sign then q - x else x, y))
  }

  // ---- square roots modulo q = 8k + 5

  lemma SquareIsNonZero(q: nat, z: int, a: int)
    requires IsPrime(q) && Cong(q, z * z, a) && !Zero(q, a)
    ensures !Zero(q, z)
  {
    if Zero(q, z) {
      Scale(q, z * z, z, z);
      Comb(q, a, 1, z * z, -1, z * z - a);
    }
  }

  /** Euler's criterion, in the direction that needs no primitive root. */
  lemma HalfPower(q: nat, h: nat, a: int)
    requires IsPrime(q) && q == 2 * h + 1 && !Zero(q, a) && IsSquare(q, a)
    ensures Cong(q, Pow(a, h), 1)
  {
    var z: int :| Cong(q, z * z, a);
    SquareIsNonZero(q, z, a);
    Fermat(q, z);
    PowCong(q, z * z, a, h);
    PowerOfSquare(z, h);
    CongSym(q, Pow(z * z, h), Pow(a, h));
    CongTrans(q, Pow(a, h), Pow(z, q - 1), 1);
  }

  lemma PowerOfSquare(z: int, h: nat)
    ensures Pow(z * z, h) == Pow(z, 2 * h)
  {
    PowAdd(z, 1, 1);
    PowOfPow(z, 2, h);
  }

  /** a^((q-1)/4) is 1 or -1 when a is a square. */
  lemma QuarterPower(q: nat, a: int)
    requires IsPrime(q) && q % 8 == 5 && !Zero(q, a) && IsSquare(q, a)
    ensures Cong(q, Pow(a, (q - 1) / 4), 1) || Cong(q, Pow(a, (q - 1) / 4), -1)
  {
    var k := (q - 1) / 4;
    HalfPower(q, k + k, a);
    PowAdd(a, k, k);
    RootsOfOne(q, Pow(a, k));
  }

  lemma RootsOfOne(q: nat, w: int)
    requires IsPrime(q) && Cong(q, w * w, 1)
    ensures Cong(q, w, 1) || Cong(q, w, -1)
  {
    assert (w - 1) * (w + 1) == w * w - 1;
    Euclid(q, w - 1, w + 1);
  }

  /** x = a^((q+3)/8) satisfies x^2 = a * a^((q-1)/4). */
  lemma EighthPowerSquared(q: nat, a: int)
    requires q % 8 == 5
    ensures Pow(a, (q + 3) / 8) * Pow(a, (q + 3) / 8) == a * Pow(a, (q - 1) / 4)
  {
    PowAdd(a, (q + 3) / 8, (q + 3) / 8);
    assert (q + 3) / 8 + (q + 3) / 8 == (q - 1) / 4 + 1;
  }

  /** The candidate root squares to a exactly when a is a square. */
  lemma CandidateRootExact(q: nat, a: int)
    requires IsPrime(q) && q % 8 == 5
    ensures 0 <= CandidateRoot(q, a) < q
    ensures Cong(q, CandidateRoot(q, a) * CandidateRoot(q, a), a) <==> IsSquare(q, a)
  {
    if IsSquare(q, a) { RootOfSquare(q, a); }
  }

  lemma RootOfSquare(q: nat, a: int)
    requires IsPrime(q) && q % 8 == 5 && IsSquare(q, a)
    ensures Cong(q, CandidateRoot(q, a) * CandidateRoot(q, a), a)
  {
    var x0, w := Pow(a, (q + 3) / 8), Pow(a, (q - 1) / 4);
    var x := x0 % q;
    EighthPowerSquared(q, a);
    Residue(q, x0);
    CongMul(q, x, x0, x, x0);
    if Zero(q, a) {
      Scale(q, a * w, w, a);
      Comb(q, x * x - a, 1, x * x - a * w, w - 1, a);
    } else {
      QuarterPower(q, a);
      if Cong(q, w, 1) {
        Comb(q, x * x - a, 1, x * x - a * w, a, w - 1);
      } else {
        OtherRoot(q, a, w, x);
      }
    }
  }

  lemma OtherRoot(q: nat, a: int, w: int, x: int)
    requires IsPrime(q) && q % 8 == 5 && Cong(q, w, -1) && Cong(q, x * x, a * w)
    ensures var i := RootOfMinusOneMod(q); Cong(q, (x * i % q) * (x * i % q), a)
  {
    var i0, i := Pow(2, (q - 1) / 4), RootOfMinusOneMod(q);
    RootOfMinusOne(q);
    Residue(q, i0);
    CongMul(q, i, i0, i, i0);
    CongTrans(q, i * i, i0 * i0, -1);
    Residue(q, x * i);
    var r := x * i % q;
    CongMul(q, r, x * i, r, x * i);
    SquareOfProduct(x, i);
    CongMul(q, x * x, a * w, i * i, -1);
    CongTrans(q, r * r, (x * x) * (i * i), a * w * -1);
    assert a * w * -1 - a == -a * (w - -1);
    Scale(q, a * w * -1 - a, -a, w - -1);
    CongTrans(q, r * r, a * w * -1, a);
  }

  // ---- decoding and encoding

  lemma RootsDifferBySign(q: nat, r: int, x: int)
    requires IsPrime(q) && 0 <= r < q && 0 <= x < q && Cong(q, r * r, x * x)
    ensures r == x || r + x == q || r == x == 0
  {
    DifferenceOfSquares(r, x);
    Euclid(q, r - x, r + x);
    if Zero(q, r - x) {
      EqualWhenClose(q, r, x);
    } else {
      ZeroBelowTwice(q, r + x);
    }
  }

  lemma DifferenceOfSquares(r: int, x: int)
    ensures r * r - x * x == (r - x) * (r + x)
  {
  }

  lemma EqualWhenClose(q: nat, r: int, x: int)
    requires q > 0 && 0 <= r < q && 0 <= x < q && Cong(q, r, x)
    ensures r == x
  {
    SameResidue(q, r, x);
    DivModUnique(q, r, 0, r);
    DivModUnique(q, x, 0, x);
  }

  lemma ZeroBelowTwice(q: nat, n: int)
    requires q > 0 && 0 <= n < 2 * q && Zero(q, n)
    ensures n == 0 || n == q
  {
    DivModUnique(q, n, if n < q then 0 else 1, if n < q then n else n - q);
  }

  /** What the curve equation says about x^2 once y is known: the denominator never vanishes. */
  lemma SolveForSquare(c: Curve, x: int, y: int)
    requires IsComplete(c)
    ensures Zero(c.q, Defect(c.d, x, y)) <==> Cong(c.q, x * x, RightSide(c, y))
  {
    var q, d := c.q, c.d;
    var u0, v0 := y * y - 1, d * y * y + 1;
    var u, v := u0 % q, v0 % q;
    var xx := u * Inv(q, v) % q;
    DenominatorNonZero(c, y);
    Residue(q, u0);
    Residue(q, v0);
    if Zero(q, v) { Comb(q, v0, 1, v, 1, v0 - v); }
    Quotient(q, u, v);
    assert Zero(q, xx * v - u);
    DefectAsEquation(d, x, y);
    var f, t := Defect(d, x, y), x * x - xx;
    assert f == u0 - v0 * (x * x);
    CodecIdentity(u0, v0, u, v, xx, x * x);
    if Cong(q, x * x, xx) {
      Comb4(q, f, 1, u0 - u, -(x * x), v0 - v, -v, t, -1, xx * v - u);
    }
    if Zero(q, f) {
      Comb4(q, v * t, 1, u0 - u, -(x * x), v0 - v, -1, f, -1, xx * v - u);
      Euclid(q, v, t);
    }
  }

  lemma CodecIdentity(u0: int, v0: int, u: int, v: int, xx: int, x2: int)
    ensures u0 - v0 * x2 == 1 * (u0 - u) + -x2 * (v0 - v) + -v * (x2 - xx) + -1 * (xx * v - u)
  {
  }

  lemma DefectAsEquation(d: int, x: int, y: int)
    ensures Defect(d, x, y) == (y * y - 1) - (d * y * y + 1) * (x * x)
  {
    SquareOfProduct(x, y);
    var xx, yy := x * x, y * y;
    assert d * y * y == d * yy;
    assert d * (xx * yy) == d * yy * xx;
  }

  lemma DenominatorNonZero(c: Curve, y: int)
    requires IsComplete(c)
    ensures !Zero(c.q, c.d * y * y + 1)
  {
    var q, i := c.q, Pow(2, (c.q - 1) / 4);
    if Zero(q, c.d * y * y + 1) {
      RootOfMinusOne(q);
      assert c.d * y * y == c.d * (y * y);
      MinusOneQuotient(q, c.d, y, i);
    }
  }

  lemma MinusOneQuotient(q: nat, d: int, y: int, i: int)
    requires IsPrime(q) && Cong(q, i * i, -1) && Zero(q, d * (y * y) + 1)
    ensures IsSquare(q, d)
  {
    Comb(q, i * i - d * (y * y), 1, i * i - -1, -1, d * (y * y) + 1);
    if Zero(q, y) {
      Comb(q, 1, 1, d * (y * y) + 1, -(d * y), y);
      SmallNonZero(q, 1);
    } else {
      SquareQuotient(q, d, i, y);
    }
  }

  /** Encodable points: the coordinates are reduced and leave the top bit of the last byte free. */
  ghost predicate Encodable(c: Curve) {
    IsComplete(c) && c.q <= 128 * Pow(256, 31)
  }

  // The two halves of a 32-byte string: the ordinate, and the parity of the abscissa in the top bit.
  function Ordinate(b: seq<Byte>): nat
    requires |b| == 32
  {
    FromLE(b[..31] + [b[31] % 128])
  }

  function RightSide(c: Curve, y: int): int
    requires c.q >= 2
  {
    ((y * y - 1) % c.q) * Inv(c.q, (c.d * y * y + 1) % c.q) % c.q
  }

  lemma EncodeShape(p: Point)
    requires 0 <= p.y < 128 * Pow(256, 31)
    ensures Ordinate(Encode(p)) == p.y && Encode(p)[31] / 128 == p.x % 2
  {
    var b, e := ToLE(p.y, 32), Encode(p);
    TopBitClear(p.y, 32);
    FromToLE(p.y, 32);
    TopBitOr(b[31], p.x % 2);
    assert e[..31] == b[..31];
    assert e[..31] + [b[31]] == b;
  }

  lemma TopBitOr(t: int, s: int)
    requires 0 <= t < 128 && 0 <= s < 2
    ensures (t + 128 * s) % 128 == t && (t + 128 * s) / 128 == s
  {
  }

  /** Decoding, once the ordinate is known to be reduced. */
  lemma DecodeShape(c: Curve, b: seq<Byte>)
    requires c.q >= 2 && |b| == 32 && Ordinate(b) < c.q
    ensures var y, sign, xx := Ordinate(b), b[31] / 128, RightSide(c, Ordinate(b)); var x := CandidateRoot(c.q, xx);
            Decode(c, b) == if !Cong(c.q, x * x, xx) || (x == 0 && sign == 1) then None
                            else Some(Point(if x % 2 != sign then c.q - x else x, y))
  {
  }

  /** The root with the requested parity is the abscissa. */
  lemma RootByParity(q: nat, x: int, r: int)
    requires IsPrime(q) && q % 2 == 1 && 0 <= r < q && 0 <= x < q && Cong(q, r * r, x * x)
    ensures x == if r % 2 != x % 2 then q - r else r
    ensures r == 0 ==> x == 0
  {
    RootsDifferBySign(q, r, x);
  }

  /** Decoding inverts encoding on every reduced curve point. */
  lemma DecodeEncode(c: Curve, p: Point)
    requires Encodable(c) && OnCurve(c, p)
    ensures Decode(c, Encode(p)) == Some(p)
  {
    var q, xx := c.q, RightSide(c, p.y);
    var x := CandidateRoot(q, xx);
    EncodeShape(p);
    DecodeShape(c, Encode(p));
    SolveForSquare(c, p.x, p.y);
    CandidateRootExact(q, xx);
    CongSym(q, p.x * p.x, xx);
    CongTrans(q, x * x, xx, p.x * p.x);
    RootByParity(q, p.x, x);
  }

  lemma NegatedSquare(q: nat, x: int)
    requires q > 0
    ensures Cong(q, (q - x) * (q - x), x * x)
  {
    assert (q - x) * (q - x) - x * x == q * (q - 2 * x);
    MultipleIsZero(q, q - 2 * x);
  }

  lemma SelectParity(q: nat, x: int, sign: int, a: int)
    requires q > 0 && q % 2 == 1 && 0 <= x < q && 0 <= sign < 2 && !(x == 0 && sign == 1) && Cong(q, x * x, a)
    ensures var r := if x % 2 != sign then q - x else x; 0 <= r < q && r % 2 == sign && Cong(q, r * r, a)
  {
    NegatedSquare(q, x);
    if x % 2 != sign { CongTrans(q, (q - x) * (q - x), x * x, a); }
  }

  /** What a successful decoding returns. */
  lemma DecodedOnCurve(c: Curve, b: seq<Byte>)
    requires Encodable(c) && Decode(c, b).Some?
    ensures var p := Decode(c, b).value; |b| == 32 && OnCurve(c, p) && p.y == Ordinate(b) && p.x % 2 == b[31] / 128
  {
    var q, p, xx := c.q, Decode(c, b).value, RightSide(c, Ordinate(b));
    DecodeShape(c, b);
    CandidateRootExact(q, xx);
    SelectParity(q, CandidateRoot(q, xx), b[31] / 128, xx);
    SolveForSquare(c, p.x, p.y);
  }

  /** Whatever decodes is the encoding of a curve point: no point has two encodings. */
  lemma EncodeDecode(c: Curve, b: seq<Byte>)
    requires Encodable(c) && Decode(c, b).Some?
    ensures OnCurve(c, Decode(c, b).value) && Encode(Decode(c, b).value) == b
  {
    DecodedOnCurve(c, b);
    var low: seq<Byte> := b[..31] + [b[31] % 128];
    ToFromLE(low);
    assert low[..31] == b[..31];
    assert b == b[..31] + [b[31]];
  }

  /** The encoded curve points are exactly the accepted strings. */
  lemma DecodeAccepts(c: Curve, b: seq<Byte>)
    requires Encodable(c)
    ensures Decode(c, b).Some? <==> exists p: Point :: OnCurve(c, p) && Encode(p) == b
  {
    if Decode(c, b).Some? { EncodeDecode(c, b); }
    if p: Point :| OnCurve(c, p) && Encode(p) == b { DecodeEncode(c, p); }
  }

  /** 2 is not a square, so d and 2 d are not both squares. */
  lemma NonSquareByTwice(q: nat, d: int, z: int)
    requires IsPrime(q) && q % 8 == 5 && !Zero(q, d) && Cong(q, z * z, 2 * d)
    ensures !IsSquare(q, d)
  {
    if IsSquare(q, d) {
      var w: int :| Cong(q, w * w, d);
      SquareIsNonZero(q, w, d);
      Comb(q, z * z - 2 * (w * w), 1, z * z - 2 * d, -2, w * w - d);
      SquareQuotient(q, 2, z, w);
      TwoIsNotSquare(q);
    }
  }

  lemma TwoIsNotSquare(q: nat)
    requires IsPrime(q) && q % 8 == 5
    ensures !IsSquare(q, 2)
  {
    var h := (q - 1) / 2;
    SmallNonZero(q, 2);
    TwoIsNonResidue(q);
    if IsSquare(q, 2) {
      HalfPower(q, h, 2);
      Comb(q, 2, 1, Pow(2, h) - -1, -1, Pow(2, h) - 1);
    }
  }
}
