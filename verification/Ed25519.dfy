/** Scalar multiplication, key generation, signing and verification (RFC 8032 sections 5.1.5 to 5.1.7). */
module Ed25519 {
  import opened Wrappers
  import opened Numbers
  import opened Modular
  import opened Primes
  import opened Edwards
  import opened GroupLaw
  import opened Bytes
  import opened PointCodec

  /** SHA-512 is left abstract: any function to 64-byte strings. */
  type Digest = d: seq<Byte> | |d| == 64 witness seq(64, _ => 0)
  type Hash = seq<Byte> -> Digest

  datatype Scheme = Scheme(curve: Curve, order: nat)

  // ---- the code

  function RecoverX(c: Curve, y: int): int
    requires c.q >= 2
  {
    var x := CandidateRoot(c.q, (y * y - 1) * Inv(c.q, c.d * y * y + 1));
    if x % 2 != 0 then c.q - x else x
  }

  function Base(c: Curve): Point
    requires c.q >= 2
  {
    var y := 4 * Inv(c.q, 5) % c.q;
    Point(RecoverX(c, y), y)
  }

  function ScalarMult(c: Curve, p: Point, e: nat): Point
    requires c.q >= 2
  {
    if e == 0 then NEUTRAL else
    var h := ScalarMult(c, p, e / 2);
    var t := Add(c, h, h);
    if e % 2 == 1 then Add(c, t, p) else t
  }

  /** 2^254 + (n & (2^254 - 8)). */
  function Clamp(n: nat): nat {
    PowNonNegative(2, 254);
    Pow(2, 254) + n % Pow(2, 254) / 8 * 8
  }

  lemma {:induction false} PowNonNegative(b: nat, e: nat)
    requires b > 0
    ensures Pow(b, e) > 0
  {
    if e > 0 { PowNonNegative(b, e - 1); }
  }

  function SecretScalar(H: Hash, sk: seq<Byte>): nat {
    Clamp(FromLE(H(sk)[..32]))
  }

  function Challenge(s: Scheme, H: Hash, r: seq<Byte>, pk: seq<Byte>, m: seq<Byte>): nat
    requires s.order > 0
  {
    FromLE(H(r + pk + m)) % s.order
  }

  function Response(s: Scheme, r: nat, k: nat, a: nat): nat
    requires s.order > 0
  {
    (r + k * a) % s.order
  }

  ghost predicate Usable(s: Scheme) {
    && Encodable(s.curve) && 0 < s.order <= Pow(256, 32)
    && OnCurve(s.curve, Base(s.curve))
  }

  function PublicKey(s: Scheme, H: Hash, sk: seq<Byte>): seq<Byte>
    requires Usable(s)
  {
    var a := ScalarMult(s.curve, Base(s.curve), SecretScalar(H, sk));
    ScalarMultOnCurve(s.curve, Base(s.curve), SecretScalar(H, sk));
    Encode(a)
  }

  function Sign(s: Scheme, H: Hash, m: seq<Byte>, sk: seq<Byte>, pk: seq<Byte>): seq<Byte>
    requires Usable(s)
  {
    var r := FromLE(H(H(sk)[32..] + m)) % s.order;
    ScalarMultOnCurve(s.curve, Base(s.curve), r);
    var bigR := Encode(ScalarMult(s.curve, Base(s.curve), r));
    var k := Challenge(s, H, bigR, pk, m);
    bigR + ToLE(Response(s, r, k, SecretScalar(H, sk)), 32)
  }

  predicate Verify(s: Scheme, H: Hash, sig: seq<Byte>, m: seq<Byte>, pk: seq<Byte>)
    requires s.curve.q >= 2 && s.order > 0
  {
    |sig| == 64 && |pk| == 32 &&
    var r, a := Decode(s.curve, sig[..32]), Decode(s.curve, pk);
    r.Some? && a.Some? &&
    var n := FromLE(sig[32..]);
    n < s.order &&
    var k := Challenge(s, H, sig[..32], pk, m);
    ScalarMult(s.curve, Base(s.curve), n) == Add(s.curve, r.value, ScalarMult(s.curve, a.value, k))
  }

  // ---- recovering the base point

  lemma EvenRoot(q: nat, a: int, x: int)
    requires IsPrime(q) && q % 8 == 5 && 0 <= x < q && x % 2 == 0 && Cong(q, x * x, a)
    ensures x == if CandidateRoot(q, a) % 2 != 0 then q - CandidateRoot(q, a) else CandidateRoot(q, a)
  {
    var r := CandidateRoot(q, a);
    CandidateRootExact(q, a);
    CongSym(q, x * x, a);
    CongTrans(q, r * r, a, x * x);
    RootByParity(q, x, r);
  }

  /** The even abscissa of a curve point is recovered from its ordinate. */
  lemma RecoverEvenX(c: Curve, x: int, y: int)
    requires IsComplete(c) && OnCurve(c, Point(x, y)) && x % 2 == 0
    ensures RecoverX(c, y) == x
  {
    SquareOfAbscissa(c, x, y);
    EvenRoot(c.q, (y * y - 1) * Inv(c.q, c.d * y * y + 1), x);
  }

  lemma SquareOfAbscissa(c: Curve, x: int, y: int)
    requires IsComplete(c) && OnCurve(c, Point(x, y))
    ensures Cong(c.q, x * x, (y * y - 1) * Inv(c.q, c.d * y * y + 1))
  {
    var q, u, v := c.q, y * y - 1, c.d * y * y + 1;
    var i := Inv(q, v);
    DenominatorNonZero(c, y);
    InvIsInverse(q, v);
    DefectAsEquation(c.d, x, y);
    var f := Defect(c.d, x, y);
    assert x * x - u * i == -(x * x) * (v * i - 1) + -i * f by {
      assert f == u - v * (x * x);
      assert i * (v * (x * x)) == (x * x) * (v * i);
    }
    Comb(q, x * x - u * i, -(x * x), v * i - 1, -i, f);
  }

  // ---- scalar multiplication is repeated addition

  function Times(c: Curve, p: Point, n: nat): Point
    requires c.q >= 2
  {
    if n == 0 then NEUTRAL else Add(c, Times(c, p, n - 1), p)
  }

  lemma {:induction false} TimesOnCurve(c: Curve, p: Point, n: nat)
    requires IsComplete(c) && OnCurve(c, p)
    ensures OnCurve(c, Times(c, p, n))
  {
    if n == 0 {
      NeutralOnCurve(c);
    } else {
      TimesOnCurve(c, p, n - 1);
      AddOnCurve(c, Times(c, p, n - 1), p);
    }
  }

  lemma NeutralOnCurve(c: Curve)
    requires c.q > 1
    ensures OnCurve(c, NEUTRAL)
  {
    assert Defect(c.d, 0, 1) == 0;
  }

  lemma {:induction false} TimesAdd(c: Curve, p: Point, m: nat, n: nat)
    requires IsComplete(c) && OnCurve(c, p)
    ensures Times(c, p, m + n) == Add(c, Times(c, p, m), Times(c, p, n))
  {
    TimesOnCurve(c, p, m);
    if n == 0 {
      AddNeutral(c, Times(c, p, m));
    } else {
      TimesAdd(c, p, m, n - 1);
      TimesOnCurve(c, p, n - 1);
      AddAssociates(c, Times(c, p, m), Times(c, p, n - 1), p);
    }
  }

  lemma {:induction false} TimesTimes(c: Curve, p: Point, m: nat, n: nat)
    requires IsComplete(c) && OnCurve(c, p)
    ensures m * n >= 0 && Times(c, Times(c, p, m), n) == Times(c, p, m * n)
  {
    if n == 0 {
      assert m * n == 0;
    } else {
      TimesTimes(c, p, m, n - 1);
      assert m * n == m * (n - 1) + m;
      TimesAdd(c, p, m * (n - 1), m);
    }
  }

  /** Double-and-add computes the e-fold sum. */
  lemma {:induction false} ScalarMultIsTimes(c: Curve, p: Point, e: nat)
    requires IsComplete(c) && OnCurve(c, p)
    ensures ScalarMult(c, p, e) == Times(c, p, e)
  {
    if e > 0 {
      ScalarMultIsTimes(c, p, e / 2);
      TimesAdd(c, p, e / 2, e / 2);
    }
  }

  lemma ScalarMultOnCurve(c: Curve, p: Point, e: nat)
    requires IsComplete(c) && OnCurve(c, p)
    ensures OnCurve(c, ScalarMult(c, p, e))
  {
    ScalarMultIsTimes(c, p, e);
    TimesOnCurve(c, p, e);
  }

  lemma TimesModOrder(c: Curve, p: Point, l: nat, n: nat)
    requires IsComplete(c) && OnCurve(c, p) && l > 0 && Times(c, p, l) == NEUTRAL
    ensures Times(c, p, n % l) == Times(c, p, n)
  {
    TimesMultipleOfOrder(c, p, l, n / l, n % l);
    DivMod(n, l);
  }

  lemma TimesMultipleOfOrder(c: Curve, p: Point, l: nat, k: nat, r: nat)
    requires IsComplete(c) && OnCurve(c, p) && Times(c, p, l) == NEUTRAL
    ensures l * k >= 0 && Times(c, p, l * k + r) == Times(c, p, r)
  {
    TimesTimes(c, p, l, k);
    TimesNeutral(c, k);
    TimesAdd(c, p, l * k, r);
    TimesOnCurve(c, p, r);
    AddNeutral(c, Times(c, p, r));
  }

  lemma {:induction false} TimesNeutral(c: Curve, n: nat)
    requires c.q > 2
    ensures Times(c, NEUTRAL, n) == NEUTRAL
  {
    if n > 0 {
      TimesNeutral(c, n - 1);
      AddNeutral(c, NEUTRAL);
    }
  }

  // ---- verification

  /** The order of the base point divides, or is exactly, the order of the scheme. */
  ghost predicate OrderAnnihilates(s: Scheme)
    requires s.curve.q >= 2
  {
    Times(s.curve, Base(s.curve), s.order) == NEUTRAL
  }

  ghost predicate OrderIsExact(s: Scheme)
    requires s.curve.q >= 2
  {
    && OrderAnnihilates(s)
    && forall n: nat :: 0 < n < s.order ==> Times(s.curve, Base(s.curve), n) != NEUTRAL
  }

  /** The point on the right of the verification equation, for honest R = [r]B and A = [a]B. */
  lemma EquationRight(s: Scheme, r: nat, a: nat, k: nat)
    requires Usable(s) && OrderAnnihilates(s)
    ensures var c, b := s.curve, Base(s.curve);
            Add(c, Times(c, b, r), ScalarMult(c, Times(c, b, a), k)) == Times(c, b, Response(s, r, k, a))
  {
    var c, b := s.curve, Base(s.curve);
    TimesOnCurve(c, b, a);
    ScalarMultIsTimes(c, Times(c, b, a), k);
    TimesTimes(c, b, a, k);
    assert a * k == k * a;
    TimesAdd(c, b, r, k * a);
    TimesModOrder(c, b, s.order, r + k * a);
  }

  lemma HonestPoint(s: Scheme, e: nat)
    requires Usable(s)
    ensures var c, b := s.curve, Base(s.curve);
            && OnCurve(c, Times(c, b, e)) && ScalarMult(c, b, e) == Times(c, b, e)
            && Decode(c, Encode(Times(c, b, e))) == Some(Times(c, b, e))
  {
    TimesOnCurve(s.curve, Base(s.curve), e);
    ScalarMultIsTimes(s.curve, Base(s.curve), e);
    DecodeEncode(s.curve, Times(s.curve, Base(s.curve), e));
  }

  lemma VerifyUnfolds(s: Scheme, H: Hash, bigR: seq<Byte>, tail: seq<Byte>, m: seq<Byte>, pk: seq<Byte>, r: Point, a: Point)
    requires s.curve.q >= 2 && s.order > 0 && |bigR| == |tail| == |pk| == 32
    requires Decode(s.curve, bigR) == Some(r) && Decode(s.curve, pk) == Some(a)
    ensures Verify(s, H, bigR + tail, m, pk)
       <==> FromLE(tail) < s.order
            && ScalarMult(s.curve, Base(s.curve), FromLE(tail))
               == Add(s.curve, r, ScalarMult(s.curve, a, Challenge(s, H, bigR, pk, m)))
  {
    var sig := bigR + tail;
    assert sig[..32] == bigR && sig[32..] == tail;
  }

  /** The scalar an honest signer computes for R = [r]B and the key [a]B. */
  function HonestScalar(s: Scheme, H: Hash, r: nat, a: nat, m: seq<Byte>): nat
    requires Usable(s)
  {
    var c, b := s.curve, Base(s.curve);
    TimesOnCurve(c, b, r);
    TimesOnCurve(c, b, a);
    var k := Challenge(s, H, Encode(Times(c, b, r)), Encode(Times(c, b, a)), m);
    Response(s, r, k, a)
  }

  /** What verification asks of a scalar n when R and the key are honest points [r]B and [a]B. */
  lemma VerifyHonest(s: Scheme, H: Hash, r: nat, a: nat, n: nat, m: seq<Byte>)
    requires Usable(s) && OrderAnnihilates(s) && n < Pow(256, 32)
    ensures var c, b := s.curve, Base(s.curve);
            && OnCurve(c, Times(c, b, r)) && OnCurve(c, Times(c, b, a))
            && (Verify(s, H, Encode(Times(c, b, r)) + ToLE(n, 32), m, Encode(Times(c, b, a)))
                <==> n < s.order && Times(c, b, n) == Times(c, b, HonestScalar(s, H, r, a, m)))
  {
    var c, b := s.curve, Base(s.curve);
    HonestPoint(s, r);
    HonestPoint(s, a);
    HonestPoint(s, n);
    var bigR, pk := Encode(Times(c, b, r)), Encode(Times(c, b, a));
    FromToLE(n, 32);
    EquationRight(s, r, a, Challenge(s, H, bigR, pk, m));
    VerifyUnfolds(s, H, bigR, ToLE(n, 32), m, pk, Times(c, b, r), Times(c, b, a));
  }

  /** Every signature made with a secret key verifies under its public key. */
  lemma VerifyAcceptsSign(s: Scheme, H: Hash, m: seq<Byte>, sk: seq<Byte>)
    requires Usable(s) && OrderAnnihilates(s)
    ensures var pk := PublicKey(s, H, sk); Verify(s, H, Sign(s, H, m, sk, pk), m, pk)
  {
    var a, r := SecretScalar(H, sk), FromLE(H(H(sk)[32..] + m)) % s.order;
    HonestPoint(s, a);
    HonestPoint(s, r);
    VerifyHonest(s, H, r, a, HonestScalar(s, H, r, a, m), m);
  }

  /** When the base point has exactly the declared order, an honest key and R admit one scalar only. */
  lemma VerifyAcceptsOnlyEquation(s: Scheme, H: Hash, r: nat, a: nat, n: nat, m: seq<Byte>)
    requires Usable(s) && OrderIsExact(s) && n < Pow(256, 32)
    ensures var c, b := s.curve, Base(s.curve);
            && OnCurve(c, Times(c, b, r)) && OnCurve(c, Times(c, b, a))
            && (Verify(s, H, Encode(Times(c, b, r)) + ToLE(n, 32), m, Encode(Times(c, b, a)))
                <==> n == HonestScalar(s, H, r, a, m))
  {
    VerifyHonest(s, H, r, a, n, m);
    var n' := HonestScalar(s, H, r, a, m);
    if n < n' {
      TimesInjective(s, n, n');
    } else if n' < n < s.order {
      TimesInjective(s, n', n);
    }
  }

  lemma TimesInjective(s: Scheme, m: nat, n: nat)
    requires Usable(s) && OrderIsExact(s) && m < n < s.order
    ensures Times(s.curve, Base(s.curve), m) != Times(s.curve, Base(s.curve), n)
  {
    var c, b := s.curve, Base(s.curve);
    TimesAdd(c, b, m, s.order - n);
    TimesAdd(c, b, n, s.order - n);
  }
}
