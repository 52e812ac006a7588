/** What a signature depends on: the scalars and the equation of RFC 8032 sections 5.1.5 to 5.1.7, written out. */
module SignatureBinding {
  import opened Wrappers
  import opened Numbers
  import opened Modular
  import opened Primes
  import opened Edwards
  import opened GroupLaw
  import opened Bytes
  import opened PointCodec
  import opened Ed25519

  /** The secret scalar: a multiple of 8 with bit 254 as its highest, and bits 3 to 253 of the first half of the digest. */
  lemma SecretScalarBits(H: Hash, sk: seq<Byte>)
    ensures var a, h := SecretScalar(H, sk), FromLE(H(sk)[..32]);
            && Pow(2, 254) > 0 && Pow(2, 254) <= a < 2 * Pow(2, 254) && a % 8 == 0
            && (a - Pow(2, 254)) / 8 == h % Pow(2, 254) / 8
  {
    PowNonNegative(2, 254);
    PowTwoByEight(251);
    assert Pow(2, 254) == 8 * Pow(2, 251);
    EightBelow(FromLE(H(sk)[..32]) % Pow(2, 254), Pow(2, 251));
  }

  lemma PowTwoByEight(e: nat)
    ensures Pow(2, e + 3) == 8 * Pow(2, e)
  {
    assert Pow(2, e + 1) == 2 * Pow(2, e) && Pow(2, e + 2) == 2 * Pow(2, e + 1) && Pow(2, e + 3) == 2 * Pow(2, e + 2);
  }

  lemma EightBelow(n: nat, p: nat)
    requires n < 8 * p
    ensures n / 8 * 8 < 8 * p && (8 * p + n / 8 * 8) % 8 == 0 && n / 8 * 8 / 8 == n / 8
  {
  }

  /** The public key is the encoded multiple of the base point. */
  lemma PublicKeyIsMultiple(s: Scheme, H: Hash, sk: seq<Byte>)
    requires Usable(s)
    ensures OnCurve(s.curve, Times(s.curve, Base(s.curve), SecretScalar(H, sk)))
    ensures PublicKey(s, H, sk) == Encode(Times(s.curve, Base(s.curve), SecretScalar(H, sk)))
  {
    HonestPoint(s, SecretScalar(H, sk));
  }

  lemma SignUnfolds(s: Scheme, H: Hash, m: seq<Byte>, sk: seq<Byte>, pk: seq<Byte>, r: nat, bigR: seq<Byte>)
    requires Usable(s) && r == FromLE(H(H(sk)[32..] + m)) % s.order
    requires OnCurve(s.curve, ScalarMult(s.curve, Base(s.curve), r)) && bigR == Encode(ScalarMult(s.curve, Base(s.curve), r))
    ensures Sign(s, H, m, sk, pk) == bigR + ToLE(Response(s, r, Challenge(s, H, bigR, pk, m), SecretScalar(H, sk)), 32)
  {
  }

  /** r + ka modulo the order. */
  lemma ResponseValue(s: Scheme, r: nat, k: nat, a: nat)
    requires 0 < s.order <= Pow(256, 32)
    ensures Response(s, r, k, a) == (r + k * a) % s.order && Response(s, r, k, a) < Pow(256, 32)
  {
  }

  lemma SplitHalves(a: seq<Byte>, n: nat)
    requires |a| == 32 && n < Pow(256, 32)
    ensures (a + ToLE(n, 32))[..32] == a && FromLE((a + ToLE(n, 32))[32..]) == n
  {
    assert (a + ToLE(n, 32))[32..] == ToLE(n, 32);
    FromToLE(n, 32);
  }

  /** A signature taken apart: R is the multiple of the base point by the digest of prefix and message, and S is that
      digest plus the digest of R, key and message times the secret scalar, modulo the order. */
  lemma SignatureParts(s: Scheme, H: Hash, m: seq<Byte>, sk: seq<Byte>, pk: seq<Byte>)
    requires Usable(s)
    ensures var sig, r := Sign(s, H, m, sk, pk), FromLE(H(H(sk)[32..64] + m)) % s.order;
            && |sig| == 64 && OnCurve(s.curve, Times(s.curve, Base(s.curve), r))
            && sig[..32] == Encode(Times(s.curve, Base(s.curve), r))
            && FromLE(sig[32..]) == Response(s, r, FromLE(H(sig[..32] + pk + m)) % s.order, SecretScalar(H, sk))
  {
    var r := FromLE(H(H(sk)[32..64] + m)) % s.order;
    assert H(sk)[32..64] == H(sk)[32..];
    HonestPoint(s, r);
    var bigR := Encode(Times(s.curve, Base(s.curve), r));
    SignUnfolds(s, H, m, sk, pk, r, bigR);
    ResponseValue(s, r, Challenge(s, H, bigR, pk, m), SecretScalar(H, sk));
    SplitHalves(bigR, Response(s, r, Challenge(s, H, bigR, pk, m), SecretScalar(H, sk)));
  }

  lemma SameMultiple(s: Scheme, m: nat, n: nat)
    requires Usable(s) && OrderIsExact(s) && m < s.order && n < s.order
    ensures OnCurve(s.curve, Times(s.curve, Base(s.curve), m)) && OnCurve(s.curve, Times(s.curve, Base(s.curve), n))
    ensures Encode(Times(s.curve, Base(s.curve), m)) == Encode(Times(s.curve, Base(s.curve), n)) <==> m == n
  {
    HonestPoint(s, m);
    HonestPoint(s, n);
    if m < n { TimesInjective(s, m, n); }
    if n < m { TimesInjective(s, n, m); }
  }

  /** Two signatures under one key share R if and only if the digests of prefix and message agree modulo the order. */
  lemma SameRExactly(s: Scheme, H: Hash, m: seq<Byte>, n: seq<Byte>, sk: seq<Byte>, pk: seq<Byte>)
    requires Usable(s) && OrderIsExact(s)
    ensures Sign(s, H, m, sk, pk)[..32] == Sign(s, H, n, sk, pk)[..32]
       <==> FromLE(H(H(sk)[32..64] + m)) % s.order == FromLE(H(H(sk)[32..64] + n)) % s.order
  {
    SignatureParts(s, H, m, sk, pk);
    SignatureParts(s, H, n, sk, pk);
    SameMultiple(s, FromLE(H(H(sk)[32..64] + m)) % s.order, FromLE(H(H(sk)[32..64] + n)) % s.order);
  }

  /** So messages whose digests differ modulo the order get different points R. */
  lemma FreshR(s: Scheme, H: Hash, m: seq<Byte>, n: seq<Byte>, sk: seq<Byte>, pk: seq<Byte>)
    requires Usable(s) && OrderIsExact(s)
    requires FromLE(H(H(sk)[32..64] + m)) % s.order != FromLE(H(H(sk)[32..64] + n)) % s.order
    ensures Sign(s, H, m, sk, pk)[..32] != Sign(s, H, n, sk, pk)[..32]
  {
    SameRExactly(s, H, m, n, sk, pk);
  }

  /** Verification, written out: both points decode, S is reduced, and [S]B = R + [k]A with repeated addition, where k is
      the digest of R, key and message. */
  lemma VerifyExactly(s: Scheme, H: Hash, sig: seq<Byte>, m: seq<Byte>, pk: seq<Byte>)
    requires Usable(s)
    ensures Verify(s, H, sig, m, pk) <==>
            (&& |sig| == 64 && |pk| == 32 && Decode(s.curve, sig[..32]).Some? && Decode(s.curve, pk).Some?
             && FromLE(sig[32..]) < s.order
             && Times(s.curve, Base(s.curve), FromLE(sig[32..]))
                == Add(s.curve, Decode(s.curve, sig[..32]).value,
                       Times(s.curve, Decode(s.curve, pk).value, FromLE(H(sig[..32] + pk + m)) % s.order)))
  {
    if |sig| == 64 && |pk| == 32 && Decode(s.curve, sig[..32]).Some? && Decode(s.curve, pk).Some? {
      DecodedOnCurve(s.curve, pk);
      ScalarMultIsTimes(s.curve, Base(s.curve), FromLE(sig[32..]));
      ScalarMultIsTimes(s.curve, Decode(s.curve, pk).value, FromLE(H(sig[..32] + pk + m)) % s.order);
    }
  }
}
