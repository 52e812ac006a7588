/** The constants of the deployed scheme, and what the scheme theorems become for them. */
module Ed25519Constants {
  import opened Numbers
  import opened Modular
  import opened Primes
  import opened Edwards
  import opened Bytes
  import opened PointCodec
  import opened GroupLaw
  import opened Ed25519

  // 2^255 - 19, the order 2^252 + 27742317777372353535851937790883648493 and -121665/121666
  const Q: nat := 57896044618658097711785492504343953926634992332820282019728792003956564819949
  const L: nat := 7237005577332262213973186563042994240857116359379907606001950938285454250989
  const D: int := 37095705934669439343138083508754565189542113879843219016388785533085940283555
  const ED25519 := Scheme(Curve(Q, D), L)

  // 4/5 and the even root of (y^2 - 1)/(d y^2 + 1); a root of 2 d
  const BASE_Y: int := 46316835694926478169428394003475163141307993866256225615783033603165251855960
  const BASE_X: int := 15112221349535400772501151409588531511454012693041857206046113283949847762202
  const ROOT_OF_2D: int := 55487632915927625549282413919184614932259505768049324239291840100650878933168

  lemma PrimeShape()
    ensures Q % 8 == 5 && Q == Pow(2, 255) - 19 && Q <= 128 * Pow(256, 31) && L < Pow(256, 32) && L > 0
    ensures L == Pow(2, 252) + 27742317777372353535851937790883648493
  {
    PowersOfTwo();
    PowersOf256();
  }

  lemma PowersOfTwo()
    ensures Pow(2, 252) == 7237005577332262213973186563042994240829374041602535252466099000494570602496 && Pow(2, 255) == 57896044618658097711785492504343953926634992332820282019728792003956564819968
  {
    assert Pow(2, 7) == 128 by { assert Pow(2, 3) == 8; assert Pow(2, 5) == 32; }
    PowAdd(2, 7, 7);
    PowAdd(2, 14, 14);
    PowAdd(2, 28, 28);
    PowAdd(2, 56, 7);
    PowAdd(2, 63, 63);
    PowAdd(2, 126, 126);
    assert Pow(2, 126) == 85070591730234615865843651857942052864;
    PowAdd(2, 252, 3);
  }

  lemma PowersOf256()
    ensures Pow(256, 31) == 452312848583266388373324160190187140051835877600158453279131187530910662656 && Pow(256, 32) == 115792089237316195423570985008687907853269984665640564039457584007913129639936
  {
    assert Pow(256, 3) == 16777216 by { assert Pow(256, 1) == 256; }
    PowAdd(256, 3, 4);
    assert Pow(256, 4) == 4294967296 && Pow(256, 7) == 72057594037927936;
    PowAdd(256, 7, 7);
    PowAdd(256, 14, 1);
    assert Pow(256, 15) == 1329227995784915872903807060280344576 by { assert Pow(256, 1) == 256; }
    PowAdd(256, 15, 15);
    PowAdd(256, 30, 1);
  }

  /** The five literals satisfy their defining equations modulo Q. */
  lemma LiteralEquations()
    ensures Cong(Q, 121666 * D, -121665)
    ensures Cong(Q, ROOT_OF_2D * ROOT_OF_2D, 2 * D)
    ensures Cong(Q, 5 * BASE_Y, 4)
    ensures Zero(Q, Defect(D, BASE_X, BASE_Y))
  {
    assert 121666 * D - -121665 == Q * 77955;
    MultipleIsZero(Q, 77955);
    assert ROOT_OF_2D * ROOT_OF_2D - 2 * D == Q * 53179408487959267070981863600993299124359631661352230105186135972200424991586;
    MultipleIsZero(Q, 53179408487959267070981863600993299124359631661352230105186135972200424991586);
    assert 5 * BASE_Y - 4 == Q * 4;
    MultipleIsZero(Q, 4);
    assert Defect(D, BASE_X, BASE_Y)
        == Q * -313912869351021175552095638354475319435719866822403256103793839727111434695402522007437748672709022944181123840026140012976076642505601989877288187536393899427418215919658923821043034718165221043996317890960162518762831745378375357102403309936170782468110973434315685750709096189645234905588967493870803545;
    MultipleIsZero(Q, -313912869351021175552095638354475319435719866822403256103793839727111434695402522007437748672709022944181123840026140012976076642505601989877288187536393899427418215919658923821043034718165221043996317890960162518762831745378375357102403309936170782468110973434315685750709096189645234905588967493870803545);
  }

  /** The literal D is the code's -121665/121666, and the addition law is complete for it. */
  lemma CurveConstants()
    requires IsPrime(Q)
    ensures D == -121665 * Inv(Q, 121666) % Q
    ensures IsComplete(ED25519.curve) && Encodable(ED25519.curve)
  {
    PrimeShape();
    LiteralEquations();
    SmallNonZero(Q, 121666);
    QuotientIsUnique(Q, -121665, 121666, D);
    SmallNonZero(Q, D);
    NonSquareByTwice(Q, D, ROOT_OF_2D);
  }

  lemma QuotientIsUnique(q: nat, a: int, b: int, r: int)
    requires IsPrime(q) && !Zero(q, b) && 0 <= r < q && Cong(q, b * r, a)
    ensures r == a * Inv(q, b) % q
  {
    var t := a * Inv(q, b) % q;
    Quotient(q, a, b);
    CongSym(q, b * r, a);
    assert t * b == b * t;
    CongTrans(q, b * t, a, b * r);
    EqualResidues(q, b, t, r);
  }

  /** The code's base point, computed from 4/5, is the literal one and lies on the curve. */
  lemma BasePoint()
    requires IsPrime(Q)
    ensures Base(ED25519.curve) == Point(BASE_X, BASE_Y) && OnCurve(ED25519.curve, Base(ED25519.curve))
  {
    var c := ED25519.curve;
    CurveConstants();
    LiteralEquations();
    SmallNonZero(Q, 5);
    QuotientIsUnique(Q, 4, 5, BASE_Y);
    RecoverEvenX(c, BASE_X, BASE_Y);
  }

  /** For the deployed constants, verification accepts every signature, given that 2^255 - 19 is prime and [L]B = O. */
  lemma DeployedVerifyAcceptsSign(H: Hash, m: seq<Byte>, sk: seq<Byte>)
    requires IsPrime(Q) && OrderAnnihilates(ED25519)
    ensures Usable(ED25519)
    ensures var pk := PublicKey(ED25519, H, sk); Verify(ED25519, H, Sign(ED25519, H, m, sk, pk), m, pk)
  {
    CurveConstants();
    BasePoint();
    PrimeShape();
    VerifyAcceptsSign(ED25519, H, m, sk);
  }
}
