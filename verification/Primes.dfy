/** Arithmetic modulo a prime: Euclid's lemma, Fermat's little theorem and the square root of -1. */
module Primes {
  import opened Numbers
  import opened Modular

  ghost predicate IsPrime(q: nat) {
    q >= 2 && forall k: nat {:trigger q % k} :: 2 <= k < q ==> q % k != 0
  }

  ghost predicate IsSquare(q: nat, a: int)
    requires q > 0
  {
    exists z: int {:trigger z * z} :: Cong(q, z * z, a)
  }

  function Pow(b: int, e: nat): int {
    if e == 0 then 1 else b * Pow(b, e - 1)
  }

  lemma {:induction false} PowAdd(b: int, e: nat, f: nat)
    ensures Pow(b, e + f) == Pow(b, e) * Pow(b, f)
  {
    if e > 0 {
      PowAdd(b, e - 1, f);
      assert b * (Pow(b, e - 1) * Pow(b, f)) == b * Pow(b, e - 1) * Pow(b, f);
    }
  }

  lemma {:induction false} PowOfPow(b: int, e: nat, f: nat)
    ensures e * f >= 0 && Pow(Pow(b, e), f) == Pow(b, e * f)
  {
    if f == 0 {
      assert e * f == 0;
    } else {
      PowOfPow(b, e, f - 1);
      assert e * f == e + e * (f - 1);
      PowAdd(b, e, e * (f - 1));
    }
  }

  lemma {:induction false} PowCong(q: nat, a: int, b: int, e: nat)
    requires q > 0 && Cong(q, a, b)
    ensures Cong(q, Pow(a, e), Pow(b, e))
  {
    if e > 0 {
      PowCong(q, a, b, e - 1);
      CongMul(q, a, b, Pow(a, e - 1), Pow(b, e - 1));
    }
  }

  lemma {:induction false} PowOne(e: nat)
    ensures Pow(1, e) == 1
  {
    if e > 0 { PowOne(e - 1); }
  }

  /** Euclid's lemma. */
  lemma Euclid(q: nat, a: int, b: int)
    requires IsPrime(q) && Zero(q, a * b)
    ensures Zero(q, a) || Zero(q, b)
  {
    if !Zero(q, a) {
      var r := a % q;
      assert r * b == a * b - q * ((a / q) * b) by { assert a == q * (a / q) + r; }
      MultipleIsZero(q, (a / q) * b);
      Comb(q, r * b, 1, a * b, -1, q * ((a / q) * b));
      EuclidBelow(q, r, b);
    }
  }

  lemma {:induction false} EuclidBelow(q: nat, r: nat, b: int)
    requires IsPrime(q) && 1 <= r < q && Zero(q, r * b)
    ensures Zero(q, b)
    decreases r
  {
    if r > 1 {
      var s := q % r;
      assert s * b == q * b - (q / r) * (r * b) by { assert q == (q / r) * r + s; }
      MultipleIsZero(q, b);
      Comb(q, s * b, 1, q * b, -(q / r), r * b);
      EuclidBelow(q, s, b);
    }
  }

  lemma NonZeroProduct(q: nat, a: int, b: int)
    requires IsPrime(q) && !Zero(q, a) && !Zero(q, b)
    ensures !Zero(q, a * b)
  {
    if Zero(q, a * b) { Euclid(q, a, b); }
  }

  lemma Cancel(q: nat, c: int, a: int, b: int)
    requires IsPrime(q) && !Zero(q, c) && Cong(q, c * a, c * b)
    ensures Cong(q, a, b)
  {
    assert c * a - c * b == c * (a - b);
    Euclid(q, c, a - b);
  }

  lemma CancelFactor(q: nat, c: int, a: int, b: int)
    requires IsPrime(q) && !Zero(q, c) && Cong(q, a * c, b * c)
    ensures Cong(q, a, b)
  {
    assert a * c == c * a && b * c == c * b;
    Cancel(q, c, a, b);
  }

  // ---- products over 1..n and permutations of 1..n

  function Product(n: nat, f: nat -> int): int {
    if n == 0 then 1 else f(n) * Product(n - 1, f)
  }

  ghost function SetProduct(s: set<nat>): int {
    if s == {} then 1 else var x :| x in s; x * SetProduct(s - {x})
  }

  lemma {:induction false} SetProductRemove(s: set<nat>, y: nat)
    requires y in s
    ensures SetProduct(s) == y * SetProduct(s - {y})
  {
    var x :| x in s && SetProduct(s) == x * SetProduct(s - {x});
    if x != y {
      var rest := s - {x} - {y};
      SetProductRemove(s - {x}, y);
      SetProductRemove(s - {y}, x);
      assert s - {y} - {x} == rest;
      Swap(x, y, SetProduct(rest));
    }
  }

  lemma Swap(x: int, y: int, z: int)
    ensures x * (y * z) == y * (x * z)
  {
  }

  ghost function Image(n: nat, g: nat -> nat): set<nat> {
    set i: nat | 1 <= i <= n :: g(i)
  }

  ghost predicate Injective(n: nat, g: nat -> nat) {
    forall i: nat, j: nat :: 1 <= i < j <= n ==> g(i) != g(j)
  }

  lemma ImageStep(n: nat, g: nat -> nat)
    requires n > 0 && Injective(n, g)
    ensures g(n) in Image(n, g) && Image(n, g) - {g(n)} == Image(n - 1, g)
    ensures |Image(n, g)| == |Image(n - 1, g)| + 1
  {
    assert Image(n, g) == Image(n - 1, g) + {g(n)};
    assert g(n) !in Image(n - 1, g);
  }

  lemma {:induction false} ProductOfImage(n: nat, g: nat -> nat, f: nat -> int)
    requires Injective(n, g)
    requires forall i: nat :: 1 <= i <= n ==> f(i) == g(i)
    ensures Product(n, f) == SetProduct(Image(n, g)) && |Image(n, g)| == n
  {
    if n == 0 {
      assert Image(n, g) == {};
    } else {
      ProductOfImage(n - 1, g, f);
      ImageStep(n, g);
      SetProductRemove(Image(n, g), g(n));
    }
  }

  lemma {:induction false} SubsetOfSameSize(a: set<nat>, b: set<nat>)
    requires a <= b && |a| == |b|
    ensures a == b
  {
    if a != {} {
      var x :| x in a;
      SubsetOfSameSize(a - {x}, b - {x});
    } else {
      assert b == {};
    }
  }

  /** The product of a permutation of 1..n is n factorial. */
  lemma PermutationKeepsProduct(n: nat, g: nat -> nat, f: nat -> int)
    requires Injective(n, g)
    requires forall i: nat :: 1 <= i <= n ==> 1 <= g(i) <= n && f(i) == g(i)
    ensures Product(n, f) == Factorial(n)
  {
    var id, fid := (i: nat) => i, (i: nat) => i as int;
    ProductOfImage(n, g, f);
    ProductOfImage(n, id, fid);
    forall x | x in Image(n, g) ensures x in Image(n, id) { assert id(x) == x; }
    SubsetOfSameSize(Image(n, g), Image(n, id));
    ScaledProduct(n, 1, fid);
    PowOne(n);
  }

  lemma {:induction false} CongruentFactors(q: nat, n: nat, f: nat -> int, g: nat -> int)
    requires q > 0
    requires forall i: nat :: 1 <= i <= n ==> Cong(q, f(i), g(i))
    ensures Cong(q, Product(n, f), Product(n, g))
  {
    if n > 0 {
      CongruentFactors(q, n - 1, f, g);
      CongMul(q, f(n), g(n), Product(n - 1, f), Product(n - 1, g));
    }
  }

  function Factorial(n: nat): int {
    if n == 0 then 1 else n * Factorial(n - 1)
  }

  lemma {:induction false} ScaledProduct(n: nat, a: int, f: nat -> int)
    requires forall i: nat :: 1 <= i <= n ==> f(i) == a * i
    ensures Product(n, f) == Pow(a, n) * Factorial(n)
  {
    if n > 0 {
      ScaledProduct(n - 1, a, f);
      Interchange(a, n, Pow(a, n - 1), Factorial(n - 1));
    }
  }

  lemma Interchange(a: int, b: int, c: int, d: int)
    ensures a * b * (c * d) == a * c * (b * d)
  {
    assert a * b * (c * d) == a * (b * (c * d)) == a * (c * (b * d)) == a * c * (b * d);
  }

  lemma {:induction false} FactorialNonZero(q: nat, n: nat)
    requires IsPrime(q) && n < q
    ensures !Zero(q, Factorial(n))
  {
    if n > 0 {
      FactorialNonZero(q, n - 1);
      NonZeroProduct(q, n, Factorial(n - 1));
    }
  }

  lemma SmallNonZero(q: nat, n: int)
    requires 0 < n < q || 0 < -n < q
    ensures !Zero(q, n)
  {
    if n < 0 { DivModUnique(q, n, -1, n + q); }
  }

  /** Fermat's little theorem. */
  lemma Fermat(q: nat, a: int)
    requires IsPrime(q) && !Zero(q, a)
    ensures Cong(q, Pow(a, q - 1), 1)
  {
    var g: nat -> nat := (i: nat) => Abs((a * i) % q);
    var f, h := (i: nat) => a * i, (i: nat) => (a * i) % q;
    forall i: nat | 1 <= i <= q - 1 ensures 1 <= g(i) <= q - 1 && Cong(q, f(i), h(i)) {
      NonZeroProduct(q, a, i);
      Residue(q, a * i);
    }
    forall i: nat, j: nat | 1 <= i < j <= q - 1 ensures g(i) != g(j) {
      if g(i) == g(j) {
        SameResidue(q, a * i, a * j);
        Cancel(q, a, i, j);
        SmallNonZero(q, i as int - j as int);
      }
    }
    PermutationKeepsProduct(q - 1, g, h);
    CongruentFactors(q, q - 1, f, h);
    ScaledProduct(q - 1, a, f);
    FactorialNonZero(q, q - 1);
    CancelFactor(q, Factorial(q - 1), Pow(a, q - 1), 1);
  }

  // ---- 2 is not a square modulo a prime q = 8k + 5, so 2^((q-1)/4) is a root of -1

  /** Where doubling sends i in 1..h, up to the sign. */
  function Fold(q: nat, h: nat, i: nat): nat {
    if 2 * i <= h then 2 * i else if 2 * i <= q then q - 2 * i else 0
  }

  function FoldSign(h: nat, i: nat): int {
    if 2 * i <= h then 1 else -1
  }

  function SignProduct(h: nat, n: nat): int {
    if n == 0 then 1 else FoldSign(h, n) * SignProduct(h, n - 1)
  }

  lemma {:induction false} SignedProduct(h: nat, n: nat, f: nat -> int, g: nat -> int)
    requires forall i: nat :: 1 <= i <= n ==> f(i) == FoldSign(h, i) * g(i)
    ensures Product(n, f) == SignProduct(h, n) * Product(n, g)
  {
    if n > 0 {
      SignedProduct(h, n - 1, f, g);
      Interchange(FoldSign(h, n), g(n), SignProduct(h, n - 1), Product(n - 1, g));
    }
  }

  lemma {:induction false} SignCount(h: nat, n: nat)
    ensures n <= h / 2 ==> SignProduct(h, n) == 1
    ensures n >= h / 2 ==> SignProduct(h, n) == if (n - h / 2) % 2 == 0 then 1 else -1
  {
    if n > 0 { SignCount(h, n - 1); }
  }

  lemma FoldIsSignedDouble(q: nat, h: nat, i: nat)
    requires q == 2 * h + 1 && 1 <= i <= h
    ensures 1 <= Fold(q, h, i) <= h && Cong(q, 2 * i, FoldSign(h, i) * Fold(q, h, i))
  {
    MultipleIsZero(q, 1);
  }

  lemma FoldInjective(q: nat, h: nat, i: nat, j: nat)
    requires q == 2 * h + 1 && 1 <= i < j <= h
    ensures Fold(q, h, i) != Fold(q, h, j)
  {
  }

  /** Gauss's argument for 2: the even numbers up to q - 1 are, up to sign, the numbers up to (q - 1) / 2. */
  lemma TwoIsNonResidue(q: nat)
    requires IsPrime(q) && q % 8 == 5
    ensures Cong(q, Pow(2, (q - 1) / 2), -1)
  {
    var h := (q - 1) / 2;
    var g := (i: nat) => Fold(q, h, i);
    var f, e, s := (i: nat) => 2 * i, (i: nat) => Fold(q, h, i) as int, (i: nat) => FoldSign(h, i) * Fold(q, h, i);
    forall i: nat | 1 <= i <= h ensures 1 <= g(i) <= h && Cong(q, f(i), s(i)) {
      FoldIsSignedDouble(q, h, i);
    }
    forall i: nat, j: nat | 1 <= i < j <= h ensures g(i) != g(j) {
      FoldInjective(q, h, i, j);
    }
    PermutationKeepsProduct(h, g, e);
    CongruentFactors(q, h, f, s);
    SignedProduct(h, h, s, e);
    assert SignProduct(h, h) == -1 by { SignCount(h, h); }
    ScaledProduct(h, 2, f);
    FactorialNonZero(q, h);
    CancelFactor(q, Factorial(h), Pow(2, h), -1);
  }

  lemma RootOfMinusOne(q: nat)
    requires IsPrime(q) && q % 8 == 5
    ensures Cong(q, Pow(2, (q - 1) / 4) * Pow(2, (q - 1) / 4), -1)
  {
    TwoIsNonResidue(q);
    PowAdd(2, (q - 1) / 4, (q - 1) / 4);
  }
}
