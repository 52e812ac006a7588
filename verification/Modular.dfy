/** Congruence of integers modulo q, stated as "the difference is a multiple of q". */
module Modular {

  ghost predicate Zero(q: nat, a: int)
    requires q > 0
  {
    a % q == 0
  }

  ghost predicate Cong(q: nat, a: int, b: int)
    requires q > 0
  {
    Zero(q, a - b)
  }

  lemma AtLeastOne(q: int, m: int)
    requires q > 0 && m >= 1
    ensures q * m >= q
  {
  }

  lemma MultipleIsZero(q: nat, k: int)
    requires q > 0
    ensures Zero(q, q * k)
  {
    var n := q * k / q;
    assert q * (k - n) == q * k - q * n == q * k % q;
    assert q * (n - k) == -(q * (k - n));
    if k > n {
      AtLeastOne(q, k - n);
    } else if n > k {
      AtLeastOne(q, n - k);
    }
  }

  lemma ZeroIsMultiple(q: nat, a: int) returns (k: int)
    requires q > 0 && Zero(q, a)
    ensures a == q * k
  {
    k := a / q;
  }

  /** Any integer combination of multiples of q is a multiple of q. */
  lemma Comb(q: nat, t: int, a: int, x: int, b: int, y: int)
    requires q > 0 && Zero(q, x) && Zero(q, y)
    requires t == a * x + b * y
    ensures Zero(q, t)
  {
    var k := ZeroIsMultiple(q, x);
    var l := ZeroIsMultiple(q, y);
    assert t == q * (a * k + b * l) by {
      assert a * x == q * (a * k);
      assert b * y == q * (b * l);
    }
    MultipleIsZero(q, a * k + b * l);
  }

  lemma Comb4(q: nat, t: int, a: int, x: int, b: int, y: int, c: int, z: int, d: int, w: int)
    requires q > 0 && Zero(q, x) && Zero(q, y) && Zero(q, z) && Zero(q, w)
    requires t == a * x + b * y + c * z + d * w
    ensures Zero(q, t)
  {
    Comb(q, a * x + b * y, a, x, b, y);
    Comb(q, c * z + d * w, c, z, d, w);
    Comb(q, t, 1, a * x + b * y, 1, c * z + d * w);
  }

  lemma Scale(q: nat, t: int, a: int, x: int)
    requires q > 0 && Zero(q, x) && t == a * x
    ensures Zero(q, t)
  {
    Comb(q, t, a, x, 0, 0);
  }

  lemma Residue(q: nat, a: int)
    requires q > 0
    ensures Cong(q, a, a % q) && Cong(q, a % q, a)
  {
    assert a - a % q == q * (a / q);
    MultipleIsZero(q, a / q);
    assert a % q - a == q * -(a / q);
    MultipleIsZero(q, -(a / q));
  }

  /** Congruent integers have the same residue, and conversely. */
  lemma SameResidue(q: nat, a: int, b: int)
    requires q > 0
    ensures Cong(q, a, b) <==> a % q == b % q
  {
    if Cong(q, a, b) {
      var k := ZeroIsMultiple(q, a - b);
      var r := b % q;
      assert a == q * (k + b / q) + r;
      DivModUnique(q, a, k + b / q, r);
    } else if a % q == b % q {
      assert a - b == q * (a / q - b / q);
      MultipleIsZero(q, a / q - b / q);
    }
  }

  lemma MultipleBound(q: nat, x: int)
    requires q > 0
    ensures x >= 1 ==> q * x >= q
    ensures x <= -1 ==> q * x + q <= 0
  {
  }

  lemma DivModUnique(q: nat, a: int, k: int, r: int)
    requires q > 0 && a == q * k + r && 0 <= r < q
    ensures a % q == r && a / q == k
  {
    MultipleBound(q, k - a / q);
    assert q * (k - a / q) + r == a % q;
  }

  lemma CongSym(q: nat, a: int, b: int)
    requires q > 0 && Cong(q, a, b)
    ensures Cong(q, b, a)
  {
    Scale(q, b - a, -1, a - b);
  }

  lemma CongTrans(q: nat, a: int, b: int, c: int)
    requires q > 0 && Cong(q, a, b) && Cong(q, b, c)
    ensures Cong(q, a, c)
  {
    Comb(q, a - c, 1, a - b, 1, b - c);
  }

  lemma CongMul(q: nat, a: int, b: int, c: int, d: int)
    requires q > 0 && Cong(q, a, b) && Cong(q, c, d)
    ensures Cong(q, a * c, b * d)
  {
    assert a * c - b * d == c * (a - b) + b * (c - d);
    Comb(q, a * c - b * d, c, a - b, b, c - d);
  }
}
