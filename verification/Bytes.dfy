/** Byte strings and their little-endian integer value. */
module Bytes {
  import opened Numbers
  import opened Primes

  function FromLE(b: seq<Byte>): nat {
    if b == [] then 0 else b[0] + 256 * FromLE(b[1..])
  }

  function ToLE(n: nat, len: nat): (b: seq<Byte>)
    ensures |b| == len
  {
    if len == 0 then [] else [n % 256] + ToLE(n / 256, len - 1)
  }

  lemma {:induction false} FromLEBound(b: seq<Byte>)
    ensures FromLE(b) < Pow(256, |b|)
  {
    if b != [] { FromLEBound(b[1..]); }
  }

  lemma {:induction false} FromToLE(n: nat, len: nat)
    requires n < Pow(256, len)
    ensures FromLE(ToLE(n, len)) == n
  {
    if len > 0 {
      FromToLE(n / 256, len - 1);
      assert ToLE(n, len)[1..] == ToLE(n / 256, len - 1);
    }
  }

  lemma {:induction false} ToFromLE(b: seq<Byte>)
    ensures ToLE(FromLE(b), |b|) == b
  {
    if b != [] {
      ToFromLE(b[1..]);
      LowDigit(b[0], FromLE(b[1..]));
      assert b == [b[0]] + b[1..];
    }
  }

  lemma LowDigit(d: Byte, n: nat)
    ensures (d + 256 * n) % 256 == d && (d + 256 * n) / 256 == n
  {
  }

  /** Byte i stands for its multiple of 256^i. */
  lemma {:induction false} ByteWeight(b: seq<Byte>, i: nat)
    requires i < |b|
    ensures Pow(256, i) > 0 && FromLE(b) / Pow(256, i) % 256 == b[i]
  {
    LowDigit(b[0], FromLE(b[1..]));
    if i > 0 {
      ByteWeight(b[1..], i - 1);
      DivideTwice(FromLE(b), Pow(256, i - 1));
    }
  }

  lemma DivideTwice(n: nat, w: nat)
    requires w > 0
    ensures n / (256 * w) == n / 256 / w
  {
    var q, r := n / 256, n % 256;
    var k, l := q / w, q % w;
    assert 256 * (k * w) == k * (256 * w);
    assert n == k * (256 * w) + (256 * l + r);
    QuotientIs(n, 256 * w, k, 256 * l + r);
  }

  lemma QuotientIs(n: nat, m: nat, k: nat, r: nat)
    requires m > 0 && r < m && n == k * m + r
    ensures n / m == k
  {
    var j := n / m;
    assert (j - k) * m == r - n % m;
    if j > k { Monotone(1, j - k, m); }
    if k > j {
      assert (k - j) * m == n % m - r;
      Monotone(1, k - j, m);
    }
  }

  lemma {:induction false} FromLEAppend(b: seq<Byte>, t: Byte)
    ensures FromLE(b + [t]) == FromLE(b) + t * Pow(256, |b|)
  {
    if b == [] {
      assert b + [t] == [t];
    } else {
      FromLEAppend(b[1..], t);
      assert (b + [t])[1..] == b[1..] + [t];
      assert 256 * (t * Pow(256, |b| - 1)) == t * Pow(256, |b|);
    }
  }

  /** A value below 2^(8 len - 1) leaves the top bit of its encoding clear. */
  lemma TopBitClear(n: nat, len: nat)
    requires len > 0 && n < 128 * Pow(256, len - 1)
    ensures n < Pow(256, len) && ToLE(n, len)[len - 1] < 128
  {
    var b := ToLE(n, len);
    FromToLE(n, len);
    FromLEAppend(b[..len - 1], b[len - 1]);
    assert b == b[..len - 1] + [b[len - 1]];
    Monotone(128, b[len - 1], Pow(256, len - 1));
  }

  lemma Monotone(a: int, b: int, w: int)
    requires w >= 0
    ensures a <= b ==> a * w <= b * w
  {
  }
}
