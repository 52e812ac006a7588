/** SHA-256 as FIPS 180-4 defines it: the functions of section 4.1.2, the constants of section 4.2.2, the padding of
    section 5.1.1 and the computation of section 6.2.2. */
module Sha256Spec {
  type Word = bv32
  type Octet = bv8

  // ---- functions (section 4.1.2)

  function Ch(x: Word, y: Word, z: Word): Word { (x & y) ^ (!x & z) }

  function Maj(x: Word, y: Word, z: Word): Word { (x & y) ^ (x & z) ^ (y & z) }

  /** A rotation to the right by n is the disjunction of the shifts by n to the right and by 32 - n to the left
      (section 3.2). */
  function BigSigma0(x: Word): Word {
    ((x >> 2) | (x << 30)) ^ ((x >> 13) | (x << 19)) ^ ((x >> 22) | (x << 10))
  }

  function BigSigma1(x: Word): Word {
    ((x >> 6) | (x << 26)) ^ ((x >> 11) | (x << 21)) ^ ((x >> 25) | (x << 7))
  }

  function SmallSigma0(x: Word): Word {
    ((x >> 7) | (x << 25)) ^ ((x >> 18) | (x << 14)) ^ (x >> 3)
  }

  function SmallSigma1(x: Word): Word {
    ((x >> 17) | (x << 15)) ^ ((x >> 19) | (x << 13)) ^ (x >> 10)
  }

  // ---- constants (sections 4.2.2 and 5.3.3)

  function K(i: nat): Word
    requires i < 64
  {
    match i / 8
    case 0 => K0(i % 8)
    case 1 => K1(i % 8)
    case 2 => K2(i % 8)
    case 3 => K3(i % 8)
    case 4 => K4(i % 8)
    case 5 => K5(i % 8)
    case 6 => K6(i % 8)
    case _ => K7(i % 8)
  }

  function K0(i: nat): Word {
    match i
    case 0 => 0x428a2f98 case 1 => 0x71374491 case 2 => 0xb5c0fbcf case 3 => 0xe9b5dba5
    case 4 => 0x3956c25b case 5 => 0x59f111f1 case 6 => 0x923f82a4 case _ => 0xab1c5ed5
  }

  function K1(i: nat): Word {
    match i
    case 0 => 0xd807aa98 case 1 => 0x12835b01 case 2 => 0x243185be case 3 => 0x550c7dc3
    case 4 => 0x72be5d74 case 5 => 0x80deb1fe case 6 => 0x9bdc06a7 case _ => 0xc19bf174
  }

  function K2(i: nat): Word {
    match i
    case 0 => 0xe49b69c1 case 1 => 0xefbe4786 case 2 => 0x0fc19dc6 case 3 => 0x240ca1cc
    case 4 => 0x2de92c6f case 5 => 0x4a7484aa case 6 => 0x5cb0a9dc case _ => 0x76f988da
  }

  function K3(i: nat): Word {
    match i
    case 0 => 0x983e5152 case 1 => 0xa831c66d case 2 => 0xb00327c8 case 3 => 0xbf597fc7
    case 4 => 0xc6e00bf3 case 5 => 0xd5a79147 case 6 => 0x06ca6351 case _ => 0x14292967
  }

  function K4(i: nat): Word {
    match i
    case 0 => 0x27b70a85 case 1 => 0x2e1b2138 case 2 => 0x4d2c6dfc case 3 => 0x53380d13
    case 4 => 0x650a7354 case 5 => 0x766a0abb case 6 => 0x81c2c92e case _ => 0x92722c85
  }

  function K5(i: nat): Word {
    match i
    case 0 => 0xa2bfe8a1 case 1 => 0xa81a664b case 2 => 0xc24b8b70 case 3 => 0xc76c51a3
    case 4 => 0xd192e819 case 5 => 0xd6990624 case 6 => 0xf40e3585 case _ => 0x106aa070
  }

  function K6(i: nat): Word {
    match i
    case 0 => 0x19a4c116 case 1 => 0x1e376c08 case 2 => 0x2748774c case 3 => 0x34b0bcb5
    case 4 => 0x391c0cb3 case 5 => 0x4ed8aa4a case 6 => 0x5b9cca4f case _ => 0x682e6ff3
  }

  function K7(i: nat): Word {
    match i
    case 0 => 0x748f82ee case 1 => 0x78a5636f case 2 => 0x84c87814 case 3 => 0x8cc70208
    case 4 => 0x90befffa case 5 => 0xa4506ceb case 6 => 0xbef9a3f7 case _ => 0xc67178f2
  }

  const H0 := Registers(0x6a09e667, 0xbb67ae85, 0x3c6ef372, 0xa54ff53a, 0x510e527f, 0x9b05688c, 0x1f83d9ab, 0x5be0cd19)

  function Prime(i: nat): nat
    requires i < 64
  {
    match i / 8
    case 0 => Prime0(i % 8)
    case 1 => Prime1(i % 8)
    case 2 => Prime2(i % 8)
    case 3 => Prime3(i % 8)
    case 4 => Prime4(i % 8)
    case 5 => Prime5(i % 8)
    case 6 => Prime6(i % 8)
    case _ => Prime7(i % 8)
  }

  function Prime0(i: nat): nat {
    match i
    case 0 => 2 case 1 => 3 case 2 => 5 case 3 => 7
    case 4 => 11 case 5 => 13 case 6 => 17 case _ => 19
  }

  function Prime1(i: nat): nat {
    match i
    case 0 => 23 case 1 => 29 case 2 => 31 case 3 => 37
    case 4 => 41 case 5 => 43 case 6 => 47 case _ => 53
  }

  function Prime2(i: nat): nat {
    match i
    case 0 => 59 case 1 => 61 case 2 => 67 case 3 => 71
    case 4 => 73 case 5 => 79 case 6 => 83 case _ => 89
  }

  function Prime3(i: nat): nat {
    match i
    case 0 => 97 case 1 => 101 case 2 => 103 case 3 => 107
    case 4 => 109 case 5 => 113 case 6 => 127 case _ => 131
  }

  function Prime4(i: nat): nat {
    match i
    case 0 => 137 case 1 => 139 case 2 => 149 case 3 => 151
    case 4 => 157 case 5 => 163 case 6 => 167 case _ => 173
  }

  function Prime5(i: nat): nat {
    match i
    case 0 => 179 case 1 => 181 case 2 => 191 case 3 => 193
    case 4 => 197 case 5 => 199 case 6 => 211 case _ => 223
  }

  function Prime6(i: nat): nat {
    match i
    case 0 => 227 case 1 => 229 case 2 => 233 case 3 => 239
    case 4 => 241 case 5 => 251 case 6 => 257 case _ => 263
  }

  function Prime7(i: nat): nat {
    match i
    case 0 => 269 case 1 => 271 case 2 => 277 case 3 => 281
    case 4 => 283 case 5 => 293 case 6 => 307 case _ => 311
  }

  /** k holds the first 32 bits of the fractional part of the cube root of p. */
  ghost predicate CubeRootBits(k: Word, p: nat) {
    exists r: nat :: CubeRoot(k, p, r)
  }

  ghost predicate CubeRoot(k: Word, p: nat, r: nat) {
    var c := r * 0x1_0000_0000 + k as int;
    c * c * c <= p * 0x1_0000_0000_0000_0000_0000_0000 < (c + 1) * (c + 1) * (c + 1)
  }

  ghost predicate SquareRoot(k: Word, p: nat, r: nat) {
    var c := r * 0x1_0000_0000 + k as int;
    c * c <= p * 0x1_0000_0000_0000_0000 < (c + 1) * (c + 1)
  }

  lemma FromRoot(k: Word, p: nat, r: nat, c: nat)
    requires c == r * 0x1_0000_0000 + k as int
    requires c * c * c <= p * 0x1_0000_0000_0000_0000_0000_0000 < (c + 1) * (c + 1) * (c + 1)
    ensures CubeRootBits(k, p)
  {
    assert CubeRoot(k, p, r);
  }

  lemma RoundConstants0(i: nat)
    requires i < 8
    ensures CubeRootBits(K0(i), Prime0(i))
  {
    match i {
      case 0 => FromRoot(0x428a2f98, 2, 1, 0x1428a2f98);
      case 1 => FromRoot(0x71374491, 3, 1, 0x171374491);
      case 2 => FromRoot(0xb5c0fbcf, 5, 1, 0x1b5c0fbcf);
      case 3 => FromRoot(0xe9b5dba5, 7, 1, 0x1e9b5dba5);
      case 4 => FromRoot(0x3956c25b, 11, 2, 0x23956c25b);
      case 5 => FromRoot(0x59f111f1, 13, 2, 0x259f111f1);
      case 6 => FromRoot(0x923f82a4, 17, 2, 0x2923f82a4);
      case _ => FromRoot(0xab1c5ed5, 19, 2, 0x2ab1c5ed5);
    }
  }

  lemma RoundConstants1(i: nat)
    requires i < 8
    ensures CubeRootBits(K1(i), Prime1(i))
  {
    match i {
      case 0 => FromRoot(0xd807aa98, 23, 2, 0x2d807aa98);
      case 1 => FromRoot(0x12835b01, 29, 3, 0x312835b01);
      case 2 => FromRoot(0x243185be, 31, 3, 0x3243185be);
      case 3 => FromRoot(0x550c7dc3, 37, 3, 0x3550c7dc3);
      case 4 => FromRoot(0x72be5d74, 41, 3, 0x372be5d74);
      case 5 => FromRoot(0x80deb1fe, 43, 3, 0x380deb1fe);
      case 6 => FromRoot(0x9bdc06a7, 47, 3, 0x39bdc06a7);
      case _ => FromRoot(0xc19bf174, 53, 3, 0x3c19bf174);
    }
  }

  lemma RoundConstants2(i: nat)
    requires i < 8
    ensures CubeRootBits(K2(i), Prime2(i))
  {
    match i {
      case 0 => FromRoot(0xe49b69c1, 59, 3, 0x3e49b69c1);
      case 1 => FromRoot(0xefbe4786, 61, 3, 0x3efbe4786);
      case 2 => FromRoot(0x0fc19dc6, 67, 4, 0x40fc19dc6);
      case 3 => FromRoot(0x240ca1cc, 71, 4, 0x4240ca1cc);
      case 4 => FromRoot(0x2de92c6f, 73, 4, 0x42de92c6f);
      case 5 => FromRoot(0x4a7484aa, 79, 4, 0x44a7484aa);
      case 6 => FromRoot(0x5cb0a9dc, 83, 4, 0x45cb0a9dc);
      case _ => FromRoot(0x76f988da, 89, 4, 0x476f988da);
    }
  }

  lemma RoundConstants3(i: nat)
    requires i < 8
    ensures CubeRootBits(K3(i), Prime3(i))
  {
    match i {
      case 0 => FromRoot(0x983e5152, 97, 4, 0x4983e5152);
      case 1 => FromRoot(0xa831c66d, 101, 4, 0x4a831c66d);
      case 2 => FromRoot(0xb00327c8, 103, 4, 0x4b00327c8);
      case 3 => FromRoot(0xbf597fc7, 107, 4, 0x4bf597fc7);
      case 4 => FromRoot(0xc6e00bf3, 109, 4, 0x4c6e00bf3);
      case 5 => FromRoot(0xd5a79147, 113, 4, 0x4d5a79147);
      case 6 => FromRoot(0x06ca6351, 127, 5, 0x506ca6351);
      case _ => FromRoot(0x14292967, 131, 5, 0x514292967);
    }
  }

  lemma RoundConstants4(i: nat)
    requires i < 8
    ensures CubeRootBits(K4(i), Prime4(i))
  {
    match i {
      case 0 => FromRoot(0x27b70a85, 137, 5, 0x527b70a85);
      case 1 => FromRoot(0x2e1b2138, 139, 5, 0x52e1b2138);
      case 2 => FromRoot(0x4d2c6dfc, 149, 5, 0x54d2c6dfc);
      case 3 => FromRoot(0x53380d13, 151, 5, 0x553380d13);
      case 4 => FromRoot(0x650a7354, 157, 5, 0x5650a7354);
      case 5 => FromRoot(0x766a0abb, 163, 5, 0x5766a0abb);
      case 6 => FromRoot(0x81c2c92e, 167, 5, 0x581c2c92e);
      case _ => FromRoot(0x92722c85, 173, 5, 0x592722c85);
    }
  }

  lemma RoundConstants5(i: nat)
    requires i < 8
    ensures CubeRootBits(K5(i), Prime5(i))
  {
    match i {
      case 0 => FromRoot(0xa2bfe8a1, 179, 5, 0x5a2bfe8a1);
      case 1 => FromRoot(0xa81a664b, 181, 5, 0x5a81a664b);
      case 2 => FromRoot(0xc24b8b70, 191, 5, 0x5c24b8b70);
      case 3 => FromRoot(0xc76c51a3, 193, 5, 0x5c76c51a3);
      case 4 => FromRoot(0xd192e819, 197, 5, 0x5d192e819);
      case 5 => FromRoot(0xd6990624, 199, 5, 0x5d6990624);
      case 6 => FromRoot(0xf40e3585, 211, 5, 0x5f40e3585);
      case _ => FromRoot(0x106aa070, 223, 6, 0x6106aa070);
    }
  }

  lemma RoundConstants6(i: nat)
    requires i < 8
    ensures CubeRootBits(K6(i), Prime6(i))
  {
    match i {
      case 0 => FromRoot(0x19a4c116, 227, 6, 0x619a4c116);
      case 1 => FromRoot(0x1e376c08, 229, 6, 0x61e376c08);
      case 2 => FromRoot(0x2748774c, 233, 6, 0x62748774c);
      case 3 => FromRoot(0x34b0bcb5, 239, 6, 0x634b0bcb5);
      case 4 => FromRoot(0x391c0cb3, 241, 6, 0x6391c0cb3);
      case 5 => FromRoot(0x4ed8aa4a, 251, 6, 0x64ed8aa4a);
      case 6 => FromRoot(0x5b9cca4f, 257, 6, 0x65b9cca4f);
      case _ => FromRoot(0x682e6ff3, 263, 6, 0x6682e6ff3);
    }
  }

  lemma RoundConstants7(i: nat)
    requires i < 8
    ensures CubeRootBits(K7(i), Prime7(i))
  {
    match i {
      case 0 => FromRoot(0x748f82ee, 269, 6, 0x6748f82ee);
      case 1 => FromRoot(0x78a5636f, 271, 6, 0x678a5636f);
      case 2 => FromRoot(0x84c87814, 277, 6, 0x684c87814);
      case 3 => FromRoot(0x8cc70208, 281, 6, 0x68cc70208);
      case 4 => FromRoot(0x90befffa, 283, 6, 0x690befffa);
      case 5 => FromRoot(0xa4506ceb, 293, 6, 0x6a4506ceb);
      case 6 => FromRoot(0xbef9a3f7, 307, 6, 0x6bef9a3f7);
      case _ => FromRoot(0xc67178f2, 311, 6, 0x6c67178f2);
    }
  }

  /** Every round constant comes from the cube root of its prime. */
  lemma RoundConstants(i: nat)
    requires i < 64
    ensures CubeRootBits(K(i), Prime(i))
  {
    match i / 8 {
      case 0 => RoundConstants0(i % 8);
      case 1 => RoundConstants1(i % 8);
      case 2 => RoundConstants2(i % 8);
      case 3 => RoundConstants3(i % 8);
      case 4 => RoundConstants4(i % 8);
      case 5 => RoundConstants5(i % 8);
      case 6 => RoundConstants6(i % 8);
      case _ => RoundConstants7(i % 8);
    }
  }

  /** The initial hash value comes from the square roots of the first eight primes. */
  lemma InitialHash()
    ensures
      && SquareRoot(H0.a, 2, 1) && SquareRoot(H0.b, 3, 1)
      && SquareRoot(H0.c, 5, 2) && SquareRoot(H0.d, 7, 2)
      && SquareRoot(H0.e, 11, 3) && SquareRoot(H0.f, 13, 3)
      && SquareRoot(H0.g, 17, 4) && SquareRoot(H0.h, 19, 4)
  {
  }

  // ---- padding (section 5.1.1), in bytes

  function ZeroCount(n: nat): nat { (55 - n % 64) % 64 }

  function Zeros(n: nat): (r: seq<Octet>)
    ensures |r| == n && forall i :: 0 <= i < n ==> r[i] == 0
  {
    seq(n, _ => 0)
  }

  function Power256(n: nat): (p: nat)
    ensures p > 0
  {
    if n == 0 then 1 else 256 * Power256(n - 1)
  }

  /** The n low-order digits of a number to the base 256, most significant first. */
  function Base256(v: nat, n: nat): (r: seq<nat>)
    ensures |r| == n && forall i :: 0 <= i < n ==> r[i] < 256
  {
    if n == 0 then [] else Base256(v / 256, n - 1) + [v % 256]
  }

  function BigEndian(v: nat, n: nat): (r: seq<Octet>)
    ensures |r| == n
  {
    seq(n, i requires 0 <= i < n => Base256(v, n)[i] as Octet)
  }

  function Padded(data: seq<Octet>): seq<Octet> {
    data + [0x80] + Zeros(ZeroCount(|data|)) + BigEndian(8 * |data|, 8)
  }

  /** The padded length is the least multiple of 64 with room for nine more bytes. */
  lemma PaddedLength(data: seq<Octet>, m: nat)
    ensures |Padded(data)| % 64 == 0 && |Padded(data)| >= |data| + 9
    ensures m % 64 == 0 && m >= |data| + 9 ==> |Padded(data)| <= m
  {
    LeastMultiple(|data|, m);
  }

  lemma LeastMultiple(n: nat, m: nat)
    ensures (n + 9 + ZeroCount(n)) % 64 == 0 && ZeroCount(n) < 64
    ensures m % 64 == 0 && m >= n + 9 ==> n + 9 + ZeroCount(n) <= m
  {
    var q, r := n / 64, n % 64;
    assert n == 64 * q + r;
    assert ZeroCount(n) == if r <= 55 then 55 - r else 119 - r;
  }

  lemma PaddedAt(data: seq<Octet>, i: nat)
    requires i < |Padded(data)| - 8
    ensures Padded(data)[i] == if i < |data| then data[i] else if i == |data| then 0x80 else 0
  {
  }

  /** Different messages have different paddings. */
  lemma PaddingInjective(a: seq<Octet>, b: seq<Octet>)
    requires Padded(a) == Padded(b)
    ensures a == b
  {
    PaddedLength(a, 0);
    PaddedLength(b, 0);
    SameLength(a, b);
    SameLength(b, a);
    forall i | 0 <= i < |a| ensures a[i] == b[i] {
      PaddedAt(a, i);
      PaddedAt(b, i);
    }
  }

  lemma SameLength(a: seq<Octet>, b: seq<Octet>)
    requires Padded(a) == Padded(b)
    ensures |a| >= |b|
  {
    PaddedLength(a, 0);
    PaddedLength(b, 0);
    if |a| < |b| {
      PaddedAt(a, |b|);
      PaddedAt(b, |b|);
    }
  }

  function Value(digits: seq<nat>): nat {
    if digits == [] then 0 else 256 * Value(digits[..|digits| - 1]) + digits[|digits| - 1]
  }

  /** The last eight bytes spell the length in bits. */
  lemma {:induction false} Base256Value(v: nat, n: nat)
    requires v < Power256(n)
    ensures Value(Base256(v, n)) == v
  {
    if n > 0 {
      Base256Value(v / 256, n - 1);
      assert Base256(v, n)[..n - 1] == Base256(v / 256, n - 1);
    }
  }

  // ---- the hash (section 6.2.2)

  /** The working variables, and the hash value between blocks. */
  datatype Registers = Registers(a: Word, b: Word, c: Word, d: Word, e: Word, f: Word, g: Word, h: Word)

  function WordAt(block: seq<Octet>, t: nat): Word
    requires 4 * t + 4 <= |block|
  {
    (block[4 * t] as Word << 24) | (block[4 * t + 1] as Word << 16) | (block[4 * t + 2] as Word << 8) | block[4 * t + 3] as Word
  }

  function ScheduleSum(s1: Word, w7: Word, s0: Word, w16: Word): Word { s1 + w7 + s0 + w16 }

  function Schedule(block: seq<Octet>, t: nat): Word
    requires |block| == 64
  {
    if t < 16 then WordAt(block, t)
    else ScheduleSum(SmallSigma1(Schedule(block, t - 2)), Schedule(block, t - 7), SmallSigma0(Schedule(block, t - 15)),
                     Schedule(block, t - 16))
  }

  function T1(h: Word, s1: Word, ch: Word, k: Word, w: Word): Word { h + s1 + ch + k + w }

  function T2(s0: Word, maj: Word): Word { s0 + maj }

  /** Addition modulo 2^32. */
  function Plus(x: Word, y: Word): Word { x + y }

  function Advanced(r: Registers, t1: Word, t2: Word): Registers {
    Registers(Plus(t1, t2), r.a, r.b, r.c, Plus(r.d, t1), r.e, r.f, r.g)
  }

  function Round(r: Registers, k: Word, w: Word): Registers {
    var t1 := T1(r.h, BigSigma1(r.e), Ch(r.e, r.f, r.g), k, w);
    var t2 := T2(BigSigma0(r.a), Maj(r.a, r.b, r.c));
    Advanced(r, t1, t2)
  }

  function Rounds(r: Registers, block: seq<Octet>, t: nat): Registers
    requires |block| == 64 && t <= 64
  {
    if t == 0 then r else Round(Rounds(r, block, t - 1), K(t - 1), Schedule(block, t - 1))
  }

  function Sum(p: Registers, q: Registers): Registers {
    Registers(Plus(p.a, q.a), Plus(p.b, q.b), Plus(p.c, q.c), Plus(p.d, q.d),
              Plus(p.e, q.e), Plus(p.f, q.f), Plus(p.g, q.g), Plus(p.h, q.h))
  }

  function AfterBlock(h: Registers, block: seq<Octet>): Registers
    requires |block| == 64
  {
    Sum(h, Rounds(h, block, 64))
  }

  function Block(padded: seq<Octet>, i: nat): (b: seq<Octet>)
    requires 64 * i + 64 <= |padded|
    ensures |b| == 64
  {
    padded[64 * i..64 * i + 64]
  }

  /** The hash value after the first n blocks. */
  function HashValue(padded: seq<Octet>, n: nat): Registers
    requires 64 * n <= |padded|
  {
    if n == 0 then H0
    else AfterBlock(HashValue(padded, n - 1), Block(padded, n - 1))
  }

  function WordBytes(w: Word): seq<Octet> {
    [((w >> 24) & 0xFF) as Octet, ((w >> 16) & 0xFF) as Octet, ((w >> 8) & 0xFF) as Octet, (w & 0xFF) as Octet]
  }

  function DigestBytes(h: Registers): (r: seq<Octet>)
    ensures |r| == 32
  {
    WordBytes(h.a) + WordBytes(h.b) + WordBytes(h.c) + WordBytes(h.d) + WordBytes(h.e) + WordBytes(h.f) + WordBytes(h.g) + WordBytes(h.h)
  }

  function Sha256(data: seq<Octet>): seq<Octet> {
    PaddedLength(data, 0);
    var padded := Padded(data);
    DigestBytes(HashValue(padded, |padded| / 64))
  }
}
