/** What pins the functions of section 4.1.2 and the steps of section 6.2.2 of FIPS 180-4. */
module Sha256Laws {
  import opened Sha256Spec

  /** Ch takes its second argument where the first has ones, and its third where the first has zeros. */
  lemma ChChooses(x: Word, y: Word, z: Word)
    ensures Ch(x, y, z) & x == y & x && Ch(x, y, z) & !x == z & !x
  {
  }

  /** Maj takes the value that two arguments share, and where the first two differ that of the third. */
  lemma MajVotes(x: Word, y: Word, z: Word)
    ensures Maj(x, y, z) & !(x ^ y) == x & !(x ^ y) && Maj(x, y, z) & (x ^ y) == z & (x ^ y)
  {
  }

  /** The images of the lowest bit show the rotations by 2, 13, 22 and 6, 11, 25, those of the highest and lowest bit the
      rotations by 7, 18 and 17, 19 and the shifts by 3 and 10. */
  lemma SigmasOfBits()
    ensures BigSigma0(0x0000_0001) == 0x4008_0400 && BigSigma1(0x0000_0001) == 0x0420_0080
    ensures SmallSigma0(0x0000_0001) == 0x0200_4000 && SmallSigma0(0x8000_0000) == 0x1100_2000
    ensures SmallSigma1(0x0000_0001) == 0x0000_A000 && SmallSigma1(0x8000_0000) == 0x0020_5000
  {
  }

  /** Words are read and written with the most significant byte first. */
  lemma WordOrder(w: Word)
    ensures WordAt([0x01, 0x02, 0x03, 0x04, 0x05, 0x06, 0x07, 0x08], 1) == 0x0506_0708
    ensures WordBytes(0x0102_0304) == [0x01, 0x02, 0x03, 0x04]
    ensures |WordBytes(w)| == 4 && WordAt(WordBytes(w), 0) == w
  {
  }

  /** The recurrence of the message schedule, step 1. */
  lemma ScheduleByStandard(block: seq<Octet>, t: nat)
    requires |block| == 64 && 16 <= t
    ensures Schedule(block, t)
         == ScheduleSum(SmallSigma1(Schedule(block, t - 2)), Schedule(block, t - 7), SmallSigma0(Schedule(block, t - 15)), Schedule(block, t - 16))
  {
  }

  /** The sums count every summand once, modulo 2^32. */
  lemma SumsWrap()
    ensures Plus(0xFFFF_FFFF, 2) == 1 && T2(0xFFFF_FFFF, 2) == 1
    ensures ScheduleSum(1, 2, 4, 8) == 15 && ScheduleSum(0xFFFF_FFFF, 0xFFFF_FFFF, 0xFFFF_FFFF, 0xFFFF_FFFF) == 0xFFFF_FFFC
    ensures T1(1, 2, 4, 8, 16) == 31 && T1(0xFFFF_FFFF, 0xFFFF_FFFF, 0xFFFF_FFFF, 0xFFFF_FFFF, 0xFFFF_FFFF) == 0xFFFF_FFFB
  {
  }

  /** One round, step 3: the first and the fifth variable are new, the others move down by one. */
  lemma RoundByStandard(r: Registers, k: Word, w: Word)
    ensures var t1 := T1(r.h, BigSigma1(r.e), Ch(r.e, r.f, r.g), k, w);
            var q := Round(r, k, w);
            && q.b == r.a && q.c == r.b && q.d == r.c && q.f == r.e && q.g == r.f && q.h == r.g
            && q.e == Plus(r.d, t1) && q.a == Plus(t1, T2(BigSigma0(r.a), Maj(r.a, r.b, r.c)))
  {
  }

  /** After a block, step 4: each word of the hash value grows by its working variable. */
  lemma BlockByStandard(h: Registers, block: seq<Octet>)
    requires |block| == 64
    ensures var r, q := Rounds(h, block, 64), AfterBlock(h, block);
            && q.a == Plus(h.a, r.a) && q.b == Plus(h.b, r.b) && q.c == Plus(h.c, r.c) && q.d == Plus(h.d, r.d)
            && q.e == Plus(h.e, r.e) && q.f == Plus(h.f, r.f) && q.g == Plus(h.g, r.g) && q.h == Plus(h.h, r.h)
  {
  }

  lemma WordWithin(d: seq<Octet>, t: nat, w: Word)
    requires 4 * t + 4 <= |d| && d[4 * t..4 * t + 4] == WordBytes(w)
    ensures WordAt(d, t) == w
  {
    WordOrder(w);
    var s := d[4 * t..4 * t + 4];
    assert s[0] == d[4 * t] && s[1] == d[4 * t + 1] && s[2] == d[4 * t + 2] && s[3] == d[4 * t + 3];
  }

  /** The digest spells the eight words in order. */
  lemma DigestWords(h: Registers)
    ensures var d := DigestBytes(h);
            && WordAt(d, 0) == h.a && WordAt(d, 1) == h.b && WordAt(d, 2) == h.c && WordAt(d, 3) == h.d
            && WordAt(d, 4) == h.e && WordAt(d, 5) == h.f && WordAt(d, 6) == h.g && WordAt(d, 7) == h.h
  {
    var d := DigestBytes(h);
    DigestSlices(h, d);
    WordWithin(d, 0, h.a);
    WordWithin(d, 1, h.b);
    WordWithin(d, 2, h.c);
    WordWithin(d, 3, h.d);
    WordWithin(d, 4, h.e);
    WordWithin(d, 5, h.f);
    WordWithin(d, 6, h.g);
    WordWithin(d, 7, h.h);
  }

  lemma DigestSlices(h: Registers, d: seq<Octet>)
    requires d == DigestBytes(h)
    ensures |d| == 32
    ensures d[0..4] == WordBytes(h.a) && d[4..8] == WordBytes(h.b) && d[8..12] == WordBytes(h.c) && d[12..16] == WordBytes(h.d)
    ensures d[16..20] == WordBytes(h.e) && d[20..24] == WordBytes(h.f) && d[24..28] == WordBytes(h.g) && d[28..32] == WordBytes(h.h)
  {
    Slices(WordBytes(h.a), WordBytes(h.b), WordBytes(h.c), WordBytes(h.d),
           WordBytes(h.e), WordBytes(h.f), WordBytes(h.g), WordBytes(h.h));
  }

  lemma Slices(a: seq<Octet>, b: seq<Octet>, c: seq<Octet>, d: seq<Octet>, e: seq<Octet>, f: seq<Octet>, g: seq<Octet>, h: seq<Octet>)
    requires |a| == 4 && |b| == 4 && |c| == 4 && |d| == 4 && |e| == 4 && |f| == 4 && |g| == 4 && |h| == 4
    ensures var s := a + b + c + d + e + f + g + h;
            && |s| == 32 && s[0..4] == a && s[4..8] == b && s[8..12] == c && s[12..16] == d
            && s[16..20] == e && s[20..24] == f && s[24..28] == g && s[28..32] == h
  {
  }
}
