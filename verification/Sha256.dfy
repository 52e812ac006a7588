/** The daemon's in-place SHA-256, loop by loop against the definition. */
module Sha256 {
  import opened Numbers
  import opened Sha256Spec

  /** Grow by zero bytes up to 56 modulo 64, then the length in bits. */
  method Pad(data: seq<Octet>) returns (padded: seq<Octet>)
    requires |data| < 0x2000_0000_0000_0000
    ensures padded == Padded(data)
  {
    var bitLen := |data| * 8;
    padded := data;
    padded := padded + [0x80];
    ghost var z := 0;
    while |padded| % 64 != 56
      invariant z <= ZeroCount(|data|) && padded == data + [0x80] + Zeros(z)
      decreases ZeroCount(|data|) - z
    {
      ZerosLeft(|data|, z);
      assert Zeros(z) + [0x00] == Zeros(z + 1);
      padded := padded + [0x00];
      z := z + 1;
    }
    ZerosEnd(|data|, z);
    padded := padded + BigEndian(bitLen, 8);
  }

  lemma ZerosLeft(n: nat, z: nat)
    requires z <= ZeroCount(n) && (n + 1 + z) % 64 != 56
    ensures z < ZeroCount(n)
  {
    LeastMultiple(n, 0);
  }

  lemma ZerosEnd(n: nat, z: nat)
    requires z <= ZeroCount(n) && (n + 1 + z) % 64 == 56
    ensures z == ZeroCount(n)
  {
    LeastMultiple(n, n + 9 + z);
  }

  // ---- the rotations of the code are those of the definition

  method RotateSmall0(x: Word) returns (s: Word)
    ensures s == SmallSigma0(x)
  {
    s := x.RotateRight(7) ^ x.RotateRight(18) ^ (x >> 3);
  }

  method RotateSmall1(x: Word) returns (s: Word)
    ensures s == SmallSigma1(x)
  {
    s := x.RotateRight(17) ^ x.RotateRight(19) ^ (x >> 10);
  }

  method RotateBig0(x: Word) returns (s: Word)
    ensures s == BigSigma0(x)
  {
    s := x.RotateRight(2) ^ x.RotateRight(13) ^ x.RotateRight(22);
  }

  method RotateBig1(x: Word) returns (s: Word)
    ensures s == BigSigma1(x)
  {
    s := x.RotateRight(6) ^ x.RotateRight(11) ^ x.RotateRight(25);
  }

  method Choose(e: Word, f: Word, g: Word) returns (ch: Word)
    ensures ch == Ch(e, f, g)
  {
    ch := (e & f) ^ (!e & g);
  }

  method Majority(a: Word, b: Word, c: Word) returns (maj: Word)
    ensures maj == Maj(a, b, c)
  {
    maj := (a & b) ^ (a & c) ^ (b & c);
  }

  // ---- wrapping sums, in the code's order

  method WrappingAdd(x: Word, y: Word) returns (z: Word)
    ensures z == Plus(x, y)
  {
    z := x + y;
  }

  method AddSchedule(w16: Word, s0: Word, w7: Word, s1: Word) returns (next: Word)
    ensures next == ScheduleSum(s1, w7, s0, w16)
  {
    next := w16 + s0 + w7 + s1;
  }

  method AddFirst(h: Word, s1: Word, ch: Word, k: Word, w: Word) returns (temp1: Word)
    ensures temp1 == T1(h, s1, ch, k, w)
  {
    temp1 := h + s1 + ch + k + w;
  }

  method AddSecond(s0: Word, maj: Word) returns (temp2: Word)
    ensures temp2 == T2(s0, maj)
  {
    temp2 := s0 + maj;
  }

  /** The schedule array, its first 16 words from the chunk and the others from those before them. */
  method FillSchedule(w: array<Word>, chunk: seq<Octet>)
    requires w.Length == 64 && |chunk| == 64
    modifies w
    ensures forall t :: 0 <= t < 64 ==> w[t] == Schedule(chunk, t)
  {
    for i := 0 to 16
      invariant forall t :: 0 <= t < i ==> w[t] == Schedule(chunk, t)
    {
      w[i] := WordAt(chunk, i);
    }
    for i := 16 to 64
      invariant forall t :: 0 <= t < i ==> w[t] == Schedule(chunk, t)
    {
      var s0 := RotateSmall0(w[i - 15]);
      var s1 := RotateSmall1(w[i - 2]);
      w[i] := AddSchedule(w[i - 16], s0, w[i - 7], s1);
    }
  }

  /** One round, as the code moves the variables. */
  method OneRound(r: Registers, k: Word, w: Word) returns (out: Registers)
    ensures out == Round(r, k, w)
  {
    var a, b, c, d, e, f, g, h := r.a, r.b, r.c, r.d, r.e, r.f, r.g, r.h;
    var s1 := RotateBig1(e);
    var ch := Choose(e, f, g);
    var temp1 := AddFirst(h, s1, ch, k, w);
    var s0 := RotateBig0(a);
    var maj := Majority(a, b, c);
    var temp2 := AddSecond(s0, maj);
    out := Move(a, b, c, d, e, f, g, h, temp1, temp2);
  }

  /** The assignments at the end of a round. */
  method Move(a0: Word, b0: Word, c0: Word, d0: Word, e0: Word, f0: Word, g0: Word, h0: Word, temp1: Word, temp2: Word)
    returns (out: Registers)
    ensures out == Advanced(Registers(a0, b0, c0, d0, e0, f0, g0, h0), temp1, temp2)
  {
    var a, b, c, d, e, f, g, h := a0, b0, c0, d0, e0, f0, g0, h0;
    h := g;
    g := f;
    f := e;
    e := WrappingAdd(d, temp1);
    d := c;
    c := b;
    b := a;
    a := WrappingAdd(temp1, temp2);
    out := Registers(a, b, c, d, e, f, g, h);
  }

  method AddRegisters(p: Registers, q: Registers) returns (r: Registers)
    ensures r == Sum(p, q)
  {
    var h0 := WrappingAdd(p.a, q.a);
    var h1 := WrappingAdd(p.b, q.b);
    var h2 := WrappingAdd(p.c, q.c);
    var h3 := WrappingAdd(p.d, q.d);
    var h4 := WrappingAdd(p.e, q.e);
    var h5 := WrappingAdd(p.f, q.f);
    var h6 := WrappingAdd(p.g, q.g);
    var h7 := WrappingAdd(p.h, q.h);
    r := Registers(h0, h1, h2, h3, h4, h5, h6, h7);
  }

  method Output(r: Registers) returns (out: seq<Octet>)
    ensures out == DigestBytes(r)
  {
    out := WordBytes(r.a) + WordBytes(r.b) + WordBytes(r.c) + WordBytes(r.d)
         + WordBytes(r.e) + WordBytes(r.f) + WordBytes(r.g) + WordBytes(r.h);
  }

  /** The 64 rounds on the eight working variables. */
  method Compress(r: Registers, w: array<Word>, ghost chunk: seq<Octet>) returns (out: Registers)
    requires w.Length == 64 && |chunk| == 64 && forall t :: 0 <= t < 64 ==> w[t] == Schedule(chunk, t)
    ensures out == Rounds(r, chunk, 64)
  {
    out := r;
    for i := 0 to 64
      invariant out == Rounds(r, chunk, i)
    {
      out := OneRound(out, K(i), w[i]);
    }
  }

  /** One chunk, with its own schedule array. */
  method ProcessChunk(r: Registers, chunk: seq<Octet>) returns (out: Registers)
    requires |chunk| == 64
    ensures out == AfterBlock(r, chunk)
  {
    var w := new Word[64](_ => 0);
    FillSchedule(w, chunk);
    var q := Compress(r, w, chunk);
    out := AddRegisters(r, q);
  }

  method Sha256(data: seq<Octet>) returns (out: seq<Octet>)
    requires |data| < 0x2000_0000_0000_0000
    ensures out == Sha256Spec.Sha256(data)
  {
    var padded := Pad(data);
    PaddedLength(data, 0);
    var r := HashChunks(padded);
    out := Output(r);
  }

  /** Chunk after chunk, the hash value carried along. */
  method HashChunks(padded: seq<Octet>) returns (r: Registers)
    ensures r == HashValue(padded, |padded| / 64)
  {
    r := H0;
    for i := 0 to |padded| / 64
      invariant r == HashValue(padded, i)
    {
      var chunk := padded[64 * i..64 * i + 64];
      r := ProcessChunk(r, chunk);
    }
  }

  // ---- lower-case hexadecimal

  function HexOfInts(v: seq<nat>): (s: string)
    requires forall i :: 0 <= i < |v| ==> v[i] < 256
    ensures |s| == 2 * |v|
  {
    if v == [] then ""
    else HexOfInts(v[..|v| - 1]) + [HexDigit(v[|v| - 1] / 16), HexDigit(v[|v| - 1] % 16)]
  }

  function Ints(bytes: seq<Octet>): (v: seq<nat>)
    ensures |v| == |bytes| && forall i :: 0 <= i < |v| ==> v[i] == bytes[i] as int && v[i] < 256
  {
    seq(|bytes|, i requires 0 <= i < |bytes| => bytes[i] as int)
  }

  function HexOf(bytes: seq<Octet>): (s: string)
    ensures |s| == 2 * |bytes|
  {
    HexOfInts(Ints(bytes))
  }

  lemma LastHex(v: seq<nat>)
    requires v != [] && forall i :: 0 <= i < |v| ==> v[i] < 256
    ensures var n, s := |v| - 1, HexOfInts(v);
            s[..2 * n] == HexOfInts(v[..n]) && s[2 * n] == HexDigit(v[n] / 16) && s[2 * n + 1] == HexDigit(v[n] % 16)
  {
  }

  lemma HexPair(x: nat, y: nat)
    requires x < 256 && y < 256 && HexDigit(x / 16) == HexDigit(y / 16) && HexDigit(x % 16) == HexDigit(y % 16)
    ensures x == y
  {
    DigitInjective(x / 16, y / 16);
    DigitInjective(x % 16, y % 16);
  }

  lemma DigitInjective(x: nat, y: nat)
    requires x < 16 && y < 16 && HexDigit(x) == HexDigit(y)
    ensures x == y
  {
  }

  lemma {:induction false} HexOfIntsInjective(v: seq<nat>, w: seq<nat>)
    requires (forall i :: 0 <= i < |v| ==> v[i] < 256) && forall i :: 0 <= i < |w| ==> w[i] < 256
    requires HexOfInts(v) == HexOfInts(w)
    ensures v == w
  {
    assert |v| == |w|;
    if v != [] {
      var n := |v| - 1;
      LastHex(v);
      LastHex(w);
      HexOfIntsInjective(v[..n], w[..n]);
      HexPair(v[n], w[n]);
      assert v == v[..n] + [v[n]] && w == w[..n] + [w[n]];
    }
  }

  lemma SameOctet(x: Octet, y: Octet)
    requires x as int == y as int
    ensures x == y
  {
  }

  /** Different byte strings have different hexadecimal texts. */
  lemma HexInjective(a: seq<Octet>, b: seq<Octet>)
    requires HexOf(a) == HexOf(b)
    ensures a == b
  {
    HexOfIntsInjective(Ints(a), Ints(b));
    forall i | 0 <= i < |a| ensures a[i] == b[i] {
      assert Ints(a)[i] == Ints(b)[i];
      SameOctet(a[i], b[i]);
    }
  }

  method Sha256Hex(data: seq<Octet>) returns (s: string)
    requires |data| < 0x2000_0000_0000_0000
    ensures s == HexOf(Sha256Spec.Sha256(data)) && |s| == 64
  {
    var digest := Sha256(data);
    s := "";
    ghost var v := Ints(digest);
    for i := 0 to |digest|
      invariant s == HexOfInts(v[..i])
    {
      var b: nat := digest[i] as int;
      assert v[..i + 1][..i] == v[..i] && b == v[i];
      s := s + [HexDigit(b / 16), HexDigit(b % 16)];
    }
    assert v[..|v|] == v;
  }
}
