/** UTF-8 and UTF-16-BE, and the order that UTF-16-BE bytes put on strings. */
module Unicode {
  import opened Numbers
  import opened Sequences
  import opened Decimal

  type Unit = u: int | 0 <= u < 0x10000

  predicate IsSurrogate(c: Code) { 0xD800 <= c < 0xE000 }

  predicate NoSurrogates(s: Text) { forall i :: 0 <= i < |s| ==> !IsSurrogate(s[i]) }

  // ---- UTF-8

  function Utf8Code(c: Code): seq<Byte> {
    if c < 0x80 then [c]
    else if c < 0x800 then [0xC0 + c / 64, 0x80 + c % 64]
    else if c < 0x10000 then [0xE0 + c / 4096, 0x80 + c / 64 % 64, 0x80 + c % 64]
    else [0xF0 + c / 262144, 0x80 + c / 4096 % 64, 0x80 + c / 64 % 64, 0x80 + c % 64]
  }

  function Utf8(s: Text): (r: seq<Byte>)
    ensures |r| >= |s|
  {
    if s == [] then [] else Utf8Code(s[0]) + Utf8(s[1..])
  }

  /** The first byte tells the length, so no encoded character is a prefix of another. */
  lemma Utf8CodePrefixFree(c: Code, x: seq<Byte>, d: Code, y: seq<Byte>)
    requires Utf8Code(c) + x == Utf8Code(d) + y
    ensures c == d && x == y
  {
    var s, t := Utf8Code(c) + x, Utf8Code(d) + y;
    assert s[0] == Utf8Code(c)[0] && t[0] == Utf8Code(d)[0];
    assert |Utf8Code(c)| == |Utf8Code(d)|;
    assert Utf8Code(c) == s[..|Utf8Code(c)|] == t[..|Utf8Code(d)|] == Utf8Code(d);
    assert x == s[|Utf8Code(c)|..] == t[|Utf8Code(d)|..] == y;
    SameBytesSameCode(c, d);
  }

  function Utf8Value(b: seq<int>): int {
    if |b| == 1 then b[0]
    else if |b| == 2 then (b[0] - 0xC0) * 64 + (b[1] - 0x80)
    else if |b| == 3 then (b[0] - 0xE0) * 4096 + (b[1] - 0x80) * 64 + (b[2] - 0x80)
    else if |b| == 4 then (b[0] - 0xF0) * 262144 + (b[1] - 0x80) * 4096 + (b[2] - 0x80) * 64 + (b[3] - 0x80)
    else -1
  }

  lemma Utf8ValueOfCode(c: Code)
    ensures Utf8Value(Utf8Code(c)) == c
  {
    assert c / 64 / 64 == c / 4096 && c / 4096 / 64 == c / 262144;
  }

  lemma SameBytesSameCode(c: Code, d: Code)
    requires Utf8Code(c) == Utf8Code(d)
    ensures c == d
  {
    Utf8ValueOfCode(c);
    Utf8ValueOfCode(d);
  }

  lemma {:induction false} Utf8Injective(s: Text, t: Text)
    requires Utf8(s) == Utf8(t)
    ensures s == t
  {
    if s != [] && t != [] {
      Utf8CodePrefixFree(s[0], Utf8(s[1..]), t[0], Utf8(t[1..]));
      Utf8Injective(s[1..], t[1..]);
    }
  }

  // ---- UTF-16-BE

  function Utf16Code(c: Code): seq<Unit> {
    if c < 0x10000 then [c] else [0xD800 + (c - 0x10000) / 0x400, 0xDC00 + (c - 0x10000) % 0x400]
  }

  function Utf16(s: Text): (r: seq<Unit>)
    ensures |r| >= |s|
  {
    if s == [] then [] else Utf16Code(s[0]) + Utf16(s[1..])
  }

  function BigEndian(u: seq<Unit>): (r: seq<Byte>)
    ensures |r| == 2 * |u|
  {
    if u == [] then [] else [u[0] / 256, u[0] % 256] + BigEndian(u[1..])
  }

  lemma {:induction false} Utf16Injective(s: Text, t: Text)
    requires NoSurrogates(s) && NoSurrogates(t) && Utf16(s) == Utf16(t)
    ensures s == t
  {
    if s != [] && t != [] {
      var u, v := Utf16Code(s[0]), Utf16Code(t[0]);
      assert Utf16(s)[0] == u[0] && Utf16(t)[0] == v[0];
      assert |u| == |v|;
      if |u| == 2 { assert Utf16(s)[1] == u[1] && Utf16(t)[1] == v[1]; }
      assert s[0] == t[0];
      assert Utf16(s[1..]) == Utf16(s)[|u|..] == Utf16(t)[|v|..] == Utf16(t[1..]);
      Utf16Injective(s[1..], t[1..]);
    }
  }

  // ---- lexicographic order

  predicate LexLess(a: seq<int>, b: seq<int>) {
    if b == [] then false
    else if a == [] then true
    else if a[0] != b[0] then a[0] < b[0]
    else LexLess(a[1..], b[1..])
  }

  lemma {:induction false} LexTotal(a: seq<int>, b: seq<int>)
    ensures a == b || LexLess(a, b) || LexLess(b, a)
    ensures !(LexLess(a, b) && LexLess(b, a)) && !LexLess(a, a)
  {
    if a != [] { LexTotal(a[1..], a[1..]); }
    if a != [] && b != [] && a[0] == b[0] {
      LexTotal(a[1..], b[1..]);
      if a[1..] == b[1..] { assert a == [a[0]] + a[1..] && b == [b[0]] + b[1..]; }
    }
  }

  lemma {:induction false} LexTransitive(a: seq<int>, b: seq<int>, c: seq<int>)
    requires LexLess(a, b) && LexLess(b, c)
    ensures LexLess(a, c)
  {
    if a != [] && a[0] == b[0] == c[0] { LexTransitive(a[1..], b[1..], c[1..]); }
  }

  /** Python's sort key: the UTF-16-BE bytes. */
  predicate KeyLess(s: Text, t: Text) {
    LexLess(BigEndian(Utf16(s)), BigEndian(Utf16(t)))
  }

  /** Comparing UTF-16-BE bytes compares UTF-16 code units, which is the order RFC 8785 section 3.2.3 asks for. */
  lemma {:induction false} ByteOrderIsUnitOrder(u: seq<Unit>, v: seq<Unit>)
    ensures LexLess(BigEndian(u), BigEndian(v)) <==> LexLess(u, v)
  {
    if u != [] && v != [] {
      ByteOrderIsUnitOrder(u[1..], v[1..]);
      var a, b := BigEndian(u), BigEndian(v);
      assert a[1..] == [u[0] % 256] + BigEndian(u[1..]) && b[1..] == [v[0] % 256] + BigEndian(v[1..]);
      assert a[1..][1..] == BigEndian(u[1..]) && b[1..][1..] == BigEndian(v[1..]);
    }
  }

  lemma {:induction false} BigEndianInjective(u: seq<Unit>, v: seq<Unit>)
    requires BigEndian(u) == BigEndian(v)
    ensures u == v
  {
    if u != [] && v != [] {
      var a, b := BigEndian(u), BigEndian(v);
      assert a[0] == b[0] && a[1] == b[1];
      assert BigEndian(u[1..]) == a[2..] == b[2..] == BigEndian(v[1..]);
      BigEndianInjective(u[1..], v[1..]);
    }
  }

  /** On strings Python can encode, the key order is a strict total order. */
  lemma KeyOrderTotal(s: Text, t: Text)
    requires NoSurrogates(s) && NoSurrogates(t)
    ensures s == t || KeyLess(s, t) || KeyLess(t, s)
    ensures !(KeyLess(s, t) && KeyLess(t, s)) && !KeyLess(s, s)
  {
    LexTotal(BigEndian(Utf16(s)), BigEndian(Utf16(t)));
    if BigEndian(Utf16(s)) == BigEndian(Utf16(t)) {
      BigEndianInjective(Utf16(s), Utf16(t));
      Utf16Injective(s, t);
    }
    LexTotal(BigEndian(Utf16(s)), BigEndian(Utf16(s)));
  }

  /** The key order is not the order of code points: U+10000 sorts before U+FF61. */
  lemma KeyOrderIsNotCodePointOrder()
    ensures KeyLess([0x10000], [0xFF61]) && !KeyLess([0xFF61], [0x10000])
  {
    assert Utf16([0x10000])[0] == 0xD800 && Utf16([0xFF61])[0] == 0xFF61;
    ByteOrderIsUnitOrder(Utf16([0x10000]), Utf16([0xFF61]));
    ByteOrderIsUnitOrder(Utf16([0xFF61]), Utf16([0x10000]));
  }

  function Utf16Value(u: seq<int>): int {
    if |u| == 1 then u[0] else if |u| == 2 then 0x10000 + (u[0] - 0xD800) * 0x400 + (u[1] - 0xDC00) else -1
  }

  lemma Utf16ValueOfCode(c: Code)
    ensures Utf16Value(Utf16Code(c)) == c
  {
  }

  lemma {:induction false} LexPrefix(a: seq<int>, b: seq<int>)
    requires b != []
    ensures LexLess(a, a + b)
  {
    if a == [] {
      assert a + b == b;
    } else {
      LexPrefix(a[1..], b);
      assert (a + b)[1..] == a[1..] + b;
    }
  }

  lemma {:induction false} Utf16Concat(s: Text, t: Text)
    ensures Utf16(s + t) == Utf16(s) + Utf16(t)
  {
    if s == [] {
      assert s + t == t;
    } else {
      Utf16Concat(s[1..], t);
      assert (s + t)[0] == s[0] && (s + t)[1..] == s[1..] + t;
      Regroup(Utf16Code(s[0]), Utf16(s[1..]), Utf16(t));
    }
  }

  lemma {:induction false} BigEndianConcat(u: seq<Unit>, v: seq<Unit>)
    ensures BigEndian(u + v) == BigEndian(u) + BigEndian(v)
  {
    if u == [] {
      assert u + v == v;
    } else {
      BigEndianConcat(u[1..], v);
      assert (u + v)[0] == u[0] && (u + v)[1..] == u[1..] + v;
      Regroup([u[0] / 256, u[0] % 256], BigEndian(u[1..]), BigEndian(v));
    }
  }

  /** A key sorts before its continuations. */
  lemma PrefixFirst(s: Text, t: Text)
    requires t != []
    ensures KeyLess(s, s + t)
  {
    Utf16Concat(s, t);
    BigEndianConcat(Utf16(s), Utf16(t));
    LexPrefix(BigEndian(Utf16(s)), BigEndian(Utf16(t)));
  }
}
