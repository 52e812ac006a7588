/** Decimal text: digit strings, the integers they denote and powers of ten. */
module Decimal {
  /** A Unicode code point, surrogates included, as in a Python string. */
  type Code = c: int | 0 <= c < 0x110000
  type Text = seq<Code>

  /** The code points of a plain ASCII string. */
  function T(s: string): (t: Text)
    ensures |t| == |s|
  {
    seq(|s|, i requires 0 <= i < |s| => if s[i] as int < 128 then s[i] as int else 63)
  }

  const ZERO: Code := 48
  const MINUS: Code := 45
  const PLUS: Code := 43
  const DOT: Code := 46
  const LETTER_E: Code := 101

  predicate IsDigit(c: Code) { 48 <= c <= 57 }

  predicate AllDigits(s: Text) { forall i :: 0 <= i < |s| ==> IsDigit(s[i]) }

  function Dec(s: Text): nat
    requires AllDigits(s)
  {
    if s == [] then 0 else Dec(s[..|s| - 1]) * 10 + (s[|s| - 1] - 48)
  }

  /** Python's str of a non-negative integer. */
  function NatText(n: nat): (s: Text)
    ensures AllDigits(s) && s != []
  {
    if n < 10 then [48 + n] else NatText(n / 10) + [48 + n % 10]
  }

  function IntText(n: int): Text {
    if n < 0 then [MINUS] + NatText(-n) else NatText(n)
  }

  predicate NoLeadingZero(s: Text) { s != [] ==> s[0] != ZERO }

  lemma {:induction false} NatTextValue(n: nat)
    ensures Dec(NatText(n)) == n
    ensures n > 0 ==> NoLeadingZero(NatText(n))
  {
    if n >= 10 {
      NatTextValue(n / 10);
      assert NatText(n)[..|NatText(n)| - 1] == NatText(n / 10);
    }
  }

  lemma {:induction false} DecPositive(s: Text)
    requires AllDigits(s) && s != [] && s[0] != ZERO
    ensures Dec(s) > 0
  {
    if |s| > 1 { DecPositive(s[..|s| - 1]); }
  }

  /** Without leading zeros, a digit string is determined by its value. */
  lemma {:induction false} DecInjective(s: Text, t: Text)
    requires AllDigits(s) && AllDigits(t) && NoLeadingZero(s) && NoLeadingZero(t) && Dec(s) == Dec(t)
    ensures s == t
  {
    if s == [] {
      if t != [] { DecPositive(t); }
    } else if t == [] {
      DecPositive(s);
    } else {
      var s', t' := s[..|s| - 1], t[..|t| - 1];
      assert s == s' + [s[|s| - 1]] && t == t' + [t[|t| - 1]];
      DecInjective(s', t');
    }
  }

  function Zeros(n: nat): (s: Text)
    ensures |s| == n && AllDigits(s) && forall i :: 0 <= i < n ==> s[i] == ZERO
  {
    seq(n, _ => ZERO)
  }

  function Pow10(e: int): (r: real)
    ensures r > 0.0
    decreases if e < 0 then -e else e
  {
    if e == 0 then 1.0 else if e > 0 then 10.0 * Pow10(e - 1) else Pow10(e + 1) / 10.0
  }

  lemma Pow10Step(e: int)
    ensures Pow10(e + 1) == 10.0 * Pow10(e)
  {
  }

  function Product(a: real, b: real): real { a * b }

  lemma {:induction false} Pow10Add(e: int, n: nat)
    ensures Pow10(e + n) == Product(Pow10(e), Pow10(n))
  {
    if n > 0 {
      Pow10Add(e, n - 1);
      Pow10Step(e + n - 1);
      Pow10Step(n - 1);
      Tenfold(Pow10(e), Pow10(n - 1), Pow10(n));
    }
  }

  lemma Tenfold(a: real, b: real, c: real)
    requires c == 10.0 * b
    ensures Product(a, c) == 10.0 * Product(a, b)
  {
  }

  function Ten(n: nat): nat {
    if n == 0 then 1 else 10 * Ten(n - 1)
  }

  lemma {:induction false} TenIsPow10(n: nat)
    ensures Ten(n) as real == Pow10(n)
  {
    if n > 0 { TenIsPow10(n - 1); }
  }

  lemma {:induction false} DecAppend(s: Text, t: Text)
    requires AllDigits(s) && AllDigits(t)
    ensures Dec(s + t) == Dec(s) * Ten(|t|) + Dec(t)
  {
    if t == [] {
      assert s + t == s;
    } else {
      var t' := t[..|t| - 1];
      DecAppend(s, t');
      assert (s + t)[..|s + t| - 1] == s + t';
      assert (Dec(s) * Ten(|t'|)) * 10 == Dec(s) * (10 * Ten(|t'|));
    }
  }

  lemma {:induction false} DecPrependZeros(n: nat, s: Text)
    requires AllDigits(s)
    ensures Dec(Zeros(n) + s) == Dec(s)
  {
    if s == [] {
      assert Zeros(n) + s == Zeros(n);
      DecZeros(n);
    } else {
      DecPrependZeros(n, s[..|s| - 1]);
      assert (Zeros(n) + s)[..n + |s| - 1] == Zeros(n) + s[..|s| - 1];
    }
  }

  lemma {:induction false} DecZeros(n: nat)
    ensures Dec(Zeros(n)) == 0
  {
    if n > 0 {
      DecZeros(n - 1);
      assert Zeros(n)[..n - 1] == Zeros(n - 1);
    }
  }

  lemma {:induction false} TenMonotone(m: nat, n: nat)
    requires m <= n
    ensures 0 < Ten(m) <= Ten(n)
  {
    if n > 0 { TenMonotone(if m < n then m else n - 1, n - 1); }
  }

  lemma {:induction false} DecBelow(s: Text)
    requires AllDigits(s)
    ensures Dec(s) < Ten(|s|)
  {
    if s != [] { DecBelow(s[..|s| - 1]); }
  }

  lemma {:induction false} DecAtLeast(s: Text)
    requires AllDigits(s) && s != [] && s[0] != ZERO
    ensures Dec(s) >= Ten(|s| - 1)
  {
    if |s| > 1 { DecAtLeast(s[..|s| - 1]); }
  }
}
