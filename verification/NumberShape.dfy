/** When a number gets an exponent and what it then looks like (RFC 8785 section 3.2.2.3), in terms of its value. */
module NumberShape {
  import opened Wrappers
  import opened Numbers
  import opened Decimal
  import opened NumberFormat

  lemma {:induction false} Pow10Monotone(d: int, e: int)
    requires d <= e
    ensures Pow10(d) <= Pow10(e)
    decreases e - d
  {
    if d < e {
      Pow10Monotone(d, e - 1);
      Pow10Step(e - 1);
    }
  }

  lemma Scaled(m: int, lo: real, hi: real, p: real)
    requires p > 0.0 && lo <= m as real < hi
    ensures Product(lo, p) <= Product(m as real, p) < Product(hi, p)
  {
  }

  /** 0.d1...dk times 10^n lies between 10^(n - 1) and 10^n. */
  lemma Magnitude(d: Text, n: int)
    requires AllDigits(d) && d != [] && d[0] != ZERO
    ensures Pow10(n - 1) <= Scientific(Dec(d), n - |d|).Real() < Pow10(n)
  {
    var k := |d|;
    DecAtLeast(d);
    DecBelow(d);
    TenIsPow10(k - 1);
    TenIsPow10(k);
    Scaled(Dec(d), Pow10(k - 1), Pow10(k), Pow10(n - k));
    Pow10Add(n - k, k - 1);
    Pow10Add(n - k, k);
    Commute(Pow10(k - 1), Pow10(n - k));
    Commute(Pow10(k), Pow10(n - k));
  }

  lemma Commute(a: real, b: real)
    ensures Product(a, b) == Product(b, a)
  {
  }

  function AbsReal(x: real): real { if x < 0.0 then -x else x }

  lemma SignedReal(neg: bool, m: nat, e: int)
    ensures AbsReal(Scientific(Signed(neg, m), e).Real()) == Scientific(m, e).Real()
  {
    assert Pow10(e) > 0.0;
    SignedProduct(m as real, Pow10(e));
  }

  lemma SignedProduct(a: real, p: real)
    requires a >= 0.0 && p > 0.0
    ensures Product(-a, p) == -Product(a, p) && Product(a, p) >= 0.0
  {
  }

  lemma ExponentInLayout(d: Text, n: int)
    requires AllDigits(d) && d != []
    ensures LETTER_E in Layout(d, n) <==> !(-6 < n <= 21)
  {
    var t := Layout(d, n);
    if !(-6 < n <= 21) {
      assert t[if |d| == 1 then 1 else |d| + 1] == LETTER_E;
    }
  }

  lemma DigitsFound(f: FloatText)
    requires f.Finite? && f.Valid() && Dec(f.intPart + f.fracPart) != 0
    ensures Digits(f) != [] && Digits(f)[0] != ZERO
  {
    SignificandValue(f);
    if Digits(f) != [] { assert Digits(f)[0] == Significand(f)[0]; }
  }

  lemma ExponentInSigned(neg: bool, d: Text, n: int)
    requires AllDigits(d) && d != []
    ensures LETTER_E in Assembled(neg, d, n) <==> !(-6 < n <= 21)
  {
    ExponentInLayout(d, n);
    assert forall c :: c in Assembled(neg, d, n) <==> (neg && c == MINUS) || c in Layout(d, n);
  }

  /** The text has an exponent. */
  ghost predicate HasExponent(f: FloatText) {
    f.Valid() && Format(f).Some? && LETTER_E in Format(f).value
  }

  lemma ExponentOf(f: FloatText, d: Text, n: int)
    requires f.Finite? && f.Valid() && AllDigits(d) && d != [] && Format(f) == Some(Assembled(f.neg, d, n))
    ensures HasExponent(f) <==> !(-6 < n <= 21)
  {
    ExponentInSigned(f.neg, d, n);
  }

  lemma SizeOf(d: Text, n: int, x: real)
    requires AllDigits(d) && d != [] && d[0] != ZERO && x == Scientific(Dec(d), n - |d|).Real()
    ensures -6 < n <= 21 <==> Pow10(-6) <= x < Pow10(21)
  {
    Magnitude(d, n);
    SizeOfPoint(n, x);
  }

  lemma GivenText(f: FloatText, d: Text, n: int)
    requires f.Finite? && f.Valid() && d == Digits(f) && n == Point(f) && Dec(f.intPart + f.fracPart) != 0
    ensures AllDigits(d) && d != [] && d[0] != ZERO && (HasExponent(f) <==> !(-6 < n <= 21))
  {
    DigitsFound(f);
    FormatOfDigits(f, d, n);
    ExponentOf(f, d, n);
  }

  lemma NormalSize(f: FloatText, x: real)
    requires f.Finite? && f.Valid() && x == AbsReal(Value(f).Real())
    ensures x == AbsReal(Normal(f).Real())
  {
    NormalForm(f);
  }

  lemma NormalRange(s: Scientific, neg: bool, d: Text, n: int, x: real)
    requires AllDigits(d) && d != [] && d[0] != ZERO && s == Scientific(Signed(neg, Dec(d)), n - |d|) && x == AbsReal(s.Real())
    ensures -6 < n <= 21 <==> Pow10(-6) <= x < Pow10(21)
  {
    SignedReal(neg, Dec(d), n - |d|);
    SizeOf(d, n, x);
  }

  lemma ExponentGiven(f: FloatText, d: Text, n: int, s: Scientific, x: real)
    requires f.Finite? && f.Valid() && d == Digits(f) && n == Point(f) && x == AbsReal(s.Real())
    requires s == Scientific(Signed(f.neg, Dec(d)), n - |d|) && Dec(f.intPart + f.fracPart) != 0
    ensures HasExponent(f) <==> !(Pow10(-6) <= x < Pow10(21))
  {
    GivenText(f, d, n);
    NormalRange(s, f.neg, d, n, x);
  }

  /** A number other than zero is written with an exponent if and only if it is at least 10^21 or below 10^-6 in size. */
  lemma ExponentExactly(f: FloatText)
    requires f.Finite? && f.Valid() && Dec(f.intPart + f.fracPart) != 0
    ensures HasExponent(f) <==> !(Pow10(-6) <= AbsReal(Value(f).Real()) < Pow10(21))
  {
    NormalSize(f, AbsReal(Value(f).Real()));
    ExponentGiven(f, Digits(f), Point(f), Normal(f), AbsReal(Value(f).Real()));
  }

  lemma SizeOfPoint(n: int, x: real)
    requires Pow10(n - 1) <= x < Pow10(n)
    ensures -6 < n <= 21 <==> Pow10(-6) <= x < Pow10(21)
  {
    if n <= -6 { Pow10Monotone(n, -6); } else { Pow10Monotone(-6, n - 1); }
    if n <= 21 { Pow10Monotone(n, 21); } else { Pow10Monotone(21, n - 1); }
  }

  /** With an exponent there is one digit before the point, the others behind it, a sign before the exponent, and no zero
      in front of the exponent's digits. */
  lemma ScientificShape(d: Text, n: int) returns (exponent: Text)
    requires AllDigits(d) && d != [] && !(-6 < n <= 21)
    ensures AllDigits(exponent) && exponent != [] && exponent[0] != ZERO && Dec(exponent) == Abs(n - 1)
    ensures Layout(d, n)
            == [d[0]] + (if |d| == 1 then [] else [DOT] + d[1..]) + ([LETTER_E, if n > 21 then PLUS else MINUS] + exponent)
  {
    exponent := NatText(Abs(n - 1));
    NatTextValue(Abs(n - 1));
    assert ExponentText(n - 1) == [LETTER_E, if n > 21 then PLUS else MINUS] + exponent;
    if |d| == 1 {
      assert d == [d[0]] + [];
    } else {
      assert [d[0]] + ([DOT] + d[1..]) == [d[0]] + [DOT] + d[1..];
    }
  }
}
