/** ECMAScript number layout (RFC 8785 section 3.2.2.3) from the decimal text of a float. */
module NumberFormat {
  import opened Wrappers
  import opened Numbers
  import opened Decimal

  /** The shortest decimal text of a float, cut at its point and its exponent mark. */
  datatype FloatText = NotFinite | Finite(neg: bool, intPart: Text, fracPart: Text, exp: int) {
    predicate Valid() {
      Finite? ==> AllDigits(intPart) && AllDigits(fracPart)
    }
  }

  function StripLeft(s: Text): (t: Text)
    requires AllDigits(s)
    ensures AllDigits(t) && NoLeadingZero(t) && |t| <= |s| && s == Zeros(|s| - |t|) + t
  {
    if s != [] && s[0] == ZERO then
      var t := StripLeft(s[1..]);
      assert s == [ZERO] + s[1..] == [ZERO] + (Zeros(|s| - 1 - |t|) + t) == Zeros(|s| - |t|) + t;
      t
    else s
  }

  function StripRight(s: Text): (t: Text)
    requires AllDigits(s)
    ensures AllDigits(t) && (t != [] ==> t[|t| - 1] != ZERO) && |t| <= |s| && s == t + Zeros(|s| - |t|)
    ensures t != [] ==> t[0] == s[0]
  {
    if s != [] && s[|s| - 1] == ZERO then
      var t := StripRight(s[..|s| - 1]);
      assert s == s[..|s| - 1] + [ZERO] == t + Zeros(|s| - 1 - |t|) + [ZERO] == t + Zeros(|s| - |t|);
      t
    else s
  }

  function ExponentText(m: int): Text {
    [LETTER_E] + [if m > 0 then PLUS else MINUS] + NatText(Abs(m))
  }

  /** The five layouts, for the value 0.d1...dk * 10^n. */
  function Layout(digits: Text, n: int): Text
    requires digits != []
  {
    var k := |digits|;
    if k <= n <= 21 then digits + Zeros(n - k)
    else if 0 < n <= 21 then digits[..n] + [DOT] + digits[n..]
    else if -6 < n <= 0 then [ZERO, DOT] + Zeros(-n) + digits
    else if k == 1 then digits + ExponentText(n - 1)
    else [digits[0]] + [DOT] + digits[1..] + ExponentText(n - 1)
  }

  function Significand(f: FloatText): (d: Text)
    requires f.Finite? && f.Valid()
    ensures AllDigits(d) && NoLeadingZero(d)
  {
    StripLeft(f.intPart + f.fracPart)
  }

  /** The digits without trailing zeros. */
  function Digits(f: FloatText): (d: Text)
    requires f.Finite? && f.Valid()
    ensures AllDigits(d) && (d != [] ==> d[0] != ZERO && d[|d| - 1] != ZERO)
  {
    StripRight(Significand(f))
  }

  function Point(f: FloatText): int
    requires f.Finite? && f.Valid()
  {
    f.exp - |f.fracPart| + |Significand(f)|
  }

  function Assembled(neg: bool, digits: Text, n: int): Text
    requires digits != []
  {
    (if neg then [MINUS] else []) + Layout(digits, n)
  }

  function Format(f: FloatText): Option<Text>
    requires f.Valid()
  {
    if f.NotFinite? then None
    else if Digits(f) == [] then Some([ZERO])
    else Some(Assembled(f.neg, Digits(f), Point(f)))
  }

  /** The source's order of updates to the digits and the exponent. */
  method FormatEcmascriptNumber(f: FloatText) returns (res: Option<Text>)
    requires f.Valid()
    ensures res == Format(f)
  {
    if f.NotFinite? {
      return None;
    }
    var exp := f.exp - |f.fracPart|;
    var digits := DropLeading(f);
    if digits == [] {
      return Some([ZERO]);
    }
    var trailing: nat;
    digits, trailing := DropTrailing(digits);
    if trailing > 0 {
      exp := exp + trailing;
    }
    var n := exp + |digits|;
    FormatOfDigits(f, digits, n);
    res := Some(Assembled(f.neg, digits, n));
  }

  lemma FormatOfDigits(f: FloatText, digits: Text, n: int)
    requires f.Finite? && f.Valid() && digits == Digits(f) && n == Point(f) && digits != []
    ensures Format(f) == Some(Assembled(f.neg, digits, n))
  {
  }

  method DropLeading(f: FloatText) returns (digits: Text)
    requires f.Finite? && f.Valid()
    ensures digits == Significand(f) && AllDigits(digits) && NoLeadingZero(digits)
    ensures digits == [] ==> Digits(f) == []
  {
    digits := f.intPart + f.fracPart;
    digits := StripLeft(digits);
  }

  /** Cutting the trailing zeros off, if there are any, and counting them. */
  method DropTrailing(s: Text) returns (digits: Text, trailing: nat)
    requires AllDigits(s) && s != [] && s[0] != ZERO
    ensures digits == StripRight(s) && digits != [] && trailing + |digits| == |s|
  {
    StripRightIsPrefix(s);
    StripRightNonEmpty(s);
    digits, trailing := s, |s| - |StripRight(s)|;
    if trailing > 0 {
      digits := digits[..|digits| - trailing];
    }
  }

  lemma StripRightIsPrefix(s: Text)
    requires AllDigits(s)
    ensures StripRight(s) == s[..|StripRight(s)|]
  {
  }

  lemma StripRightNonEmpty(s: Text)
    requires AllDigits(s) && s != [] && s[0] != ZERO
    ensures StripRight(s) != []
  {
    assert s == StripRight(s) + Zeros(|s| - |StripRight(s)|);
    assert s[0] == (StripRight(s) + Zeros(|s| - |StripRight(s)|))[0];
  }

  // ---- what a number text denotes, read independently of how it was laid out

  /** The rational m * 10^e. */
  datatype Scientific = Scientific(m: int, e: int) {
    function Negated(): Scientific { Scientific(-m, e) }

    function Real(): real { Product(m as real, Pow10(e)) }
  }

  function Find(s: Text, c: Code): (i: nat)
    ensures i <= |s| && (i < |s| ==> s[i] == c) && forall j :: 0 <= j < i ==> s[j] != c
  {
    if s == [] || s[0] == c then 0 else 1 + Find(s[1..], c)
  }

  function DigitsValue(s: Text): int {
    if AllDigits(s) then Dec(s) else 0
  }

  function ReadMantissa(m: Text): Scientific {
    var i := Find(m, DOT);
    if i == |m| then Scientific(DigitsValue(m), 0)
    else Scientific(DigitsValue(m[..i] + m[i + 1..]), i + 1 - |m|)
  }

  function ReadExponent(x: Text): int {
    if x == [] then 0 else if x[0] == MINUS then -DigitsValue(x[1..]) else DigitsValue(x[1..])
  }

  function ReadUnsigned(s: Text): Scientific {
    var i := Find(s, LETTER_E);
    var m := ReadMantissa(s[..i]);
    if i == |s| then m else Scientific(m.m, m.e + ReadExponent(s[i + 1..]))
  }

  function Read(s: Text): Scientific {
    if s != [] && s[0] == MINUS then ReadUnsigned(s[1..]).Negated() else ReadUnsigned(s)
  }

  function Signed(neg: bool, m: int): int {
    if neg then -m else m
  }

  /** The number a float's decimal text denotes. */
  function Value(f: FloatText): Scientific
    requires f.Finite? && f.Valid()
  {
    Scientific(Signed(f.neg, Dec(f.intPart + f.fracPart)), f.exp - |f.fracPart|)
  }

  lemma {:induction false} FindFirst(a: Text, c: Code, b: Text)
    requires c !in a
    ensures Find(a + [c] + b, c) == |a|
  {
    if a != [] {
      FindFirst(a[1..], c, b);
      assert (a + [c] + b)[1..] == a[1..] + [c] + b;
    }
  }

  lemma FindAbsent(s: Text, c: Code)
    requires c !in s
    ensures Find(s, c) == |s|
  {
  }

  lemma ReadPlain(s: Text)
    requires AllDigits(s)
    ensures ReadMantissa(s) == ReadUnsigned(s) == Scientific(Dec(s), 0)
  {
    FindAbsent(s, DOT);
    FindAbsent(s, LETTER_E);
    assert s[..|s|] == s;
  }

  lemma ReadPoint(a: Text, b: Text)
    requires AllDigits(a) && AllDigits(b)
    ensures ReadMantissa(a + [DOT] + b) == Scientific(Dec(a + b), -|b|)
    ensures ReadUnsigned(a + [DOT] + b) == Scientific(Dec(a + b), -|b|)
    ensures LETTER_E !in a + [DOT] + b
  {
    var m := a + [DOT] + b;
    FindFirst(a, DOT, b);
    FindAbsent(m, LETTER_E);
    assert m[..|m|] == m;
    assert m[..|a|] == a && m[|a| + 1..] == b;
  }

  lemma ReadWithExponent(m: Text, x: Text)
    requires LETTER_E !in m
    ensures ReadUnsigned(m + [LETTER_E] + x) == Scientific(ReadMantissa(m).m, ReadMantissa(m).e + ReadExponent(x))
  {
    var s := m + [LETTER_E] + x;
    FindFirst(m, LETTER_E, x);
    assert s[..|m|] == m && s[|m| + 1..] == x;
  }

  lemma ReadSignedExponent(n: int)
    requires n != 0
    ensures ReadExponent([if n > 0 then PLUS else MINUS] + NatText(Abs(n))) == n
  {
    var a := Abs(n);
    NatTextValue(a);
    assert ([if n > 0 then PLUS else MINUS] + NatText(a))[1..] == NatText(a);
  }

  lemma ReadExponentText(m: Text, n: int)
    requires LETTER_E !in m && n != 0
    ensures ReadUnsigned(m + ExponentText(n)) == Scientific(ReadMantissa(m).m, ReadMantissa(m).e + n)
  {
    var x := [if n > 0 then PLUS else MINUS] + NatText(Abs(n));
    ReadWithExponent(m, x);
    ReadSignedExponent(n);
    assert m + ExponentText(n) == m + [LETTER_E] + x;
  }

  lemma RealScaled(m: int, e: int, j: nat)
    ensures Scientific(m * Ten(j), e).Real() == Scientific(m, e + j).Real()
  {
    TenIsPow10(j);
    Pow10Add(e, j);
    RealProduct(m, Ten(j));
    Reassociate(m as real, Ten(j) as real, Pow10(e));
  }

  lemma RealProduct(a: int, b: int)
    ensures (a * b) as real == Product(a as real, b as real)
  {
  }

  lemma Reassociate(a: real, b: real, c: real)
    ensures Product(Product(a, b), c) == Product(a, Product(c, b))
  {
  }

  lemma ReadInteger(digits: Text, j: nat)
    requires AllDigits(digits)
    ensures ReadUnsigned(digits + Zeros(j)) == Scientific(Dec(digits) * Ten(j), 0)
  {
    ReadPlain(digits + Zeros(j));
    DecAppend(digits, Zeros(j));
    DecZeros(j);
  }

  lemma SmallShape(digits: Text, j: nat)
    ensures [ZERO, DOT] + Zeros(j) + digits == [ZERO] + [DOT] + (Zeros(j) + digits)
    ensures [ZERO] + (Zeros(j) + digits) == Zeros(j + 1) + digits
  {
  }

  lemma ReadSmall(digits: Text, j: nat)
    requires AllDigits(digits)
    ensures ReadUnsigned([ZERO, DOT] + Zeros(j) + digits) == Scientific(Dec(digits), 0 - (j + |digits|))
  {
    SmallShape(digits, j);
    ReadPoint([ZERO], Zeros(j) + digits);
    DecPrependZeros(j + 1, digits);
  }

  lemma ReadScientific(digits: Text, n: int)
    requires AllDigits(digits) && digits != [] && n != 0
    ensures ReadUnsigned([digits[0]] + [DOT] + digits[1..] + ExponentText(n)) == Scientific(Dec(digits), n + 1 - |digits|)
  {
    ReadPoint([digits[0]], digits[1..]);
    ReadExponentText([digits[0]] + [DOT] + digits[1..], n);
    assert [digits[0]] + digits[1..] == digits;
  }

  function Denoted(digits: Text, n: int): Scientific
    requires AllDigits(digits)
  {
    if |digits| <= n <= 21 then Scientific(Dec(digits) * Ten(n - |digits|), 0) else Scientific(Dec(digits), n - |digits|)
  }

  lemma SplitDigits(digits: Text, n: nat)
    requires AllDigits(digits) && n < |digits|
    ensures AllDigits(digits[..n]) && AllDigits(digits[n..]) && digits[..n] + digits[n..] == digits
  {
  }

  lemma ReadInner(digits: Text, n: nat)
    requires AllDigits(digits) && n < |digits|
    ensures ReadUnsigned(digits[..n] + [DOT] + digits[n..]) == Scientific(Dec(digits), n - |digits|)
  {
    SplitDigits(digits, n);
    ReadPoint(digits[..n], digits[n..]);
  }

  lemma ReadFixed(digits: Text, n: int)
    requires AllDigits(digits) && digits != [] && -6 < n <= 21
    ensures ReadUnsigned(Layout(digits, n)) == Denoted(digits, n)
  {
    if |digits| <= n {
      ReadInteger(digits, n - |digits|);
    } else if 0 < n {
      ReadInner(digits, n);
    } else {
      ReadSmall(digits, -n);
    }
  }

  lemma ReadOneDigit(digits: Text, n: int)
    requires AllDigits(digits) && |digits| == 1 && !(-6 < n <= 21)
    ensures ReadUnsigned(Layout(digits, n)) == Denoted(digits, n)
  {
    ReadPlain(digits);
    ReadExponentText(digits, n - 1);
  }

  lemma ReadManyDigits(digits: Text, n: int)
    requires AllDigits(digits) && |digits| > 1 && !(-6 < n <= 21)
    ensures ReadUnsigned(Layout(digits, n)) == Denoted(digits, n)
  {
    ReadScientific(digits, n - 1);
  }

  /** Every layout denotes d1...dk * 10^(n - k). */
  lemma ReadLayout(digits: Text, n: int)
    requires AllDigits(digits) && digits != []
    ensures ReadUnsigned(Layout(digits, n)) == Denoted(digits, n)
  {
    if -6 < n <= 21 {
      ReadFixed(digits, n);
    } else if |digits| == 1 {
      ReadOneDigit(digits, n);
    } else {
      ReadManyDigits(digits, n);
    }
  }

  // ---- the normal form digits * 10^(n - k) of a value

  lemma SignificandValue(f: FloatText)
    requires f.Finite? && f.Valid()
    ensures var s, d := Significand(f), Digits(f);
            Dec(f.intPart + f.fracPart) == Dec(s) == Dec(d) * Ten(|s| - |d|)
  {
    var s, d := Significand(f), Digits(f);
    DecPrependZeros(|f.intPart + f.fracPart| - |s|, s);
    DecAppend(d, Zeros(|s| - |d|));
    DecZeros(|s| - |d|);
  }

  function Normal(f: FloatText): Scientific
    requires f.Finite? && f.Valid()
  {
    Scientific(Signed(f.neg, Dec(Digits(f))), Point(f) - |Digits(f)|)
  }

  lemma ValueParts(f: FloatText)
    requires f.Finite? && f.Valid()
    ensures |Significand(f)| >= |Digits(f)|
    ensures Value(f) == Scientific(Signed(f.neg, Dec(Digits(f))) * Ten(|Significand(f)| - |Digits(f)|), f.exp - |f.fracPart|)
  {
    SignificandValue(f);
    SignedScale(f.neg, Dec(Digits(f)), Ten(|Significand(f)| - |Digits(f)|));
  }

  lemma NormalForm(f: FloatText)
    requires f.Finite? && f.Valid()
    ensures Value(f).Real() == Normal(f).Real()
  {
    ValueParts(f);
    ScaledEqual(Signed(f.neg, Dec(Digits(f))), f.exp - |f.fracPart|, |Significand(f)| - |Digits(f)|, Value(f), Normal(f));
  }

  lemma ScaledEqual(m: int, e: int, j: nat, a: Scientific, b: Scientific)
    requires a == Scientific(m * Ten(j), e) && b == Scientific(m, e + j)
    ensures a.Real() == b.Real()
  {
    RealScaled(m, e, j);
  }

  lemma SignedScale(neg: bool, m: int, k: int)
    ensures Signed(neg, m * k) == Signed(neg, m) * k
  {
  }

  /** The text denotes exactly the number it was made from, in all five layouts. */
  lemma FormatKeepsValue(f: FloatText)
    requires f.Finite? && f.Valid()
    ensures Format(f).Some? && Read(Format(f).value).Real() == Value(f).Real()
  {
    NormalForm(f);
    FormatDenotesNormal(f);
  }

  lemma FormatDenotesNormal(f: FloatText)
    requires f.Finite? && f.Valid()
    ensures Format(f).Some? && Read(Format(f).value).Real() == Normal(f).Real()
  {
    if Digits(f) == [] {
      ReadZero();
      ZeroReal(Normal(f).e);
    } else {
      LayoutDenotes(f.neg, Digits(f), Point(f));
    }
  }

  lemma ReadZero()
    ensures Read([ZERO]) == Scientific(0, 0)
  {
    ReadPlain([ZERO]);
  }

  lemma ZeroReal(e: int)
    ensures Scientific(0, e).Real() == 0.0
  {
  }

  lemma LayoutHead(d: Text, n: int)
    requires AllDigits(d) && d != []
    ensures Layout(d, n) != [] && Layout(d, n)[0] != MINUS
  {
  }

  lemma SignedDenoted(neg: bool, d: Text, n: int)
    requires AllDigits(d) && d != []
    ensures Scientific(Signed(neg, Denoted(d, n).m), Denoted(d, n).e).Real() == Scientific(Signed(neg, Dec(d)), n - |d|).Real()
  {
    if |d| <= n <= 21 {
      SignedScale(neg, Dec(d), Ten(n - |d|));
      RealScaled(Signed(neg, Dec(d)), 0, n - |d|);
    }
  }

  lemma LayoutDenotes(neg: bool, d: Text, n: int)
    requires AllDigits(d) && d != []
    ensures Read((if neg then [MINUS] else []) + Layout(d, n)).Real() == Scientific(Signed(neg, Dec(d)), n - |d|).Real()
  {
    LayoutHead(d, n);
    ReadLayout(d, n);
    DenotedSigned(neg, d, n, Layout(d, n));
  }

  lemma DenotedSigned(neg: bool, d: Text, n: int, t: Text)
    requires AllDigits(d) && d != [] && t != [] && t[0] != MINUS && ReadUnsigned(t) == Denoted(d, n)
    ensures Read((if neg then [MINUS] else []) + t).Real() == Scientific(Signed(neg, Dec(d)), n - |d|).Real()
  {
    ReadSigned(neg, t);
    SignedDenoted(neg, d, n);
  }

  lemma ReadSigned(neg: bool, t: Text)
    requires t != [] && t[0] != MINUS
    ensures Read((if neg then [MINUS] else []) + t) == Scientific(Signed(neg, ReadUnsigned(t).m), ReadUnsigned(t).e)
  {
    assert ([MINUS] + t)[1..] == t;
    assert [] + t == t;
  }

  // ---- one text per number

  lemma DigitsTrimmed(f: FloatText)
    requires f.Finite? && f.Valid() && Digits(f) != []
    ensures var d := Digits(f); NoLeadingZero(d) && Dec(d) > 0 && Dec(d) % 10 != 0
  {
    var d := Digits(f);
    assert d[0] == Significand(f)[0];
    DecPositive(d);
  }

  lemma ExponentsEqual(m: int, e: int, m': int, e': int)
    requires m % 10 != 0 && e <= e' && Scientific(m, e).Real() == Scientific(m', e').Real()
    ensures e == e' && m == m'
  {
    RealScaled(m', e, e' - e);
    SameExponent(m, m' * Ten(e' - e), e);
    TenMultiple(m', e' - e);
  }

  lemma TenMultiple(m: int, j: nat)
    ensures j > 0 ==> (m * Ten(j)) % 10 == 0
  {
    if j > 0 {
      TenfoldInt(m, Ten(j - 1));
      TenDivides(m * Ten(j - 1));
    }
  }

  lemma TenfoldInt(a: int, b: int)
    ensures a * (10 * b) == 10 * (a * b)
  {
  }

  lemma TenDivides(x: int)
    ensures (10 * x) % 10 == 0
  {
  }

  lemma SameExponent(m: int, n: int, e: int)
    requires Scientific(m, e).Real() == Scientific(n, e).Real()
    ensures m == n
  {
    var p := Pow10(e);
    assert (m as real - n as real) * p == 0.0;
  }

  /** Two floats get the same text exactly when they denote the same number. */
  lemma FormatCanonical(f: FloatText, g: FloatText)
    requires f.Finite? && f.Valid() && g.Finite? && g.Valid()
    ensures Format(f) == Format(g) <==> Value(f).Real() == Value(g).Real()
  {
    FormatKeepsValue(f);
    FormatKeepsValue(g);
    if Value(f).Real() == Value(g).Real() {
      NormalForm(f);
      NormalForm(g);
      NormalFormUnique(f, g);
    }
  }

  lemma NormalFormUnique(f: FloatText, g: FloatText)
    requires f.Finite? && f.Valid() && g.Finite? && g.Valid() && Normal(f).Real() == Normal(g).Real()
    ensures Digits(f) == Digits(g)
    ensures Digits(f) != [] ==> f.neg == g.neg && Point(f) == Point(g)
  {
    var a, b := Normal(f), Normal(g);
    DigitsOfNormal(f);
    DigitsOfNormal(g);
    if a.m == 0 || b.m == 0 {
      BothZero(a, b);
    } else {
      NormalsAgree(a, b);
      DecInjective(Digits(f), Digits(g));
    }
  }

  lemma DigitsOfNormal(f: FloatText)
    requires f.Finite? && f.Valid()
    ensures NoLeadingZero(Digits(f)) && Normal(f).m == Signed(f.neg, Dec(Digits(f)))
    ensures if Digits(f) == [] then Normal(f).m == 0 else Normal(f).m % 10 != 0
  {
    if Digits(f) != [] {
      DigitsTrimmed(f);
      SignedLastDigit(f.neg, Dec(Digits(f)));
    }
  }

  lemma SignedLastDigit(neg: bool, m: int)
    requires m % 10 != 0
    ensures Signed(neg, m) % 10 != 0
  {
  }

  lemma BothZero(a: Scientific, b: Scientific)
    requires a.Real() == b.Real() && (a.m == 0 || b.m == 0)
    ensures a.m == b.m == 0
  {
    NonZeroReal(a.m, a.e);
    NonZeroReal(b.m, b.e);
  }

  lemma NormalsAgree(a: Scientific, b: Scientific)
    requires a.m % 10 != 0 && b.m % 10 != 0 && a.Real() == b.Real()
    ensures a == b
  {
    if a.e <= b.e { ExponentsEqual(a.m, a.e, b.m, b.e); } else { ExponentsEqual(b.m, b.e, a.m, a.e); }
  }

  lemma NonZeroReal(m: int, e: int)
    ensures Scientific(m, e).Real() == 0.0 <==> m == 0
  {
  }

  // ---- floats that print like integers

  /** The decimal text of an integer, as a float's. */
  function IntegerAsFloat(n: int): FloatText {
    Finite(n < 0, NatText(Abs(n)), [], 0)
  }

  lemma IntegerValue(n: int)
    ensures IntegerAsFloat(n).Valid() && Value(IntegerAsFloat(n)).Real() == n as real
  {
    var g := IntegerAsFloat(n);
    NatTextValue(Abs(n));
    assert g.intPart + g.fracPart == g.intPart;
  }

  /** Up to 21 digits an integer and the float of its value have the same text. */
  lemma IntegerLayout(n: int)
    requires n != 0 && Abs(n) < Ten(21)
    ensures IntegerAsFloat(n).Valid() && Format(IntegerAsFloat(n)) == Some(IntText(n))
  {
    var g, t := IntegerAsFloat(n), NatText(Abs(n));
    NatTextValue(Abs(n));
    assert g.intPart + g.fracPart == t && Significand(g) == t;
    StripRightNonEmpty(t);
    DecAtLeast(t);
    if |t| > 21 { TenMonotone(21, |t| - 1); }
  }

  /** Any other layout than that of an integer of at most 21 digits shows a point or an exponent. */
  lemma MarkedLayout(digits: Text, n: int)
    requires digits != [] && !(|digits| <= n <= 21)
    ensures DOT in Layout(digits, n) || LETTER_E in Layout(digits, n)
  {
    var t := Layout(digits, n);
    if 0 < n <= 21 {
      assert t[n] == DOT;
    } else if -6 < n <= 0 {
      assert t[1] == DOT;
    } else if |digits| == 1 {
      assert t[1] == LETTER_E;
    } else {
      assert t[1] == DOT;
    }
  }

  lemma IntTextIsShort(f: FloatText, n: int)
    requires f.Finite? && f.Valid() && Format(f) == Some(IntText(n))
    ensures Abs(n) < Ten(21)
  {
    if Digits(f) == [] {
      ZeroText(n);
    } else {
      LayoutHead(Digits(f), Point(f));
      NatTextValue(Abs(n));
      SameSign(f.neg, Layout(Digits(f), Point(f)), n < 0, NatText(Abs(n)));
      ShortDigits(Digits(f), Point(f), Abs(n));
    }
  }

  lemma ShortDigits(digits: Text, n: int, a: nat)
    requires digits != [] && Layout(digits, n) == NatText(a)
    ensures a < Ten(21)
  {
    if !(|digits| <= n <= 21) { MarkedLayout(digits, n); }
    NatTextValue(a);
    DecBelow(NatText(a));
    TenMonotone(|NatText(a)|, 21);
  }

  lemma ZeroText(n: int)
    requires IntText(n) == [ZERO]
    ensures n == 0 && Ten(21) > 0
  {
    NatTextValue(Abs(n));
    TenMonotone(0, 21);
  }

  lemma SameSign(neg: bool, u: Text, neg': bool, v: Text)
    requires u != [] && v != [] && u[0] != MINUS && v[0] != MINUS
    requires (if neg then [MINUS] else []) + u == (if neg' then [MINUS] else []) + v
    ensures u == v
  {
    assert ([MINUS] + u)[0] == MINUS && ([MINUS] + v)[0] == MINUS;
    assert ([] + u)[0] != MINUS && ([] + v)[0] != MINUS;
    assert neg == neg';
    assert ([MINUS] + u)[1..] == u && ([MINUS] + v)[1..] == v && [] + u == u && [] + v == v;
  }

  lemma IntTextValue(n: int)
    ensures Read(IntText(n)) == Scientific(n, 0)
  {
    var a := Abs(n);
    NatTextValue(a);
    ReadPlain(NatText(a));
    if n < 0 { assert ([MINUS] + NatText(a))[1..] == NatText(a); }
  }

  /** An integer and a float have the same text exactly when they are equal and below 10^21 in size. */
  lemma IntegerTexts(f: FloatText, n: int)
    requires f.Finite? && f.Valid()
    ensures Format(f) == Some(IntText(n)) <==> (Value(f).Real() == n as real && Abs(n) < Ten(21))
  {
    IntTextValue(n);
    if Format(f) == Some(IntText(n)) {
      FormatKeepsValue(f);
      IntTextIsShort(f, n);
    } else if Value(f).Real() == n as real && Abs(n) < Ten(21) {
      IntegerValue(n);
      FormatCanonical(f, IntegerAsFloat(n));
      if n == 0 { ZeroFormat(f); } else { IntegerLayout(n); }
    }
  }

  lemma ZeroFormat(f: FloatText)
    requires f.Finite? && f.Valid() && Value(f).Real() == 0.0
    ensures Format(f) == Some(IntText(0))
  {
    NormalForm(f);
    DigitsOfNormal(f);
    NonZeroReal(Normal(f).m, Normal(f).e);
  }
}
