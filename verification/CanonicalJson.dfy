/** The RFC 8785 canonical serializer on which every digest and signature of the system rests. */
module CanonicalJson {
  import opened Wrappers
  import opened Sequences
  import opened Numbers
  import opened Decimal
  import opened Unicode
  import NF = NumberFormat

  /** A JSON value as Python holds it: an object keeps its members in insertion order. */
  datatype Json =
    | Null
    | Bool(b: bool)
    | Int(n: int)
    | Float(f: NF.FloatText)
    | Str(s: Text)
    | Arr(items: seq<Json>)
    | Obj(members: seq<Member>)

  datatype Member = Member(key: Text, value: Json)

  datatype Pair = Pair(key: Text, text: Text)

  const QUOTE: Code := 34
  const BACKSLASH: Code := 92
  const COMMA: Code := 44
  const COLON: Code := 58
  const OPEN_BRACKET: Code := 91
  const CLOSE_BRACKET: Code := 93
  const OPEN_BRACE: Code := 123
  const CLOSE_BRACE: Code := 125

  /** A dictionary holds each key once, and a float carries a decimal text. */
  predicate WellFormed(v: Json) {
    match v
    case Float(f) => f.Valid()
    case Arr(items) => forall i :: 0 <= i < |items| ==> WellFormed(items[i])
    case Obj(ms) =>
      && (forall i :: 0 <= i < |ms| ==> WellFormed(ms[i].value))
      && (forall i, j :: 0 <= i < j < |ms| ==> ms[i].key != ms[j].key)
    case _ => true
  }

  type Value = v: Json | WellFormed(v) witness Null

  /** What the serializer does not raise an error on: finite floats and strings without lone surrogates. */
  predicate Serializable(v: Json) {
    match v
    case Float(f) => f.Finite?
    case Str(s) => NoSurrogates(s)
    case Arr(items) => forall i :: 0 <= i < |items| ==> Serializable(items[i])
    case Obj(ms) => forall i :: 0 <= i < |ms| ==> NoSurrogates(ms[i].key) && Serializable(ms[i].value)
    case _ => true
  }

  // ---- strings (RFC 8785 section 3.2.2.2)

  function Hex(d: int): Code
    requires 0 <= d < 16
  {
    if d < 10 then 48 + d else 87 + d
  }

  function EscapeCode(c: Code): (r: Text)
    ensures r != []
  {
    if c == QUOTE then [BACKSLASH, QUOTE]
    else if c == BACKSLASH then [BACKSLASH, BACKSLASH]
    else if c == 8 then [BACKSLASH, 98]
    else if c == 12 then [BACKSLASH, 102]
    else if c == 10 then [BACKSLASH, 110]
    else if c == 13 then [BACKSLASH, 114]
    else if c == 9 then [BACKSLASH, 116]
    else if c < 0x20 then [BACKSLASH, 117, 48, 48, Hex(c / 16), Hex(c % 16)]
    else [c]
  }

  function Escape(s: Text): Text {
    if s == [] then [] else EscapeCode(s[0]) + Escape(s[1..])
  }

  function Quote(s: Text): Text { [QUOTE] + Escape(s) + [QUOTE] }

  method EncodeStr(s: Text) returns (res: Text)
    ensures res == Quote(s)
  {
    res := [QUOTE];
    assert s[..0] == [];
    for i := 0 to |s|
      invariant res == [QUOTE] + Escape(s[..i])
    {
      var piece := EscapeCode(s[i]);
      EscapeAppend(s[..i], s[i]);
      assert s[..i + 1] == s[..i] + [s[i]];
      Regroup([QUOTE], Escape(s[..i]), piece);
      res := res + piece;
    }
    assert s[..|s|] == s;
    res := res + [QUOTE];
  }

  lemma {:induction false} EscapeAppend(s: Text, c: Code)
    ensures Escape(s + [c]) == Escape(s) + EscapeCode(c)
  {
    if s == [] {
      assert s + [c] == [c] && [c][1..] == [];
    } else {
      EscapeAppend(s[1..], c);
      assert (s + [c])[1..] == s[1..] + [c];
      Regroup(EscapeCode(s[0]), Escape(s[1..]), EscapeCode(c));
    }
  }

  // ---- values

  function NumberText(v: Json): Text
    requires (v.Int? || v.Float?) && WellFormed(v) && Serializable(v)
  {
    if v.Int? then IntText(v.n) else NF.Format(v.f).value
  }

  function Join(parts: seq<Text>): Text {
    if parts == [] then [] else if |parts| == 1 then parts[0] else parts[0] + [COMMA] + Join(parts[1..])
  }

  function PairText(p: Pair): Text { Quote(p.key) + [COLON] + p.text }

  function PairTexts(ps: seq<Pair>): (r: seq<Text>)
    ensures |r| == |ps| && forall i :: 0 <= i < |ps| ==> r[i] == PairText(ps[i])
  {
    seq(|ps|, i requires 0 <= i < |ps| => PairText(ps[i]))
  }

  function Insert(p: Pair, ps: seq<Pair>): seq<Pair> {
    if ps == [] || KeyLess(p.key, ps[0].key) then [p] + ps else [ps[0]] + Insert(p, ps[1..])
  }

  /** The members in the order of their UTF-16-BE keys. */
  function SortPairs(ps: seq<Pair>): seq<Pair> {
    if ps == [] then [] else Insert(ps[0], SortPairs(ps[1..]))
  }

  function Serialize(v: Json): Text
    requires WellFormed(v) && Serializable(v)
    decreases v
  {
    match v
    case Null => [110, 117, 108, 108]
    case Bool(b) => if b then [116, 114, 117, 101] else [102, 97, 108, 115, 101]
    case Int(_) => NumberText(v)
    case Float(_) => NumberText(v)
    case Str(s) => Quote(s)
    case Arr(items) => [OPEN_BRACKET] + Join(SerializeAll(v, items)) + [CLOSE_BRACKET]
    case Obj(ms) => [OPEN_BRACE] + Join(PairTexts(SortPairs(SerializeMembers(v, ms)))) + [CLOSE_BRACE]
  }

  function SerializeAll(ghost v: Json, items: seq<Json>): (r: seq<Text>)
    requires forall i :: 0 <= i < |items| ==> items[i] < v && WellFormed(items[i]) && Serializable(items[i])
    ensures |r| == |items|
    ensures forall i :: 0 <= i < |items| ==> r[i] == Serialize(items[i])
    decreases v, |items|
  {
    if items == [] then [] else [Serialize(items[0])] + SerializeAll(v, items[1..])
  }

  function SerializeMembers(ghost v: Json, ms: seq<Member>): (r: seq<Pair>)
    requires forall i :: 0 <= i < |ms| ==> ms[i].value < v && WellFormed(ms[i].value) && Serializable(ms[i].value)
    ensures |r| == |ms|
    ensures forall i :: 0 <= i < |ms| ==> r[i] == Pair(ms[i].key, Serialize(ms[i].value))
    decreases v, |ms|
  {
    if ms == [] then [] else [Pair(ms[0].key, Serialize(ms[0].value))] + SerializeMembers(v, ms[1..])
  }

  /** NaN and infinities raise ValueError, lone surrogates UnicodeEncodeError. */
  function CanonicalBytes(v: Json): Result<seq<Byte>>
    requires WellFormed(v)
  {
    if Serializable(v) then Ok(Utf8(Serialize(v))) else Err
  }

  // ---- equal texts come from equal values

  lemma EscapePrefixFree(c: Code, x: Text, d: Code, y: Text)
    requires EscapeCode(c) + x == EscapeCode(d) + y
    ensures c == d && x == y
  {
    var a, b := EscapeCode(c), EscapeCode(d);
    EscapeLength(c, x);
    EscapeLength(d, y);
    assert |a| == |b|;
    assert a == (a + x)[..|a|] == (b + y)[..|b|] == b;
    assert x == (a + x)[|a|..] == (b + y)[|b|..] == y;
    EscapeCodeInjective(c, d);
  }

  /** The length of an escape shows in its first two characters. */
  lemma EscapeLength(c: Code, x: Text)
    ensures var s := EscapeCode(c) + x;
            |EscapeCode(c)| == if s[0] != BACKSLASH then 1 else if s[1] == 117 then 6 else 2
  {
    var s, e := EscapeCode(c) + x, EscapeCode(c);
    assert s[0] == e[0];
    if |e| > 1 { assert s[1] == e[1]; }
  }

  lemma EscapeCodeInjective(c: Code, d: Code)
    requires EscapeCode(c) == EscapeCode(d)
    ensures c == d
  {
    var a, b := EscapeCode(c), EscapeCode(d);
    assert a[0] == b[0] && |a| == |b|;
    if |a| > 1 { assert a[1] == b[1]; }
    if |a| > 2 { assert a[4] == b[4] && a[5] == b[5]; }
  }

  lemma {:induction false} EscapeUnique(s: Text, x: Text, t: Text, y: Text)
    requires Escape(s) + [QUOTE] + x == Escape(t) + [QUOTE] + y
    ensures s == t && x == y
  {
    EscapeHead(s, x);
    EscapeHead(t, y);
    if s == [] {
      assert x == (Escape(s) + [QUOTE] + x)[1..] == (Escape(t) + [QUOTE] + y)[1..] == y;
    } else {
      var s', t' := Escape(s[1..]) + [QUOTE] + x, Escape(t[1..]) + [QUOTE] + y;
      EscapeStep(s, x);
      EscapeStep(t, y);
      EscapePrefixFree(s[0], s', t[0], t');
      EscapeUnique(s[1..], x, t[1..], y);
    }
  }

  lemma EscapeStep(s: Text, x: Text)
    requires s != []
    ensures Escape(s) + [QUOTE] + x == EscapeCode(s[0]) + (Escape(s[1..]) + [QUOTE] + x)
  {
  }

  /** The closing quote cannot be mistaken for the first character of an escape. */
  lemma EscapeHead(s: Text, x: Text)
    ensures s == [] <==> (Escape(s) + [QUOTE] + x)[0] == QUOTE
  {
    if s != [] { assert (Escape(s) + [QUOTE] + x)[0] == EscapeCode(s[0])[0]; }
  }

  lemma QuoteUnique(s: Text, x: Text, t: Text, y: Text)
    requires Quote(s) + x == Quote(t) + y
    ensures s == t && x == y
  {
    QuoteParts(s, x);
    QuoteParts(t, y);
    PeelFirst(Escape(s) + [QUOTE] + x, Escape(t) + [QUOTE] + y, QUOTE, QUOTE);
    EscapeUnique(s, x, t, y);
  }

  lemma QuoteParts(s: Text, x: Text)
    ensures Quote(s) + x == [QUOTE] + (Escape(s) + [QUOTE] + x)
  {
  }

  // Number texts end where a delimiter begins.

  predicate IsNumberCode(c: Code) {
    IsDigit(c) || c == MINUS || c == PLUS || c == DOT || c == LETTER_E
  }

  predicate AllNumber(s: Text) { forall i :: 0 <= i < |s| ==> IsNumberCode(s[i]) }

  predicate Delimited(x: Text) {
    x == [] || x[0] == COMMA || x[0] == CLOSE_BRACKET || x[0] == CLOSE_BRACE
  }

  lemma LayoutIsNumber(digits: Text, n: int)
    requires AllDigits(digits) && digits != []
    ensures AllNumber(NF.Layout(digits, n)) && NF.Layout(digits, n) != [] && IsDigit(NF.Layout(digits, n)[0])
  {
  }

  predicate NumberShaped(t: Text) { t != [] && AllNumber(t) && (IsDigit(t[0]) || t[0] == MINUS) }

  lemma SignedShape(neg: bool, t: Text)
    requires t != [] && AllNumber(t) && IsDigit(t[0])
    ensures NumberShaped((if neg then [MINUS] else []) + t)
  {
  }

  lemma NumberTextShape(v: Json)
    requires (v.Int? || v.Float?) && WellFormed(v) && Serializable(v)
    ensures NumberShaped(NumberText(v))
  {
    if v.Int? {
      SignedShape(v.n < 0, NatText(Abs(v.n)));
      assert [] + NatText(Abs(v.n)) == NatText(Abs(v.n));
    } else if NF.Digits(v.f) != [] {
      LayoutIsNumber(NF.Digits(v.f), NF.Point(v.f));
      SignedShape(v.f.neg, NF.Layout(NF.Digits(v.f), NF.Point(v.f)));
    }
  }

  lemma NumberEnd(a: Text, x: Text)
    requires AllNumber(a) && Delimited(x)
    ensures forall i :: 0 <= i < |a| ==> IsNumberCode((a + x)[i])
    ensures |a| < |a + x| ==> !IsNumberCode((a + x)[|a|])
  {
  }

  lemma NumberUnique(a: Text, x: Text, b: Text, y: Text)
    requires AllNumber(a) && AllNumber(b) && Delimited(x) && Delimited(y) && a + x == b + y
    ensures a == b && x == y
  {
    NumberEnd(a, x);
    NumberEnd(b, y);
    assert |a| == |b|;
    assert a == (a + x)[..|a|] && b == (b + y)[..|b|];
    assert x == (a + x)[|a|..] && y == (b + y)[|b|..];
  }

  // ---- equality up to the order of object members

  /** An integer and a float that have the same number, of at most 21 digits. */
  ghost predicate SameNumber(n: int, f: NF.FloatText)
    requires f.Finite? && f.Valid()
  {
    NF.Value(f).Real() == n as real && Abs(n) < Ten(21)
  }

  /** Equal values, whatever the insertion order of objects; an integer of at most 21 digits counts as equal to the float
      of its value, a longer one to no float. */
  ghost predicate Alike(v: Json, w: Json)
    requires WellFormed(v) && WellFormed(w) && Serializable(v) && Serializable(w)
    decreases v
  {
    match v
    case Null => w.Null?
    case Bool(b) => w == Bool(b)
    case Int(n) => w == v || (w.Float? && SameNumber(n, w.f))
    case Float(f) => (w.Float? && NF.Value(f).Real() == NF.Value(w.f).Real()) || (w.Int? && SameNumber(w.n, f))
    case Str(s) => w == Str(s)
    case Arr(items) =>
      w.Arr? && |items| == |w.items| && forall i :: 0 <= i < |items| ==> Alike(items[i], w.items[i])
    case Obj(ms) =>
      && w.Obj? && |ms| == |w.members|
      && forall i :: 0 <= i < |ms| ==> HasAlike(v, i, w)
  }

  ghost predicate HasAlike(v: Json, i: nat, w: Json)
    requires v.Obj? && i < |v.members| && w.Obj?
    requires WellFormed(v) && WellFormed(w) && Serializable(v) && Serializable(w)
    decreases v, 0
  {
    exists j :: 0 <= j < |w.members| && v.members[i].key == w.members[j].key
                && Alike(v.members[i].value, w.members[j].value)
  }

  /** Number texts are equal exactly when the numbers count as equal. */
  lemma NumberTexts(v: Json, w: Json)
    requires (v.Int? || v.Float?) && (w.Int? || w.Float?)
    requires WellFormed(v) && WellFormed(w) && Serializable(v) && Serializable(w)
    ensures NumberText(v) == NumberText(w) <==> Alike(v, w)
  {
    if v.Int? && w.Int? {
      NF.IntTextValue(v.n);
      NF.IntTextValue(w.n);
    } else if v.Int? {
      NF.IntegerTexts(w.f, v.n);
      NF.FormatKeepsValue(w.f);
    } else if w.Int? {
      NF.IntegerTexts(v.f, w.n);
      NF.FormatKeepsValue(v.f);
    } else {
      NF.FormatCanonical(v.f, w.f);
      NF.FormatKeepsValue(v.f);
      NF.FormatKeepsValue(w.f);
    }
  }

  // ---- unique reading

  predicate ValueHead(v: Json, c: Code) {
    match v
    case Null => c == 110
    case Bool(b) => c == if b then 116 else 102
    case Int(_) => IsDigit(c) || c == MINUS
    case Float(_) => IsDigit(c) || c == MINUS
    case Str(_) => c == QUOTE
    case Arr(_) => c == OPEN_BRACKET
    case Obj(_) => c == OPEN_BRACE
  }

  lemma SerializeHead(v: Json, x: Text)
    requires WellFormed(v) && Serializable(v)
    ensures Serialize(v) != [] && ValueHead(v, (Serialize(v) + x)[0])
  {
    if v.Int? || v.Float? { NumberTextShape(v); }
    assert Serialize(v) != [] && ValueHead(v, Serialize(v)[0]);
  }

  /** The rest of a joined list after its first part. */
  function Rest(parts: seq<Text>, close: Code, x: Text): Text
    requires parts != []
  {
    if |parts| == 1 then [close] + x else [COMMA] + (Join(parts[1..]) + [close] + x)
  }

  lemma JoinStep(parts: seq<Text>, close: Code, x: Text)
    requires parts != []
    ensures Join(parts) + [close] + x == parts[0] + Rest(parts, close, x)
  {
  }

  lemma JoinEmpty(close: Code, x: Text)
    ensures Join([]) + [close] + x == [close] + x
  {
  }

  ghost predicate TextsOf(ts: seq<Text>, items: seq<Json>) {
    && |ts| == |items|
    && forall i :: 0 <= i < |ts| ==> WellFormed(items[i]) && Serializable(items[i]) && ts[i] == Serialize(items[i])
  }

  lemma PeelFirst(a: Text, b: Text, c: Code, d: Code)
    requires [c] + a == [d] + b
    ensures a == b && c == d
  {
    assert a == ([c] + a)[1..] == ([d] + b)[1..] == b;
    assert ([c] + a)[0] == ([d] + b)[0];
  }

  lemma RestUnique(ts: seq<Text>, x: Text, us: seq<Text>, y: Text, close: Code)
    requires ts != [] && us != [] && close != COMMA && Rest(ts, close, x) == Rest(us, close, y)
    ensures |ts| == 1 <==> |us| == 1
    ensures if |ts| == 1 then x == y else Join(ts[1..]) + [close] + x == Join(us[1..]) + [close] + y
  {
    RestHead(ts, close, x);
    RestHead(us, close, y);
    if |ts| == 1 {
      PeelFirst(x, y, close, close);
    } else {
      PeelFirst(Join(ts[1..]) + [close] + x, Join(us[1..]) + [close] + y, COMMA, COMMA);
    }
  }

  lemma {:induction false} ListUnique(v: Json, ts: seq<Text>, a: seq<Json>, x: Text, us: seq<Text>, b: seq<Json>, y: Text)
    requires TextsOf(ts, a) && TextsOf(us, b) && forall i :: 0 <= i < |a| ==> a[i] < v
    requires Join(ts) + [CLOSE_BRACKET] + x == Join(us) + [CLOSE_BRACKET] + y
    ensures |a| == |b| && x == y && forall i :: 0 <= i < |a| ==> Alike(a[i], b[i])
    decreases v, 0, |a|
  {
    ListHead(ts, a, x);
    ListHead(us, b, y);
    if a == [] {
      BothEnd(ts, x, us, y, CLOSE_BRACKET);
    } else {
      FirstItemUnique(v, ts, a, x, us, b, y);
      if |a| > 1 {
        TextsOfTail(ts, a);
        TextsOfTail(us, b);
        ListUnique(v, ts[1..], a[1..], x, us[1..], b[1..], y);
        AllSame(a, b);
      }
    }
  }

  lemma BothEnd(ts: seq<Text>, x: Text, us: seq<Text>, y: Text, close: Code)
    requires |ts| == |us| == 0 && Join(ts) + [close] + x == Join(us) + [close] + y
    ensures x == y
  {
    JoinEmpty(close, x);
    JoinEmpty(close, y);
    PeelFirst(x, y, close, close);
  }

  lemma TextsOfTail(ts: seq<Text>, a: seq<Json>)
    requires TextsOf(ts, a) && a != []
    ensures TextsOf(ts[1..], a[1..])
  {
  }

  lemma FirstItemUnique(v: Json, ts: seq<Text>, a: seq<Json>, x: Text, us: seq<Text>, b: seq<Json>, y: Text)
    requires TextsOf(ts, a) && TextsOf(us, b) && a != [] && b != [] && a[0] < v
    requires Join(ts) + [CLOSE_BRACKET] + x == Join(us) + [CLOSE_BRACKET] + y
    ensures Alike(a[0], b[0]) && (|a| == 1 <==> |b| == 1)
    ensures if |a| == 1 then x == y else Join(ts[1..]) + [CLOSE_BRACKET] + x == Join(us[1..]) + [CLOSE_BRACKET] + y
    decreases v, 0, 0
  {
    JoinStep(ts, CLOSE_BRACKET, x);
    JoinStep(us, CLOSE_BRACKET, y);
    Unique(a[0], Rest(ts, CLOSE_BRACKET, x), b[0], Rest(us, CLOSE_BRACKET, y));
    RestUnique(ts, x, us, y, CLOSE_BRACKET);
  }

  lemma AllSame(a: seq<Json>, b: seq<Json>)
    requires a != [] && |a| == |b| && Comparable(a[0], b[0]) && Alike(a[0], b[0])
    requires forall i :: 0 <= i < |a[1..]| ==> Comparable(a[1..][i], b[1..][i]) && Alike(a[1..][i], b[1..][i])
    ensures forall i :: 0 <= i < |a| ==> Comparable(a[i], b[i]) && Alike(a[i], b[i])
  {
    forall i | 0 <= i < |a| ensures Comparable(a[i], b[i]) && Alike(a[i], b[i]) {
      if i > 0 { assert a[i] == a[1..][i - 1] && b[i] == b[1..][i - 1]; }
    }
  }

  predicate Comparable(v: Json, w: Json) { WellFormed(v) && WellFormed(w) && Serializable(v) && Serializable(w) }

  lemma RestHead(parts: seq<Text>, close: Code, x: Text)
    requires parts != []
    ensures Rest(parts, close, x)[0] == if |parts| == 1 then close else COMMA
  {
  }

  lemma ListHead(ts: seq<Text>, a: seq<Json>, x: Text)
    requires TextsOf(ts, a)
    ensures a == [] <==> (Join(ts) + [CLOSE_BRACKET] + x)[0] == CLOSE_BRACKET
  {
    if a != [] {
      JoinStep(ts, CLOSE_BRACKET, x);
      SerializeHead(a[0], Rest(ts, CLOSE_BRACKET, x));
    }
  }

  /** The pair is a serialized member of v. */
  ghost predicate PairIn(p: Pair, v: Json)
    requires v.Obj?
  {
    exists i :: 0 <= i < |v.members| && IsPairOf(p, v.members[i])
  }

  ghost predicate PairsOf(ps: seq<Pair>, v: Json) {
    v.Obj? && WellFormed(v) && Serializable(v) && forall k :: 0 <= k < |ps| ==> PairIn(ps[k], v)
  }

  ghost predicate IsPairOf(p: Pair, m: Member) {
    WellFormed(m.value) && Serializable(m.value) && p == Pair(m.key, Serialize(m.value))
  }

  /** Members of v and w under the same key hold the same values. */
  ghost predicate SameUnder(key: Text, v: Json, w: Json)
    requires v.Obj? && w.Obj? && WellFormed(v) && WellFormed(w) && Serializable(v) && Serializable(w)
  {
    forall i, j :: 0 <= i < |v.members| && 0 <= j < |w.members| && v.members[i].key == w.members[j].key == key
                   ==> Alike(v.members[i].value, w.members[j].value)
  }

  lemma {:induction false} PairsUnique(v: Json, ps: seq<Pair>, x: Text, w: Json, qs: seq<Pair>, y: Text)
    requires PairsOf(ps, v) && PairsOf(qs, w)
    requires Join(PairTexts(ps)) + [CLOSE_BRACE] + x == Join(PairTexts(qs)) + [CLOSE_BRACE] + y
    ensures |ps| == |qs| && x == y && forall k :: 0 <= k < |ps| ==> ps[k].key == qs[k].key && SameUnder(ps[k].key, v, w)
    decreases v, 0, |ps|
  {
    PairsHead(ps, x);
    PairsHead(qs, y);
    if ps == [] {
      BothEnd(PairTexts(ps), x, PairTexts(qs), y, CLOSE_BRACE);
    } else {
      PairStepUnique(v, ps, x, w, qs, y);
      if |ps| > 1 {
        PairsTail(ps, v);
        PairsTail(qs, w);
        PairsUnique(v, ps[1..], x, w, qs[1..], y);
        AllSameUnder(v, ps, w, qs);
      }
    }
  }

  lemma PairStepUnique(v: Json, ps: seq<Pair>, x: Text, w: Json, qs: seq<Pair>, y: Text)
    requires PairsOf(ps, v) && PairsOf(qs, w) && ps != [] && qs != []
    requires Join(PairTexts(ps)) + [CLOSE_BRACE] + x == Join(PairTexts(qs)) + [CLOSE_BRACE] + y
    ensures ps[0].key == qs[0].key && SameUnder(ps[0].key, v, w) && (|ps| == 1 <==> |qs| == 1)
    ensures if |ps| == 1 then x == y
            else Join(PairTexts(ps)[1..]) + [CLOSE_BRACE] + x == Join(PairTexts(qs)[1..]) + [CLOSE_BRACE] + y
    decreases v, 0, 0, 1
  {
    var ts, us := PairTexts(ps), PairTexts(qs);
    JoinStep(ts, CLOSE_BRACE, x);
    JoinStep(us, CLOSE_BRACE, y);
    assert PairIn(ps[0], v) && PairIn(qs[0], w);
    FirstPairUnique(v, ps[0], Rest(ts, CLOSE_BRACE, x), w, qs[0], Rest(us, CLOSE_BRACE, y));
    RestUnique(ts, x, us, y, CLOSE_BRACE);
  }

  lemma PairsTail(ps: seq<Pair>, v: Json)
    requires PairsOf(ps, v) && ps != []
    ensures PairsOf(ps[1..], v) && PairTexts(ps)[1..] == PairTexts(ps[1..])
  {
    forall k | 0 <= k < |ps[1..]| ensures PairIn(ps[1..][k], v) { assert PairIn(ps[k + 1], v); }
  }

  lemma AllSameUnder(v: Json, ps: seq<Pair>, w: Json, qs: seq<Pair>)
    requires v.Obj? && w.Obj? && WellFormed(v) && WellFormed(w) && Serializable(v) && Serializable(w)
    requires ps != [] && |ps| == |qs| && ps[0].key == qs[0].key && SameUnder(ps[0].key, v, w)
    requires forall k :: 0 <= k < |ps[1..]| ==> ps[1..][k].key == qs[1..][k].key && SameUnder(ps[1..][k].key, v, w)
    ensures forall k :: 0 <= k < |ps| ==> ps[k].key == qs[k].key && SameUnder(ps[k].key, v, w)
  {
    forall k | 0 <= k < |ps| ensures ps[k].key == qs[k].key && SameUnder(ps[k].key, v, w) {
      if k > 0 { assert ps[k] == ps[1..][k - 1] && qs[k] == qs[1..][k - 1]; }
    }
  }

  lemma FirstPairUnique(v: Json, p: Pair, r: Text, w: Json, q: Pair, t: Text)
    requires v.Obj? && WellFormed(v) && Serializable(v) && PairIn(p, v) && Delimited(r)
    requires w.Obj? && WellFormed(w) && Serializable(w) && PairIn(q, w) && Delimited(t)
    requires PairText(p) + r == PairText(q) + t
    ensures p.key == q.key && SameUnder(p.key, v, w) && r == t
    decreases v, 0, 0, 0
  {
    var i :| 0 <= i < |v.members| && IsPairOf(p, v.members[i]);
    var j :| 0 <= j < |w.members| && IsPairOf(q, w.members[j]);
    PairTextUnique(p, r, q, t);
    Unique(v.members[i].value, r, w.members[j].value, t);
    OnlyUnderKey(v, i, w, j);
  }

  lemma PairTextUnique(p: Pair, r: Text, q: Pair, t: Text)
    requires PairText(p) + r == PairText(q) + t
    ensures p.key == q.key && p.text + r == q.text + t
  {
    PairTextParts(p, r);
    PairTextParts(q, t);
    QuoteUnique(p.key, [COLON] + (p.text + r), q.key, [COLON] + (q.text + t));
    PeelFirst(p.text + r, q.text + t, COLON, COLON);
  }

  lemma PairTextParts(p: Pair, r: Text)
    ensures PairText(p) + r == Quote(p.key) + ([COLON] + (p.text + r))
  {
    Regroup(Quote(p.key) + [COLON], p.text, r);
    Regroup(Quote(p.key), [COLON], p.text + r);
  }

  lemma OnlyUnderKey(v: Json, i: nat, w: Json, j: nat)
    requires v.Obj? && w.Obj? && WellFormed(v) && WellFormed(w) && Serializable(v) && Serializable(w)
    requires i < |v.members| && j < |w.members| && v.members[i].key == w.members[j].key
    requires Alike(v.members[i].value, w.members[j].value)
    ensures SameUnder(v.members[i].key, v, w)
  {
  }

  lemma PairsHead(ps: seq<Pair>, x: Text)
    ensures ps == [] <==> (Join(PairTexts(ps)) + [CLOSE_BRACE] + x)[0] == CLOSE_BRACE
  {
    if ps != [] {
      JoinStep(PairTexts(ps), CLOSE_BRACE, x);
      assert (PairText(ps[0]) + Rest(PairTexts(ps), CLOSE_BRACE, x))[0] == QUOTE;
    }
  }

  /** A text followed by a delimiter reads back as one value only. */
  lemma {:induction false} Unique(v: Json, x: Text, w: Json, y: Text)
    requires WellFormed(v) && WellFormed(w) && Serializable(v) && Serializable(w)
    requires Delimited(x) && Delimited(y) && Serialize(v) + x == Serialize(w) + y
    ensures Alike(v, w) && x == y
    decreases v, 2, 0
  {
    SerializeHead(v, x);
    SerializeHead(w, y);
    var c := (Serialize(v) + x)[0];
    match v {
      case Null => KeywordUnique(v, x, w, y);
      case Bool(_) => KeywordUnique(v, x, w, y);
      case Int(_) => NumbersUnique(v, x, w, y);
      case Float(_) => NumbersUnique(v, x, w, y);
      case Str(s) => QuoteUnique(s, x, w.s, y);
      case Arr(items) => ArrUnique(v, x, w, y);
      case Obj(ms) => ObjUnique(v, x, w, y);
    }
  }

  lemma KeywordUnique(v: Json, x: Text, w: Json, y: Text)
    requires (v.Null? && w.Null?) || (v.Bool? && w == v)
    requires Serialize(v) + x == Serialize(w) + y
    ensures x == y
  {
    var t := Serialize(v);
    assert x == (t + x)[|t|..] == (t + y)[|t|..] == y;
  }

  lemma NumbersUnique(v: Json, x: Text, w: Json, y: Text)
    requires (v.Int? || v.Float?) && (w.Int? || w.Float?)
    requires WellFormed(v) && WellFormed(w) && Serializable(v) && Serializable(w)
    requires Delimited(x) && Delimited(y) && NumberText(v) + x == NumberText(w) + y
    ensures Alike(v, w) && x == y
  {
    NumberTextShape(v);
    NumberTextShape(w);
    NumberUnique(NumberText(v), x, NumberText(w), y);
    NumberTexts(v, w);
  }

  lemma ArrUnique(v: Json, x: Text, w: Json, y: Text)
    requires v.Arr? && w.Arr? && WellFormed(v) && WellFormed(w) && Serializable(v) && Serializable(w)
    requires Serialize(v) + x == Serialize(w) + y
    ensures Alike(v, w) && x == y
    decreases v, 1, 0
  {
    var ts, us := SerializeAll(v, v.items), SerializeAll(w, w.items);
    ArrText(v, x);
    ArrText(w, y);
    PeelFirst(Join(ts) + [CLOSE_BRACKET] + x, Join(us) + [CLOSE_BRACKET] + y, OPEN_BRACKET, OPEN_BRACKET);
    ListUnique(v, ts, v.items, x, us, w.items, y);
  }

  lemma ArrText(v: Json, x: Text)
    requires v.Arr? && WellFormed(v) && Serializable(v)
    ensures Serialize(v) + x == [OPEN_BRACKET] + (Join(SerializeAll(v, v.items)) + [CLOSE_BRACKET] + x)
  {
    var j := Join(SerializeAll(v, v.items));
    assert [OPEN_BRACKET] + j + [CLOSE_BRACKET] + x == [OPEN_BRACKET] + (j + [CLOSE_BRACKET] + x);
  }

  lemma ObjUnique(v: Json, x: Text, w: Json, y: Text)
    requires v.Obj? && w.Obj? && WellFormed(v) && WellFormed(w) && Serializable(v) && Serializable(w)
    requires Serialize(v) + x == Serialize(w) + y
    ensures Alike(v, w) && x == y
    decreases v, 1, 0
  {
    var ps, qs := SortedPairs(v), SortedPairs(w);
    SortedPairsOf(v);
    SortedPairsOf(w);
    ObjText(v, x);
    ObjText(w, y);
    PeelFirst(Join(PairTexts(ps)) + [CLOSE_BRACE] + x, Join(PairTexts(qs)) + [CLOSE_BRACE] + y, OPEN_BRACE, OPEN_BRACE);
    PairsUnique(v, ps, x, w, qs, y);
    SameFromPairs(v, ps, w, qs);
  }

  lemma ObjText(v: Json, x: Text)
    requires v.Obj? && WellFormed(v) && Serializable(v)
    ensures Serialize(v) + x == [OPEN_BRACE] + (Join(PairTexts(SortedPairs(v))) + [CLOSE_BRACE] + x)
  {
    var j := Join(PairTexts(SortedPairs(v)));
    assert [OPEN_BRACE] + j + [CLOSE_BRACE] + x == [OPEN_BRACE] + (j + [CLOSE_BRACE] + x);
  }

  lemma SameFromPairs(v: Json, ps: seq<Pair>, w: Json, qs: seq<Pair>)
    requires PairsOf(ps, v) && PairsOf(qs, w) && |ps| == |v.members| && |qs| == |w.members| && |ps| == |qs|
    requires forall i :: 0 <= i < |v.members| ==> exists k :: 0 <= k < |ps| && IsPairOf(ps[k], v.members[i])
    requires forall k :: 0 <= k < |ps| ==> ps[k].key == qs[k].key && SameUnder(ps[k].key, v, w)
    ensures Alike(v, w)
  {
    forall i | 0 <= i < |v.members| ensures HasAlike(v, i, w) {
      var k :| 0 <= k < |ps| && IsPairOf(ps[k], v.members[i]);
      assert PairIn(qs[k], w) && SameUnder(ps[k].key, v, w);
      var j :| 0 <= j < |w.members| && IsPairOf(qs[k], w.members[j]);
    }
  }

  // ---- sorting

  function SortedPairs(v: Json): seq<Pair>
    requires v.Obj? && WellFormed(v) && Serializable(v)
  {
    SortPairs(SerializeMembers(v, v.members))
  }

  lemma {:induction false} InsertContents(p: Pair, ps: seq<Pair>)
    ensures multiset(Insert(p, ps)) == multiset(ps) + multiset{p} && |Insert(p, ps)| == |ps| + 1
  {
    if ps != [] && !KeyLess(p.key, ps[0].key) {
      InsertContents(p, ps[1..]);
      assert ps == [ps[0]] + ps[1..];
    }
  }

  lemma {:induction false} SortContents(ps: seq<Pair>)
    ensures multiset(SortPairs(ps)) == multiset(ps) && |SortPairs(ps)| == |ps|
  {
    if ps != [] {
      SortContents(ps[1..]);
      InsertContents(ps[0], SortPairs(ps[1..]));
      assert ps == [ps[0]] + ps[1..];
    }
  }

  lemma SameElements(ps: seq<Pair>, qs: seq<Pair>)
    requires multiset(ps) == multiset(qs)
    ensures forall i :: 0 <= i < |ps| ==> ps[i] in qs
    ensures forall i :: 0 <= i < |qs| ==> qs[i] in ps
  {
    forall i | 0 <= i < |ps| ensures ps[i] in qs { assert ps[i] in multiset(ps); }
    forall i | 0 <= i < |qs| ensures qs[i] in ps { assert qs[i] in multiset(qs); }
  }

  lemma SortedPairsOf(v: Json)
    requires v.Obj? && WellFormed(v) && Serializable(v)
    ensures PairsOf(SortedPairs(v), v) && |SortedPairs(v)| == |v.members|
    ensures forall i :: 0 <= i < |v.members| ==> exists k :: 0 <= k < |SortedPairs(v)| && IsPairOf(SortedPairs(v)[k], v.members[i])
  {
    var ps, ss := SerializeMembers(v, v.members), SortedPairs(v);
    SortContents(ps);
    SameElements(ss, ps);
    forall k | 0 <= k < |ss| ensures PairIn(ss[k], v) {
      var i :| 0 <= i < |ps| && ps[i] == ss[k];
      assert IsPairOf(ss[k], v.members[i]);
    }
    forall i | 0 <= i < |v.members| ensures exists k :: 0 <= k < |ss| && IsPairOf(ss[k], v.members[i]) {
      assert ps[i] in ss;
      var k :| 0 <= k < |ss| && ss[k] == ps[i];
      assert IsPairOf(ss[k], v.members[i]);
    }
  }

  ghost predicate Ascending(ps: seq<Pair>) {
    forall i, j :: 0 <= i < j < |ps| ==> KeyLess(ps[i].key, ps[j].key)
  }

  ghost predicate CleanKeys(ps: seq<Pair>) {
    forall i :: 0 <= i < |ps| ==> NoSurrogates(ps[i].key)
  }

  ghost predicate DistinctKeys(ps: seq<Pair>) {
    forall i, j :: 0 <= i < j < |ps| ==> ps[i].key != ps[j].key
  }

  lemma {:induction false} InsertAscending(p: Pair, ps: seq<Pair>)
    requires Ascending(ps) && CleanKeys(ps) && NoSurrogates(p.key) && forall i :: 0 <= i < |ps| ==> ps[i].key != p.key
    ensures Ascending(Insert(p, ps)) && CleanKeys(Insert(p, ps))
  {
    if ps != [] {
      KeyOrderTotal(p.key, ps[0].key);
      if KeyLess(p.key, ps[0].key) {
        forall j | 1 <= j < |ps| ensures KeyLess(p.key, ps[j].key) {
          LexTransitive(BigEndian(Utf16(p.key)), BigEndian(Utf16(ps[0].key)), BigEndian(Utf16(ps[j].key)));
        }
      } else {
        InsertAscending(p, ps[1..]);
        InsertContents(p, ps[1..]);
        var r := Insert(p, ps[1..]);
        forall j | 0 <= j < |r| ensures KeyLess(ps[0].key, r[j].key) {
          assert r[j] in multiset(r);
          assert r[j] == p || r[j] in ps[1..];
        }
      }
    }
  }

  lemma {:induction false} SortAscending(ps: seq<Pair>)
    requires CleanKeys(ps) && DistinctKeys(ps)
    ensures Ascending(SortPairs(ps)) && CleanKeys(SortPairs(ps))
  {
    if ps != [] {
      SortAscending(ps[1..]);
      SortContents(ps[1..]);
      SameElements(SortPairs(ps[1..]), ps[1..]);
      InsertAscending(ps[0], SortPairs(ps[1..]));
    }
  }

  /** A set of pairs has one ascending arrangement. */
  lemma {:induction false} AscendingUnique(ps: seq<Pair>, qs: seq<Pair>)
    requires Ascending(ps) && Ascending(qs) && CleanKeys(ps) && CleanKeys(qs)
    requires forall i :: 0 <= i < |ps| ==> ps[i] in qs
    requires forall i :: 0 <= i < |qs| ==> qs[i] in ps
    ensures ps == qs
  {
    NoneMissing(ps, qs);
    if ps != [] {
      AscendingHead(ps, qs);
      AscendingTail(ps, qs);
      AscendingTail(qs, ps);
      TailAscends(ps);
      TailAscends(qs);
      AscendingUnique(ps[1..], qs[1..]);
      HeadAndTail(ps, qs);
    }
  }

  lemma HeadAndTail(ps: seq<Pair>, qs: seq<Pair>)
    requires ps != [] && qs != [] && ps[0] == qs[0] && ps[1..] == qs[1..]
    ensures ps == qs
  {
    assert ps == [ps[0]] + ps[1..] && qs == [qs[0]] + qs[1..];
  }

  lemma TailAscends(ps: seq<Pair>)
    requires Ascending(ps) && CleanKeys(ps) && ps != []
    ensures Ascending(ps[1..]) && CleanKeys(ps[1..])
  {
  }

  lemma NoneMissing(ps: seq<Pair>, qs: seq<Pair>)
    requires forall i :: 0 <= i < |ps| ==> ps[i] in qs
    requires forall i :: 0 <= i < |qs| ==> qs[i] in ps
    ensures ps == [] <==> qs == []
  {
    assert ps != [] ==> ps[0] in qs;
    assert qs != [] ==> qs[0] in ps;
  }

  lemma AscendingHead(ps: seq<Pair>, qs: seq<Pair>)
    requires Ascending(ps) && Ascending(qs) && CleanKeys(ps) && CleanKeys(qs) && ps != [] && qs != []
    requires ps[0] in qs && qs[0] in ps
    ensures ps[0] == qs[0]
  {
    var j :| 0 <= j < |qs| && qs[j] == ps[0];
    var i :| 0 <= i < |ps| && ps[i] == qs[0];
    KeyOrderTotal(ps[0].key, qs[0].key);
  }

  lemma AscendingTail(ps: seq<Pair>, qs: seq<Pair>)
    requires Ascending(ps) && CleanKeys(ps) && ps != [] && qs != [] && ps[0] == qs[0]
    requires forall i :: 0 <= i < |ps| ==> ps[i] in qs
    ensures forall i :: 0 <= i < |ps[1..]| ==> ps[1..][i] in qs[1..]
  {
    forall i | 0 <= i < |ps[1..]| ensures ps[1..][i] in qs[1..] {
      KeyOrderTotal(ps[0].key, ps[i + 1].key);
      assert ps[i + 1] in qs;
      assert qs == [qs[0]] + qs[1..];
    }
  }

  // ---- the order of insertion never shows

  /** Values that agree up to member order have the same text. */
  lemma {:induction false} SameText(v: Json, w: Json)
    requires WellFormed(v) && WellFormed(w) && Serializable(v) && Serializable(w) && Alike(v, w)
    ensures Serialize(v) == Serialize(w)
    decreases v
  {
    match v {
      case Int(_) => NumberTexts(v, w);
      case Float(_) => NumberTexts(v, w);
      case Arr(items) =>
        forall i | 0 <= i < |items| ensures Serialize(items[i]) == Serialize(w.items[i]) {
          SameText(items[i], w.items[i]);
        }
        assert SerializeAll(v, v.items) == SerializeAll(w, w.items);
      case Obj(ms) =>
        forall i | 0 <= i < |ms| ensures MemberIn(v, i, w) {
          assert HasAlike(v, i, w);
          var j :| 0 <= j < |w.members| && ms[i].key == w.members[j].key && Alike(ms[i].value, w.members[j].value);
          SameText(ms[i].value, w.members[j].value);
        }
        SameMembers(v, w);
      case _ =>
    }
  }

  /** Member i of v has its key and its text among the members of w. */
  ghost predicate MemberIn(v: Json, i: nat, w: Json)
    requires v.Obj? && w.Obj? && WellFormed(v) && WellFormed(w) && Serializable(v) && Serializable(w) && i < |v.members|
  {
    exists j :: 0 <= j < |w.members| && v.members[i].key == w.members[j].key
                && Serialize(v.members[i].value) == Serialize(w.members[j].value)
  }

  lemma SameMembers(v: Json, w: Json)
    requires v.Obj? && w.Obj? && WellFormed(v) && WellFormed(w) && Serializable(v) && Serializable(w)
    requires |v.members| == |w.members| && forall i :: 0 <= i < |v.members| ==> MemberIn(v, i, w)
    ensures SortedPairs(v) == SortedPairs(w)
  {
    var ps, qs := SerializeMembers(v, v.members), SerializeMembers(w, w.members);
    forall i | 0 <= i < |ps| ensures ps[i] in qs {
      MemberPair(v, i, w, ps, qs);
    }
    SortedEqual(ps, qs);
  }

  lemma MemberPair(v: Json, i: nat, w: Json, ps: seq<Pair>, qs: seq<Pair>)
    requires v.Obj? && w.Obj? && WellFormed(v) && WellFormed(w) && Serializable(v) && Serializable(w) && i < |v.members|
    requires ps == SerializeMembers(v, v.members) && qs == SerializeMembers(w, w.members) && MemberIn(v, i, w)
    ensures ps[i] in qs
  {
    var j :| 0 <= j < |w.members| && v.members[i].key == w.members[j].key
              && Serialize(v.members[i].value) == Serialize(w.members[j].value);
    assert qs[j] == ps[i];
  }

  lemma SortedEqual(ps: seq<Pair>, qs: seq<Pair>)
    requires CleanKeys(ps) && DistinctKeys(ps) && CleanKeys(qs) && DistinctKeys(qs)
    requires |ps| == |qs| && forall i :: 0 <= i < |ps| ==> ps[i] in qs
    ensures SortPairs(ps) == SortPairs(qs)
  {
    DistinctSubset(ps, qs);
    SortElements(ps, qs);
    SortElements(qs, ps);
    SortAscending(ps);
    SortAscending(qs);
    AscendingUnique(SortPairs(ps), SortPairs(qs));
  }

  lemma SortElements(ps: seq<Pair>, qs: seq<Pair>)
    requires (forall i :: 0 <= i < |ps| ==> ps[i] in qs) && forall i :: 0 <= i < |qs| ==> qs[i] in ps
    ensures forall i :: 0 <= i < |SortPairs(ps)| ==> SortPairs(ps)[i] in SortPairs(qs)
  {
    SortContents(ps);
    SortContents(qs);
    SameElements(SortPairs(ps), ps);
    SameElements(SortPairs(qs), qs);
  }

  /** A list of distinct keys contained in one of the same length exhausts it. */
  lemma {:induction false} DistinctSubset(ps: seq<Pair>, qs: seq<Pair>)
    requires DistinctKeys(ps) && |ps| == |qs| && forall i :: 0 <= i < |ps| ==> ps[i] in qs
    ensures forall i :: 0 <= i < |qs| ==> qs[i] in ps
  {
    if ps != [] {
      var j :| 0 <= j < |qs| && qs[j] == ps[0];
      var rest := qs[..j] + qs[j + 1..];
      forall i | 0 <= i < |ps[1..]| ensures ps[1..][i] in rest {
        var k :| 0 <= k < |qs| && qs[k] == ps[i + 1];
        assert k < j ==> rest[k] == qs[k];
        assert k > j ==> rest[k - 1] == qs[k];
      }
      DistinctSubset(ps[1..], rest);
      forall i | 0 <= i < |qs| ensures qs[i] in ps {
        assert i < j ==> rest[i] == qs[i];
        assert i > j ==> rest[i - 1] == qs[i];
        assert ps == [ps[0]] + ps[1..];
      }
    }
  }

  // ---- the canonical bytes

  /** Equal canonical bytes come only from values that are equal up to member order. */
  lemma CanonicalBytesInjective(v: Json, w: Json)
    requires WellFormed(v) && WellFormed(w)
    requires CanonicalBytes(v).Ok? && CanonicalBytes(v) == CanonicalBytes(w)
    ensures Alike(v, w)
  {
    Utf8Injective(Serialize(v), Serialize(w));
    assert Serialize(v) + [] == Serialize(v) && Serialize(w) + [] == Serialize(w);
    Unique(v, [], w, []);
  }

  /** Member order never changes the bytes. */
  lemma CanonicalBytesIgnoreOrder(v: Json, w: Json)
    requires WellFormed(v) && WellFormed(w) && Serializable(v) && Serializable(w) && Alike(v, w)
    ensures CanonicalBytes(v) == CanonicalBytes(w)
  {
    SameText(v, w);
  }

  /** Equal bytes exactly for values equal up to member order. */
  lemma CanonicalBytesExact(v: Json, w: Json)
    requires WellFormed(v) && WellFormed(w) && Serializable(v) && Serializable(w)
    ensures CanonicalBytes(v) == CanonicalBytes(w) <==> Alike(v, w)
  {
    if CanonicalBytes(v) == CanonicalBytes(w) {
      CanonicalBytesInjective(v, w);
    } else if Alike(v, w) {
      CanonicalBytesIgnoreOrder(v, w);
    }
  }

  lemma SameMember(v: Json, w: Json, i: nat)
    requires WellFormed(v) && WellFormed(w) && Serializable(v) && Serializable(w) && v.Obj? && w.Obj? && Alike(v, w)
    requires i < |v.members| && i < |w.members| && v.members[i].key == w.members[i].key
    ensures Alike(v.members[i].value, w.members[i].value)
  {
    assert HasAlike(v, i, w);
  }

  /** A float whose decimal text is the digit one and an exponent. */
  function PowerOfTen(e: nat): NF.FloatText { NF.Finite(false, [49], [], e) }

  lemma PowerOfTenValue(e: nat)
    ensures PowerOfTen(e).Valid() && NF.Value(PowerOfTen(e)).Real() == Ten(e) as real
  {
    var f := PowerOfTen(e);
    assert f.intPart + f.fracPart == [49] && [49][..0] == [];
    assert Dec([]) == 0 && Dec([49]) == 1;
    TenIsPow10(e);
  }

  lemma TenBelow(e: nat)
    ensures Ten(e) < Ten(21) <==> e < 21
  {
    if e < 21 { TenMonotone(e + 1, 21); } else { TenMonotone(21, e); }
  }

  lemma IntLikeFloat(n: int, f: NF.FloatText)
    requires WellFormed(Float(f)) && Serializable(Float(f))
    ensures CanonicalBytes(Int(n)) == CanonicalBytes(Float(f)) <==> SameNumber(n, f)
  {
    CanonicalBytesExact(Int(n), Float(f));
  }

  /** The integer and the float 10^e have the same bytes exactly below e = 21. */
  lemma IntAndFloatCollide(e: nat)
    ensures var i, f := Int(Ten(e)), Float(PowerOfTen(e));
            WellFormed(f) && (CanonicalBytes(i) == CanonicalBytes(f) <==> e < 21)
  {
    PowerOfTenValue(e);
    TenBelow(e);
    IntLikeFloat(Ten(e), PowerOfTen(e));
  }
}
