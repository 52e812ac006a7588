/** A reader of JSON texts that knows nothing of the serializer (RFC 8259), and what it makes of canonical texts. */
module JsonReader {
  import opened Wrappers
  import opened Sequences
  import opened Decimal
  import opened Unicode
  import NF = NumberFormat
  import opened CanonicalJson

  // ---- strings (section 7 of RFC 8259)

  function HexValue(c: Code): int {
    if '0' as int <= c <= '9' as int then c - '0' as int
    else if 'A' as int <= c <= 'F' as int then c - 'A' as int + 10
    else if 'a' as int <= c <= 'f' as int then c - 'a' as int + 10
    else -1
  }

  /** Four hexadecimal digits, upper or lower case. */
  function HexFour(t: Text): Option<Code>
    requires |t| == 4
  {
    var a, b, c, d := HexValue(t[0]), HexValue(t[1]), HexValue(t[2]), HexValue(t[3]);
    if a < 0 || b < 0 || c < 0 || d < 0 then None else Some(4096 * a + 256 * b + 16 * c + d)
  }

  /** What a letter after a backslash stands for. */
  function Escaped(c: Code): Option<Code> {
    if c == '"' as int then Some(0x22)
    else if c == '\\' as int then Some(0x5C)
    else if c == '/' as int then Some(0x2F)
    else if c == 'b' as int then Some(0x08)
    else if c == 'f' as int then Some(0x0C)
    else if c == 'n' as int then Some(0x0A)
    else if c == 'r' as int then Some(0x0D)
    else if c == 't' as int then Some(0x09)
    else None
  }

  function Prepend(c: Code, r: Option<(Text, Text)>): Option<(Text, Text)> {
    match r case None => None case Some((s, rest)) => Some(([c] + s, rest))
  }

  /** The characters up to the closing quote, and what follows it. */
  function ReadChars(t: Text): (r: Option<(Text, Text)>)
    ensures r.Some? ==> |r.value.1| < |t|
    decreases |t|
  {
    if t == [] || t[0] < 0x20 then None
    else if t[0] == '"' as int then Some(([], t[1..]))
    else if t[0] != '\\' as int then Prepend(t[0], ReadChars(t[1..]))
    else if |t| >= 6 && t[1] == 'u' as int then
      match HexFour(t[2..6]) case None => None case Some(c) => Prepend(c, ReadChars(t[6..]))
    else if |t| >= 2 then
      match Escaped(t[1]) case None => None case Some(c) => Prepend(c, ReadChars(t[2..]))
    else None
  }

  lemma ReadEscape(c: Code, rest: Text)
    ensures ReadChars(EscapeCode(c) + rest) == Prepend(c, ReadChars(rest))
  {
    var e := EscapeCode(c);
    var t := e + rest;
    assert t[0] == e[0] && t[|e|..] == rest;
    if |e| == 2 { assert t[1] == e[1]; }
    if |e| == 6 {
      assert t[1] == e[1] && t[2..6] == e[2..6];
      assert HexValue(e[4]) == c / 16 && HexValue(e[5]) == c % 16;
    }
  }

  /** What the serializer quotes reads back as it was. */
  lemma {:induction false} QuoteReadsBack(s: Text, x: Text)
    ensures ReadChars(Escape(s) + [QUOTE] + x) == Some((s, x))
  {
    if s == [] {
      assert Escape(s) + [QUOTE] + x == [QUOTE] + x;
    } else {
      EscapeStep(s, x);
      ReadEscape(s[0], Escape(s[1..]) + [QUOTE] + x);
      QuoteReadsBack(s[1..], x);
      assert s == [s[0]] + s[1..];
    }
  }

  predicate IsLowerHex(c: Code) { '0' as int <= c <= '9' as int || 'a' as int <= c <= 'f' as int }

  /** Which of its spellings a character gets (section 3.2.2.2 of RFC 8785): the two-character escape where there is one,
      four lower-case digits for the other control characters, and else itself. The solidus is not escaped. */
  lemma EscapeChoice(c: Code)
    ensures var e := EscapeCode(c);
            if c in {0x08, 0x09, 0x0A, 0x0C, 0x0D, 0x22, 0x5C} then |e| == 2 && e[0] == '\\' as int && Escaped(e[1]) == Some(c)
            else if c < 0x20 then
              |e| == 6 && e[0] == '\\' as int && e[1] == 'u' as int && HexFour(e[2..]) == Some(c)
              && forall i :: 2 <= i < 6 ==> IsLowerHex(e[i])
            else e == [c]
  {
    if c < 0x20 && c !in {0x08, 0x09, 0x0A, 0x0C, 0x0D} {
      assert EscapeCode(c) == ['\\' as int, 'u' as int, '0' as int, '0' as int, Hex(c / 16), Hex(c % 16)];
      assert HexValue(Hex(c / 16)) == c / 16 && HexValue(Hex(c % 16)) == c % 16;
    }
  }

  // ---- values

  /** What a text says: numbers as reals, the members of an object in the order of the text. */
  datatype Reading =
    | Nothing
    | Truth(b: bool)
    | Number(r: real)
    | Characters(s: Text)
    | List(items: seq<Reading>)
    | Record(fields: seq<Field>)

  datatype Field = Field(key: Text, value: Reading)

  /** How many characters at the front can belong to a number. */
  function NumberLength(t: Text): (n: nat)
    ensures n <= |t| && (forall i :: 0 <= i < n ==> IsNumberCode(t[i])) && (n < |t| ==> !IsNumberCode(t[n]))
  {
    if t == [] || !IsNumberCode(t[0]) then 0 else 1 + NumberLength(t[1..])
  }

  function Starts(t: Text, c: char): bool { t != [] && t[0] == c as int }

  function ReadNumber(t: Text): (r: Option<(Reading, Text)>)
    ensures r.Some? ==> |r.value.1| < |t|
  {
    var n := NumberLength(t);
    if n == 0 then None else Some((Number(NF.Read(t[..n]).Real()), t[n..]))
  }

  function ReadValue(t: Text): (r: Option<(Reading, Text)>)
    ensures r.Some? ==> |r.value.1| < |t|
    decreases |t|, 0
  {
    if T("null") <= t then Some((Nothing, t[4..]))
    else if T("true") <= t then Some((Truth(true), t[4..]))
    else if T("false") <= t then Some((Truth(false), t[5..]))
    else if Starts(t, '"') then
      match ReadChars(t[1..]) case None => None case Some((s, rest)) => Some((Characters(s), rest))
    else if Starts(t, '[') then
      if Starts(t[1..], ']') then Some((List([]), t[2..]))
      else match ReadItems(t[1..]) case None => None case Some((items, rest)) => Some((List(items), rest))
    else if Starts(t, '{') then
      if Starts(t[1..], '}') then Some((Record([]), t[2..]))
      else match ReadFields(t[1..]) case None => None case Some((fields, rest)) => Some((Record(fields), rest))
    else ReadNumber(t)
  }

  function ReadItems(t: Text): (r: Option<(seq<Reading>, Text)>)
    ensures r.Some? ==> |r.value.1| < |t|
    decreases |t|, 1
  {
    match ReadValue(t)
    case None => None
    case Some((v, rest)) =>
      if Starts(rest, ']') then Some(([v], rest[1..]))
      else if Starts(rest, ',') then
        match ReadItems(rest[1..]) case None => None case Some((items, more)) => Some(([v] + items, more))
      else None
  }

  function ReadField(t: Text): (r: Option<(Field, Text)>)
    ensures r.Some? ==> |r.value.1| < |t|
    decreases |t|, 1
  {
    if !Starts(t, '"') then None
    else
      match ReadChars(t[1..])
      case None => None
      case Some((key, rest)) =>
        if !Starts(rest, ':') then None
        else match ReadValue(rest[1..]) case None => None case Some((v, more)) => Some((Field(key, v), more))
  }

  function ReadFields(t: Text): (r: Option<(seq<Field>, Text)>)
    ensures r.Some? ==> |r.value.1| < |t|
    decreases |t|, 2
  {
    match ReadField(t)
    case None => None
    case Some((f, rest)) =>
      if Starts(rest, '}') then Some(([f], rest[1..]))
      else if Starts(rest, ',') then
        match ReadFields(rest[1..]) case None => None case Some((fields, more)) => Some(([f] + fields, more))
      else None
  }

  // ---- canonical texts read back

  /** Keys in the order of their UTF-16 code units. */
  ghost predicate InKeyOrder(fields: seq<Field>) {
    forall i, j :: 0 <= i < j < |fields| ==> LexLess(Utf16(fields[i].key), Utf16(fields[j].key))
  }

  /** The reading is of this value, every member of an object found once. */
  ghost predicate Says(r: Reading, v: Json)
    requires WellFormed(v) && Serializable(v)
    decreases v
  {
    match v
    case Null => r == Nothing
    case Bool(b) => r == Truth(b)
    case Int(n) => r == Number(n as real)
    case Float(f) => r == Number(NF.Value(f).Real())
    case Str(s) => r == Characters(s)
    case Arr(items) => r.List? && |r.items| == |items| && forall i :: 0 <= i < |items| ==> Says(r.items[i], items[i])
    case Obj(ms) =>
      r.Record? && |r.fields| == |ms| && InKeyOrder(r.fields) && forall i :: 0 <= i < |ms| ==> SaysMember(r.fields, v, i)
  }

  ghost predicate SaysMember(fields: seq<Field>, v: Json, i: nat)
    requires v.Obj? && WellFormed(v) && Serializable(v) && i < |v.members|
    decreases v, 0
  {
    exists k :: 0 <= k < |fields| && fields[k].key == v.members[i].key && Says(fields[k].value, v.members[i].value)
  }

  lemma NumberFront(s: Text, x: Text)
    requires NumberShaped(s) && Delimited(x)
    ensures ReadNumber(s + x) == Some((Number(NF.Read(s).Real()), x))
  {
    NumberEnd(s, x);
    var t := s + x;
    assert t[0] == s[0] && NumberLength(t) == |s| && t[..|s|] == s && t[|s|..] == x;
  }

  /** No word, quote or bracket starts with a digit or a minus sign. */
  lemma NumberDispatch(t: Text)
    requires t != [] && (IsDigit(t[0]) || t[0] == MINUS)
    ensures ReadValue(t) == ReadNumber(t)
  {
    assert T("null")[0] == 'n' as int && T("true")[0] == 't' as int && T("false")[0] == 'f' as int;
  }

  lemma NumberReadsBack(v: Json, x: Text)
    requires (v.Int? || v.Float?) && WellFormed(v) && Serializable(v) && Delimited(x)
    ensures ReadValue(Serialize(v) + x).Some? && ReadValue(Serialize(v) + x).value.1 == x
    ensures Says(ReadValue(Serialize(v) + x).value.0, v)
  {
    var s := NumberText(v);
    NumberTextShape(v);
    NumberFront(s, x);
    assert (s + x)[0] == s[0];
    NumberDispatch(s + x);
    if v.Int? { NF.IntTextValue(v.n); } else { NF.FormatKeepsValue(v.f); }
  }

  lemma StringReadsBack(s: Text, x: Text)
    ensures ReadValue(Quote(s) + x) == Some((Characters(s), x))
  {
    QuoteParts(s, x);
    QuoteReadsBack(s, x);
    assert (Quote(s) + x)[0] == QUOTE && (Quote(s) + x)[1..] == Escape(s) + [QUOTE] + x;
  }

  lemma WordReadsBack(v: Json, x: Text)
    requires v.Null? || v.Bool?
    ensures ReadValue(Serialize(v) + x).Some? && ReadValue(Serialize(v) + x).value.1 == x
    ensures Says(ReadValue(Serialize(v) + x).value.0, v)
  {
    var s := Serialize(v);
    var t := s + x;
    assert t[0] == s[0] && t[|s|..] == x && s <= t;
    assert s == if v.Null? then T("null") else if v.b then T("true") else T("false");
  }

  /** The reader is a left inverse of the serializer: before a delimiter, the text of a value reads as that value, with
      object keys in the order RFC 8785 asks for, and leaves the rest. */
  lemma {:induction false} ReadsBack(v: Json, x: Text) returns (r: Reading)
    requires WellFormed(v) && Serializable(v) && Delimited(x)
    ensures ReadValue(Serialize(v) + x) == Some((r, x)) && Says(r, v)
    decreases v, 1, 0
  {
    match v {
      case Str(s) =>
        StringReadsBack(s, x);
        r := Characters(s);
      case Arr(items) => r := ListReadsBack(v, x);
      case Obj(ms) => r := RecordReadsBack(v, x);
      case Int(_) =>
        NumberReadsBack(v, x);
        r := ReadValue(Serialize(v) + x).value.0;
      case Float(_) =>
        NumberReadsBack(v, x);
        r := ReadValue(Serialize(v) + x).value.0;
      case _ =>
        WordReadsBack(v, x);
        r := ReadValue(Serialize(v) + x).value.0;
    }
  }

  lemma ListReadsBack(v: Json, x: Text) returns (r: Reading)
    requires v.Arr? && WellFormed(v) && Serializable(v)
    ensures ReadValue(Serialize(v) + x) == Some((r, x)) && Says(r, v)
    decreases v, 0, |v.items| + 1
  {
    var ts := SerializeAll(v, v.items);
    var t := Join(ts) + [CLOSE_BRACKET] + x;
    ArrText(v, x);
    assert (Serialize(v) + x)[0] == OPEN_BRACKET && (Serialize(v) + x)[1..] == t;
    ListHead(ts, v.items, x);
    if v.items == [] {
      JoinEmpty(CLOSE_BRACKET, x);
      assert t[1..] == x && (Serialize(v) + x)[2..] == t[1..];
      r := List([]);
    } else {
      var items := ItemsReadBack(v, ts, v.items, x);
      r := List(items);
    }
  }

  /** The items of a list, the last one and any other. */
  lemma OneItem(t: Text, first: Reading, rest: Text, x: Text)
    requires ReadValue(t) == Some((first, rest)) && rest == [CLOSE_BRACKET] + x
    ensures ReadItems(t) == Some(([first], x))
  {
    assert rest[1..] == x;
  }

  lemma MoreItems(t: Text, first: Reading, rest: Text, tail: Text, more: seq<Reading>, x: Text)
    requires ReadValue(t) == Some((first, rest)) && rest == [COMMA] + tail && ReadItems(tail) == Some((more, x))
    ensures ReadItems(t) == Some(([first] + more, x))
  {
    assert rest[1..] == tail;
  }

  ghost predicate SayAll(rs: seq<Reading>, a: seq<Json>) {
    |rs| == |a| && forall i :: 0 <= i < |a| ==> WellFormed(a[i]) && Serializable(a[i]) && Says(rs[i], a[i])
  }

  lemma FirstAndMoreItems(first: Reading, more: seq<Reading>, a: seq<Json>)
    requires a != [] && WellFormed(a[0]) && Serializable(a[0]) && Says(first, a[0]) && SayAll(more, a[1..])
    ensures SayAll([first] + more, a)
  {
    forall i | 0 <= i < |a| ensures WellFormed(a[i]) && Serializable(a[i]) && Says(([first] + more)[i], a[i]) {
      if i > 0 { assert ([first] + more)[i] == more[i - 1] && a[i] == a[1..][i - 1]; }
    }
  }

  lemma {:induction false} ItemsReadBack(v: Json, ts: seq<Text>, a: seq<Json>, x: Text) returns (rs: seq<Reading>)
    requires a != [] && TextsOf(ts, a) && forall i :: 0 <= i < |a| ==> a[i] < v
    ensures ReadItems(Join(ts) + [CLOSE_BRACKET] + x) == Some((rs, x))
    ensures SayAll(rs, a)
    decreases v, 0, |a|
  {
    var rest := Rest(ts, CLOSE_BRACKET, x);
    JoinStep(ts, CLOSE_BRACKET, x);
    RestHead(ts, CLOSE_BRACKET, x);
    var first := ReadsBack(a[0], rest);
    if |a| == 1 {
      OneItem(ts[0] + rest, first, rest, x);
      rs := [first];
    } else {
      TextsOfTail(ts, a);
      var more := ItemsReadBack(v, ts[1..], a[1..], x);
      MoreItems(ts[0] + rest, first, rest, Join(ts[1..]) + [CLOSE_BRACKET] + x, more, x);
      rs := [first] + more;
      FirstAndMoreItems(first, more, a);
    }
  }

  /** The field of a pair that stands for a member. */
  ghost predicate FieldOf(f: Field, p: Pair, v: Json)
    requires v.Obj? && WellFormed(v) && Serializable(v)
  {
    f.key == p.key && exists i :: 0 <= i < |v.members| && IsPairOf(p, v.members[i]) && Says(f.value, v.members[i].value)
  }

  lemma FieldReadsBack(v: Json, p: Pair, x: Text) returns (f: Field)
    requires v.Obj? && WellFormed(v) && Serializable(v) && PairIn(p, v) && Delimited(x)
    ensures ReadField(PairText(p) + x) == Some((f, x)) && FieldOf(f, p, v)
    decreases v, 0, 0
  {
    var i :| 0 <= i < |v.members| && IsPairOf(p, v.members[i]);
    var r := ReadsBack(v.members[i].value, x);
    f := Field(p.key, r);
    PairTextParts(p, x);
    var t := [COLON] + (p.text + x);
    QuoteParts(p.key, t);
    QuoteReadsBack(p.key, t);
    assert (Quote(p.key) + t)[0] == QUOTE && (Quote(p.key) + t)[1..] == Escape(p.key) + [QUOTE] + t;
    assert t[1..] == p.text + x;
  }

  lemma OneField(t: Text, f: Field, rest: Text, x: Text)
    requires ReadField(t) == Some((f, rest)) && rest == [CLOSE_BRACE] + x
    ensures ReadFields(t) == Some(([f], x))
  {
    assert rest[1..] == x;
  }

  lemma MoreFields(t: Text, f: Field, rest: Text, tail: Text, more: seq<Field>, x: Text)
    requires ReadField(t) == Some((f, rest)) && rest == [COMMA] + tail && ReadFields(tail) == Some((more, x))
    ensures ReadFields(t) == Some(([f] + more, x))
  {
    assert rest[1..] == tail;
  }

  lemma FirstAndMore(first: Field, more: seq<Field>, ps: seq<Pair>, v: Json)
    requires v.Obj? && WellFormed(v) && Serializable(v) && ps != [] && |more| == |ps[1..]|
    requires FieldOf(first, ps[0], v) && forall k :: 0 <= k < |more| ==> FieldOf(more[k], ps[1..][k], v)
    ensures forall k :: 0 <= k < |ps| ==> FieldOf(([first] + more)[k], ps[k], v)
  {
    forall k | 0 <= k < |ps| ensures FieldOf(([first] + more)[k], ps[k], v) {
      if k > 0 { assert ([first] + more)[k] == more[k - 1] && ps[k] == ps[1..][k - 1]; }
    }
  }

  lemma {:induction false} FieldsReadBack(v: Json, ps: seq<Pair>, x: Text) returns (fs: seq<Field>)
    requires PairsOf(ps, v) && ps != []
    ensures ReadFields(Join(PairTexts(ps)) + [CLOSE_BRACE] + x) == Some((fs, x))
    ensures |fs| == |ps| && forall k :: 0 <= k < |ps| ==> FieldOf(fs[k], ps[k], v)
    decreases v, 0, |ps|
  {
    var ts := PairTexts(ps);
    var rest := Rest(ts, CLOSE_BRACE, x);
    JoinStep(ts, CLOSE_BRACE, x);
    RestHead(ts, CLOSE_BRACE, x);
    assert PairIn(ps[0], v);
    var first := FieldReadsBack(v, ps[0], rest);
    if |ps| == 1 {
      OneField(ts[0] + rest, first, rest, x);
      fs := [first];
    } else {
      PairsTail(ps, v);
      var more := FieldsReadBack(v, ps[1..], x);
      MoreFields(ts[0] + rest, first, rest, Join(ts[1..]) + [CLOSE_BRACE] + x, more, x);
      fs := [first] + more;
      FirstAndMore(first, more, ps, v);
    }
  }

  /** How a brace goes on. */
  lemma BraceDispatch(t: Text, u: Text, x: Text)
    requires t == [OPEN_BRACE] + u && u != []
    ensures u == [CLOSE_BRACE] + x ==> ReadValue(t) == Some((Record([]), x))
    ensures u[0] != CLOSE_BRACE && ReadFields(u).Some? ==> ReadValue(t) == Some((Record(ReadFields(u).value.0), ReadFields(u).value.1))
  {
    assert T("null")[0] == 'n' as int && T("true")[0] == 't' as int && T("false")[0] == 'f' as int;
    assert t[0] == OPEN_BRACE && t[1..] == u && t[2..] == u[1..];
  }

  lemma RecordReadsBack(v: Json, x: Text) returns (r: Reading)
    requires v.Obj? && WellFormed(v) && Serializable(v)
    ensures ReadValue(Serialize(v) + x) == Some((r, x)) && Says(r, v)
    decreases v, 0, |v.members| + 1
  {
    var ps := SortedPairs(v);
    var t := Join(PairTexts(ps)) + [CLOSE_BRACE] + x;
    SortedPairsOf(v);
    ObjText(v, x);
    BraceDispatch(Serialize(v) + x, t, x);
    PairsHead(ps, x);
    if ps == [] {
      JoinEmpty(CLOSE_BRACE, x);
      r := Record([]);
    } else {
      var fields := FieldsReadBack(v, ps, x);
      r := Record(fields);
      FieldsSay(v, ps, fields);
    }
  }

  lemma FieldsSay(v: Json, ps: seq<Pair>, fields: seq<Field>)
    requires v.Obj? && WellFormed(v) && Serializable(v) && ps == SortedPairs(v) && |fields| == |ps| == |v.members|
    requires forall i :: 0 <= i < |v.members| ==> exists k :: 0 <= k < |ps| && IsPairOf(ps[k], v.members[i])
    requires forall k :: 0 <= k < |ps| ==> FieldOf(fields[k], ps[k], v)
    ensures Says(Record(fields), v)
  {
    forall i | 0 <= i < |v.members| ensures SaysMember(fields, v, i) {
      var k :| 0 <= k < |ps| && IsPairOf(ps[k], v.members[i]);
      assert FieldOf(fields[k], ps[k], v);
      var j :| 0 <= j < |v.members| && IsPairOf(ps[k], v.members[j]) && Says(fields[k].value, v.members[j].value);
      assert v.members[i].key == v.members[j].key;
      assert i == j;
    }
    KeysAscend(v);
    forall i, j | 0 <= i < j < |fields| ensures LexLess(Utf16(fields[i].key), Utf16(fields[j].key)) {
      assert FieldOf(fields[i], ps[i], v) && FieldOf(fields[j], ps[j], v);
      assert KeyLess(ps[i].key, ps[j].key);
      ByteOrderIsUnitOrder(Utf16(ps[i].key), Utf16(ps[j].key));
    }
  }

  lemma KeysAscend(v: Json)
    requires v.Obj? && WellFormed(v) && Serializable(v)
    ensures Ascending(SortedPairs(v))
  {
    var ps := SerializeMembers(v, v.members);
    assert CleanKeys(ps) && DistinctKeys(ps);
    SortAscending(ps);
  }
}
