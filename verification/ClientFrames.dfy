/** The client's frames read by a reader of JSON. */
module ClientFrames {
  import opened Wrappers
  import opened Sequences
  import opened Numbers
  import opened Decimal
  import opened Unicode
  import NF = NumberFormat
  import J = CanonicalJson
  import opened JsonReader
  import R = RpcClient

  function Codes(s: string): (t: Text)
    ensures |t| == |s| && forall i :: 0 <= i < |s| ==> t[i] == s[i] as int
  {
    seq(|s|, i requires 0 <= i < |s| => s[i] as int)
  }

  lemma CodesConcat(a: string, b: string)
    ensures Codes(a + b) == Codes(a) + Codes(b)
  {
  }

  // ---- escapes

  lemma EscapeCharsAgree(c: char)
    ensures Codes(R.EscapeChar(c)) == J.EscapeCode(c as int)
  {
    if R.IsControl(c) { HexAgrees(c as int / 16); HexAgrees(c as int % 16); }
  }

  lemma HexAgrees(d: nat)
    requires d < 16
    ensures HexDigit(d) as int == J.Hex(d)
  {
  }

  /** Client and serializer escape alike. */
  lemma {:induction false} EscapesAgree(s: string)
    ensures Codes(R.Escape(s)) == J.Escape(Codes(s))
    decreases |s|
  {
    if s != [] {
      EscapeCharsAgree(s[0]);
      EscapesAgree(s[1..]);
      CodesConcat(R.EscapeChar(s[0]), R.Escape(s[1..]));
      assert Codes(s)[0] == s[0] as int && Codes(s)[1..] == Codes(s[1..]);
    }
  }

  /** So what the client escapes, up to the closing quote, reads back as it was. */
  lemma ClientStringReadsBack(s: string, x: Text)
    ensures ReadChars(Codes(R.Escape(s)) + [J.QUOTE] + x) == Some((Codes(s), x))
  {
    EscapesAgree(s);
    QuoteReadsBack(Codes(s), x);
  }

  // ---- fields

  predicate PlainText(s: Text) { forall i :: 0 <= i < |s| ==> s[i] >= 0x20 && s[i] != J.QUOTE && s[i] != J.BACKSLASH }

  lemma {:induction false} PlainEscape(s: Text)
    requires PlainText(s)
    ensures J.Escape(s) == s
  {
    if s != [] {
      PlainEscape(s[1..]);
      assert s == [s[0]] + s[1..];
    }
  }

  /** A key in quotes, a colon and the text of a value. */
  function FieldText(key: Text, value: Text): Text { [J.QUOTE] + (key + ([J.QUOTE, J.COLON] + value)) }

  lemma FieldTextTail(key: Text, value: Text, rest: Text)
    ensures (FieldText(key, value) + rest)[0] == J.QUOTE
    ensures (FieldText(key, value) + rest)[1..] == key + [J.QUOTE] + ([J.COLON] + (value + rest))
  {
  }

  lemma FieldParsed(t: Text, key: Text, u: Text, r: Reading, rest: Text)
    requires t != [] && t[0] == J.QUOTE && ReadChars(t[1..]) == Some((key, [J.COLON] + u)) && ReadValue(u) == Some((r, rest))
    ensures ReadField(t) == Some((Field(key, r), rest))
  {
    assert ([J.COLON] + u)[1..] == u;
  }

  lemma FieldReads(key: Text, value: Text, r: Reading, rest: Text)
    requires PlainText(key) && ReadValue(value + rest) == Some((r, rest))
    ensures ReadField(FieldText(key, value) + rest) == Some((Field(key, r), rest))
  {
    PlainEscape(key);
    QuoteReadsBack(key, [J.COLON] + (value + rest));
    FieldTextTail(key, value, rest);
    FieldParsed(FieldText(key, value) + rest, key, value + rest, r, rest);
  }

  lemma QuotedReads(s: string, rest: Text)
    ensures ReadValue([J.QUOTE] + (Codes(R.Escape(s)) + [J.QUOTE]) + rest) == Some((Characters(Codes(s)), rest))
  {
    EscapesAgree(s);
    StringReadsBack(Codes(s), rest);
    assert J.Quote(Codes(s)) == [J.QUOTE] + (Codes(R.Escape(s)) + [J.QUOTE]);
  }

  lemma {:induction false} NumeralAgrees(n: nat)
    ensures Codes(DecimalText(n)) == NatText(n)
  {
    if n >= 10 {
      NumeralAgrees(n / 10);
      CodesConcat(DecimalText(n / 10), ['0' + (n % 10) as char]);
    }
  }

  lemma NumeralReadsBack(n: nat, rest: Text)
    requires J.Delimited(rest)
    ensures ReadValue(Codes(DecimalText(n)) + rest) == Some((Number(n as real), rest))
  {
    NumeralAgrees(n);
    NumberReadsBack(J.Int(n), rest);
    assert J.Serialize(J.Int(n)) == NatText(n);
  }

  // ---- the frame

  lemma TailCodes(r: R.Request)
    ensures Codes(R.Tail(r)) == [J.QUOTE] + ([J.COMMA] + (FieldText(Codes("params"), Codes(r.params)) + [J.CLOSE_BRACE]))
  {
    CodesConcat("\",\"params\":", r.params + "}");
    CodesConcat(r.params, "}");
    assert Codes("\",\"params\":") == [J.QUOTE, J.COMMA, J.QUOTE] + Codes("params") + [J.QUOTE, J.COLON];
    assert Codes("}") == [J.CLOSE_BRACE];
  }

  lemma MethodCodes(r: R.Request)
    ensures Codes(R.MethodPart(r))
            == FieldText(Codes("method"), [J.QUOTE] + (Codes(R.Escape(r.name)) + [J.QUOTE]))
               + ([J.COMMA] + (FieldText(Codes("params"), Codes(r.params)) + [J.CLOSE_BRACE]))
  {
    var rest := R.Escape(r.name) + R.Tail(r);
    KeyCodes("method", ['"'] + rest);
    CodesConcat(['"'], rest);
    CodesConcat(R.Escape(r.name), R.Tail(r));
    TailCodes(r);
    assert Codes(['"']) == [J.QUOTE];
    Quoted(Codes("method"), Codes(R.Escape(r.name)), [J.COMMA] + (FieldText(Codes("params"), Codes(r.params)) + [J.CLOSE_BRACE]));
  }

  lemma KeyCodes(key: string, rest: string)
    ensures Codes(R.Key(key) + ([':'] + rest)) == [J.QUOTE] + (Codes(key) + ([J.QUOTE, J.COLON] + Codes(rest)))
  {
    var s := R.Key(key) + ([':'] + rest);
    var t := [J.QUOTE] + (Codes(key) + ([J.QUOTE, J.COLON] + Codes(rest)));
    assert s == ['"'] + key + ['"', ':'] + rest;
  }

  lemma Quoted(key: Text, value: Text, more: Text)
    ensures [J.QUOTE] + (key + ([J.QUOTE, J.COLON] + ([J.QUOTE] + (value + ([J.QUOTE] + more)))))
         == FieldText(key, [J.QUOTE] + (value + [J.QUOTE])) + more
  {
  }

  lemma Unquoted(key: Text, value: Text, more: Text)
    ensures [J.QUOTE] + (key + ([J.QUOTE, J.COLON] + (value + more))) == FieldText(key, value) + more
  {
  }

  lemma IdCodes(r: R.Request)
    ensures Codes(R.IdPart(r)) == FieldText(Codes("id"), Codes(DecimalText(r.id))) + ([J.COMMA] + Codes(R.MethodPart(r)))
  {
    var rest := DecimalText(r.id) + ([','] + R.MethodPart(r));
    KeyCodes("id", rest);
    CodesConcat(DecimalText(r.id), [','] + R.MethodPart(r));
    CodesConcat([','], R.MethodPart(r));
    assert Codes([',']) == [J.COMMA];
    Unquoted(Codes("id"), Codes(DecimalText(r.id)), [J.COMMA] + Codes(R.MethodPart(r)));
  }

  lemma HeadLiteral()
    ensures Codes("{\"jsonrpc\":\"") == [J.OPEN_BRACE] + ([J.QUOTE] + (Codes("jsonrpc") + [J.QUOTE, J.COLON, J.QUOTE]))
  {
  }

  lemma HeadRegroup(key: Text, value: Text, more: Text)
    ensures ([J.OPEN_BRACE] + ([J.QUOTE] + (key + [J.QUOTE, J.COLON, J.QUOTE]))) + (value + ([J.QUOTE, J.COMMA] + more))
         == [J.OPEN_BRACE] + (FieldText(key, [J.QUOTE] + (value + [J.QUOTE])) + ([J.COMMA] + more))
  {
  }

  lemma HeadCodes(rest: string)
    ensures Codes("{\"jsonrpc\":\"" + (R.Escape("2.0") + ("\"," + rest)))
         == [J.OPEN_BRACE] + (FieldText(Codes("jsonrpc"), [J.QUOTE] + (Codes(R.Escape("2.0")) + [J.QUOTE])) + ([J.COMMA] + Codes(rest)))
  {
    var value := R.Escape("2.0");
    ThreeCodes("{\"jsonrpc\":\"", value, "\",", rest);
    HeadLiteral();
    assert Codes("\",") == [J.QUOTE, J.COMMA];
    HeadRegroup(Codes("jsonrpc"), Codes(value), Codes(rest));
  }

  lemma ThreeCodes(a: string, b: string, c: string, d: string)
    ensures Codes(a + (b + (c + d))) == Codes(a) + (Codes(b) + (Codes(c) + Codes(d)))
  {
    CodesConcat(a, b + (c + d));
    CodesConcat(b, c + d);
    CodesConcat(c, d);
  }

  // ---- reading the fields, the last one first

  function VersionText(): Text { FieldText(Codes("jsonrpc"), [J.QUOTE] + (Codes(R.Escape("2.0")) + [J.QUOTE])) }

  function IdText(id: nat): Text { FieldText(Codes("id"), Codes(DecimalText(id))) }

  function NameText(name: string): Text { FieldText(Codes("method"), [J.QUOTE] + (Codes(R.Escape(name)) + [J.QUOTE])) }

  function ParamsText(params: string): Text { FieldText(Codes("params"), Codes(params)) + [J.CLOSE_BRACE] }

  lemma ParamsRead(params: string, r: Reading)
    requires ReadValue(Codes(params) + [J.CLOSE_BRACE]) == Some((r, [J.CLOSE_BRACE]))
    ensures ReadFields(ParamsText(params)) == Some(([Field(Codes("params"), r)], []))
  {
    FieldReads(Codes("params"), Codes(params), r, [J.CLOSE_BRACE]);
    OneField(ParamsText(params), Field(Codes("params"), r), [J.CLOSE_BRACE], []);
  }

  lemma NameRead(name: string, t: Text, more: seq<Field>)
    requires ReadFields(t) == Some((more, []))
    ensures ReadFields(NameText(name) + ([J.COMMA] + t)) == Some(([Field(Codes("method"), Characters(Codes(name)))] + more, []))
  {
    QuotedReads(name, [J.COMMA] + t);
    FieldReads(Codes("method"), [J.QUOTE] + (Codes(R.Escape(name)) + [J.QUOTE]), Characters(Codes(name)), [J.COMMA] + t);
    MoreFields(NameText(name) + ([J.COMMA] + t), Field(Codes("method"), Characters(Codes(name))), [J.COMMA] + t, t, more, []);
  }

  lemma IdRead(id: nat, t: Text, more: seq<Field>)
    requires ReadFields(t) == Some((more, []))
    ensures ReadFields(IdText(id) + ([J.COMMA] + t)) == Some(([Field(Codes("id"), Number(id as real))] + more, []))
  {
    NumeralReadsBack(id, [J.COMMA] + t);
    FieldReads(Codes("id"), Codes(DecimalText(id)), Number(id as real), [J.COMMA] + t);
    MoreFields(IdText(id) + ([J.COMMA] + t), Field(Codes("id"), Number(id as real)), [J.COMMA] + t, t, more, []);
  }

  lemma VersionRead(t: Text, more: seq<Field>)
    requires ReadFields(t) == Some((more, []))
    ensures ReadFields(VersionText() + ([J.COMMA] + t)) == Some(([Field(Codes("jsonrpc"), Characters(Codes("2.0")))] + more, []))
  {
    QuotedReads("2.0", [J.COMMA] + t);
    FieldReads(Codes("jsonrpc"), [J.QUOTE] + (Codes(R.Escape("2.0")) + [J.QUOTE]), Characters(Codes("2.0")), [J.COMMA] + t);
    MoreFields(VersionText() + ([J.COMMA] + t), Field(Codes("jsonrpc"), Characters(Codes("2.0"))), [J.COMMA] + t, t, more, []);
  }

  function FromName(name: string, params: string): Text { NameText(name) + ([J.COMMA] + ParamsText(params)) }

  function FromId(id: nat, name: string, params: string): Text { IdText(id) + ([J.COMMA] + FromName(name, params)) }

  /** The members of a frame: the version, the id, the method as it was given, and the parameters. */
  function Members(id: nat, name: string, r: Reading): seq<Field> {
    [Field(Codes("jsonrpc"), Characters(Codes("2.0")))]
    + ([Field(Codes("id"), Number(id as real))]
       + ([Field(Codes("method"), Characters(Codes(name)))] + [Field(Codes("params"), r)]))
  }

  lemma MembersRead(id: nat, name: string, params: string, r: Reading)
    requires ReadValue(Codes(params) + [J.CLOSE_BRACE]) == Some((r, [J.CLOSE_BRACE]))
    ensures ReadFields(VersionText() + ([J.COMMA] + FromId(id, name, params))) == Some((Members(id, name, r), []))
  {
    ParamsRead(params, r);
    NameRead(name, ParamsText(params), [Field(Codes("params"), r)]);
    IdRead(id, FromName(name, params), [Field(Codes("method"), Characters(Codes(name)))] + [Field(Codes("params"), r)]);
    VersionRead(FromId(id, name, params),
                [Field(Codes("id"), Number(id as real))]
                + ([Field(Codes("method"), Characters(Codes(name)))] + [Field(Codes("params"), r)]));
  }

  lemma BodyText(id: nat, name: string, params: string)
    ensures Codes(R.Body(R.New(id, name, params))) == [J.OPEN_BRACE] + (VersionText() + ([J.COMMA] + FromId(id, name, params)))
  {
    var r := R.New(id, name, params);
    MethodCodes(r);
    IdCodes(r);
    HeadCodes(R.IdPart(r));
  }

  /** A frame whose parameters are a canonical text is a JSON object of those four members. */
  lemma FrameIsJson(id: nat, name: string, params: string, v: J.Value) returns (r: Reading)
    requires J.Serializable(v) && Codes(params) == J.Serialize(v)
    ensures Says(r, v)
    ensures ReadValue(Codes(R.Body(R.New(id, name, params)))) == Some((Record(Members(id, name, r)), []))
  {
    r := ReadsBack(v, [J.CLOSE_BRACE]);
    MembersRead(id, name, params, r);
    BodyText(id, name, params);
    var u := VersionText() + ([J.COMMA] + FromId(id, name, params));
    assert u[0] == J.QUOTE;
    BraceDispatch([J.OPEN_BRACE] + u, u, []);
  }
}
