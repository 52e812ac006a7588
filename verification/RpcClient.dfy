/** The client's frames and the field extractors that read such text back. */
module RpcClient {
  import opened Wrappers
  import opened Sequences
  import opened Numbers
  import S = LineServer

  // ---- escaping

  predicate IsControl(c: char) { c < ' ' }

  function EscapeChar(c: char): string {
    if c == '"' then "\\\""
    else if c == '\\' then "\\\\"
    else if c == S.NEWLINE then "\\n"
    else if c == '\r' then "\\r"
    else if c == '\t' then "\\t"
    else if c == '\U{8}' then "\\b"
    else if c == '\U{C}' then "\\f"
    else if IsControl(c) then ['\\', 'u', '0', '0', HexDigit(c as int / 16), HexDigit(c as int % 16)]
    else [c]
  }

  function Escape(s: string): string {
    if s == [] then [] else EscapeChar(s[0]) + Escape(s[1..])
  }

  method EscapeJsonStr(s: string) returns (out: string)
    ensures out == Escape(s)
  {
    out := "";
    assert s[0..] == s && [] + Escape(s) == Escape(s);
    for i := 0 to |s|
      invariant out + Escape(s[i..]) == Escape(s)
    {
      assert s[i..][0] == s[i] && s[i..][1..] == s[i + 1..];
      Regroup(out, EscapeChar(s[i]), Escape(s[i + 1..]));
      out := out + EscapeChar(s[i]);
    }
    assert out + [] == out;
  }

  // ---- reading a string value back

  /** What the scanning loop takes for the value, up to the closing quote: a backslash only drops out. */
  function Unescape(s: string, escape: bool): Option<string> {
    if s == [] then None
    else if escape then
      match Unescape(s[1..], false) case None => None case Some(v) => Some([s[0]] + v)
    else if s[0] == '\\' then Unescape(s[1..], true)
    else if s[0] == '"' then Some([])
    else match Unescape(s[1..], false) case None => None case Some(v) => Some([s[0]] + v)
  }

  /** The loop as the client runs it. */
  method ScanValue(s: string) returns (r: Option<string>)
    ensures r == Unescape(s, false)
  {
    var val, escape := "", false;
    assert s[0..] == s;
    PrefixedEmpty(Unescape(s, false));
    for i := 0 to |s|
      invariant Unescape(s, false) == Prefixed(val, Unescape(s[i..], escape))
    {
      var ch := s[i];
      assert s[i..][0] == ch && s[i..][1..] == s[i + 1..];
      PrefixedOnce(val, ch, Unescape(s[i + 1..], false));
      if escape {
        val := val + [ch];
        escape := false;
      } else if ch == '\\' {
        escape := true;
      } else if ch == '"' {
        assert val + [] == val;
        return Some(val);
      } else {
        val := val + [ch];
      }
    }
    return None;
  }

  function Prefixed(val: string, r: Option<string>): Option<string> {
    match r case None => None case Some(v) => Some(val + v)
  }

  lemma PrefixedEmpty(r: Option<string>)
    ensures Prefixed("", r) == r
  {
    match r case None => case Some(v) => assert [] + v == v;
  }

  lemma PrefixedOnce(val: string, ch: char, r: Option<string>)
    ensures Prefixed(val, Prefixed([ch], r)) == Prefixed(val + [ch], r)
  {
    match r case None => case Some(v) => Regroup(val, [ch], v);
  }

  /** What remains of a character that was escaped: a control character leaves the letters of its escape. */
  function Leftover(c: char): string {
    if c == '"' || c == '\\' then [c] else if IsControl(c) then EscapeChar(c)[1..] else [c]
  }

  function Leftovers(s: string): string {
    if s == [] then [] else Leftover(s[0]) + Leftovers(s[1..])
  }

  predicate HasControl(s: string) { exists i :: 0 <= i < |s| && IsControl(s[i]) }

  /** Letters and digits scan as themselves. */
  lemma {:induction false} UnescapePlain(p: string, s: string)
    requires forall i :: 0 <= i < |p| ==> p[i] != '\\' && p[i] != '"'
    ensures Unescape(p + s, false) == Prefixed(p, Unescape(s, false))
    decreases |p|
  {
    if p == [] {
      assert p + s == s;
      match Unescape(s, false) case None => case Some(v) => assert [] + v == v;
    } else {
      assert (p + s)[0] == p[0] && (p + s)[1..] == p[1..] + s;
      UnescapePlain(p[1..], s);
      assert p == [p[0]] + p[1..];
      match Unescape(s, false) case None => case Some(v) => Regroup([p[0]], p[1..], v);
    }
  }

  lemma UnescapeChar(c: char, s: string)
    ensures Unescape(EscapeChar(c) + s, false) == Prefixed(Leftover(c), Unescape(s, false))
  {
    var e := EscapeChar(c);
    if |e| == 1 {
      UnescapePlain(e, s);
    } else {
      assert (e + s)[0] == '\\' && (e + s)[1..] == e[1..] + s;
      var t := e[1..] + s;
      assert t[0] == e[1] && t[1..] == e[2..] + s;
      UnescapePlain(e[2..], s);
      assert [e[1]] + e[2..] == e[1..] == Leftover(c);
      match Unescape(s, false) case None => case Some(v) => Regroup([e[1]], e[2..], v);
    }
  }

  lemma {:induction false} UnescapeEscape(v: string, rest: string)
    ensures Unescape(Escape(v) + (['"'] + rest), false) == Some(Leftovers(v))
    decreases |v|
  {
    var tail := ['"'] + rest;
    if v == [] {
      assert Escape(v) + tail == tail;
    } else {
      Regroup(EscapeChar(v[0]), Escape(v[1..]), tail);
      UnescapeChar(v[0], Escape(v[1..]) + tail);
      UnescapeEscape(v[1..], rest);
    }
  }

  lemma {:induction false} LeftoversExact(v: string)
    ensures Leftovers(v) == v <==> !HasControl(v)
    decreases |v|
  {
    if v != [] {
      var w := v[1..];
      LeftoversExact(w);
      assert v == [v[0]] + w;
      assert HasControl(v) <==> IsControl(v[0]) || HasControl(w) by {
        if HasControl(v) {
          var i :| 0 <= i < |v| && IsControl(v[i]);
          assert i > 0 ==> w[i - 1] == v[i];
        }
        if HasControl(w) {
          var i :| 0 <= i < |w| && IsControl(w[i]);
          assert v[i + 1] == w[i];
        }
      }
      if IsControl(v[0]) {
        assert Leftovers(v)[0] == Leftover(v[0])[0] == EscapeChar(v[0])[1];
      } else {
        assert Leftovers(v)[1..] == Leftovers(w);
      }
    }
  }

  /** Extraction gives an escaped value back exactly when it holds no control character. */
  lemma ExtractionInvertsEscaping(v: string, rest: string)
    ensures Unescape(Escape(v) + (['"'] + rest), false) == Some(v) <==> !HasControl(v)
  {
    UnescapeEscape(v, rest);
    LeftoversExact(v);
  }

  lemma NewlineReadsAsLetter(rest: string)
    ensures Unescape(Escape([S.NEWLINE]) + (['"'] + rest), false) == Some("n")
  {
    UnescapeEscape([S.NEWLINE], rest);
    assert EscapeChar(S.NEWLINE) == ['\\', 'n'] && ['\\', 'n'][1..] == ['n'] == "n";
    assert [S.NEWLINE][1..] == [] && Leftovers([S.NEWLINE]) == Leftover(S.NEWLINE) + [] == "n";
  }

  // ---- finding a field

  ghost predicate OccursAt(s: string, p: string, k: nat) { k + |p| <= |s| && s[k..k + |p|] == p }

  /** The position of the first occurrence, or a position beyond the end. */
  function Find(s: string, p: string): (k: nat)
    ensures k <= |s| + 1 && (k <= |s| ==> OccursAt(s, p, k)) && forall i: nat :: i < k ==> !OccursAt(s, p, i)
    decreases |s|
  {
    if p <= s then (assert s[0..0 + |p|] == p; 0)
    else if s == [] then 1
    else
      var k := Find(s[1..], p);
      NotBefore(s, p, k);
      ShiftedBack(s, p, k);
      k + 1
  }

  lemma ShiftedBack(s: string, p: string, k: nat)
    requires s != [] && (k <= |s[1..]| ==> OccursAt(s[1..], p, k))
    ensures k + 1 <= |s| ==> OccursAt(s, p, k + 1)
  {
    if k < |s| { Shifted(s, p, k); }
  }

  lemma NotBefore(s: string, p: string, k: nat)
    requires s != [] && !(p <= s) && forall i: nat :: i < k ==> !OccursAt(s[1..], p, i)
    ensures forall i: nat :: i < k + 1 ==> !OccursAt(s, p, i)
  {
    forall i: nat | i < k + 1 ensures !OccursAt(s, p, i) {
      if 0 < i <= |s| { Shifted(s, p, i - 1); }
    }
  }

  lemma Shifted(s: string, p: string, i: nat)
    requires i < |s|
    ensures OccursAt(s, p, i + 1) <==> OccursAt(s[1..], p, i)
  {
    if i + 1 + |p| <= |s| { assert s[1..][i..i + |p|] == s[i + 1..i + 1 + |p|]; }
  }

  lemma FindExact(s: string, p: string, k: nat)
    requires OccursAt(s, p, k) && forall i: nat :: i < k ==> !OccursAt(s, p, i)
    ensures Find(s, p) == k
  {
  }

  predicate IsWhite(c: char) {
    || '\t' <= c <= '\r' || c == ' ' || c == '\U{85}' || c == '\U{A0}' || c == '\U{1680}'
    || '\U{2000}' <= c <= '\U{200A}' || c == '\U{2028}' || c == '\U{2029}' || c == '\U{202F}' || c == '\U{205F}' || c == '\U{3000}'
  }

  function TrimStart(s: string): string {
    if s != [] && IsWhite(s[0]) then TrimStart(s[1..]) else s
  }

  function Key(field: string): string { ['"'] + (field + ['"']) }

  /** What follows the first occurrence of the quoted name and the next colon, without leading white space. */
  function ValueText(json: string, field: string): Option<string> {
    var k := Find(json, Key(field));
    if k > |json| then None
    else
      var after := json[k + |Key(field)|..];
      var c := Find(after, ":");
      if c > |after| then None else Some(TrimStart(after[c + 1..]))
  }

  function ExtractStr(json: string, field: string): Option<string> {
    match ValueText(json, field)
    case None => None
    case Some(t) => if t == [] || t[0] != '"' then None else Unescape(t[1..], false)
  }

  function LeadingDigits(s: string): (d: string)
    ensures forall i :: 0 <= i < |d| ==> '0' <= d[i] <= '9'
  {
    if s != [] && '0' <= s[0] <= '9' then [s[0]] + LeadingDigits(s[1..]) else []
  }

  const WORD: nat := 0x1_0000_0000_0000_0000

  function ExtractU64(json: string, field: string): Option<nat> {
    match ValueText(json, field)
    case None => None
    case Some(t) =>
      var digits := LeadingDigits(t);
      if digits == [] || Decimal(digits) >= WORD then None else Some(Decimal(digits))
  }

  function Decimal(s: string): nat
    requires forall i :: 0 <= i < |s| ==> '0' <= s[i] <= '9'
  {
    if s == [] then 0 else 10 * Decimal(s[..|s| - 1]) + (s[|s| - 1] as int - '0' as int)
  }

  lemma {:induction false} DecimalReadBack(n: nat)
    ensures Decimal(DecimalText(n)) == n
  {
    var s := DecimalText(n);
    if n >= 10 {
      DecimalReadBack(n / 10);
      assert s[..|s| - 1] == DecimalText(n / 10);
    } else {
      assert s[..|s| - 1] == [];
    }
  }

  lemma {:induction false} LeadingDigitsOf(d: string, rest: string)
    requires (forall i :: 0 <= i < |d| ==> '0' <= d[i] <= '9') && rest != [] && !('0' <= rest[0] <= '9')
    ensures LeadingDigits(d + rest) == d
    decreases |d|
  {
    if d == [] {
      assert d + rest == rest;
    } else {
      assert (d + rest)[1..] == d[1..] + rest;
      LeadingDigitsOf(d[1..], rest);
    }
  }

  /** A field with no earlier occurrence of its name, written the way the frames write it. */
  lemma ValueFound(prefix: string, field: string, value: string)
    requires value != [] && !IsWhite(value[0])
    requires forall i: nat :: i < |prefix| ==> !OccursAt(prefix + (Key(field) + ([':'] + value)), Key(field), i)
    ensures ValueText(prefix + (Key(field) + ([':'] + value)), field) == Some(value)
  {
    var key, after := Key(field), [':'] + value;
    var json := prefix + (key + after);
    assert json[|prefix|..|prefix| + |key|] == key;
    assert OccursAt(json, key, |prefix|);
    FindExact(json, key, |prefix|);
    assert json[|prefix| + |key|..] == after;
    assert after[0..0 + 1] == ":";
    assert OccursAt(after, ":", 0);
    FindExact(after, ":", 0);
    assert after[1..] == value;
  }

  // ---- frames

  datatype Request = Request(jsonrpc: string, id: nat, name: string, params: string)

  function New(id: nat, name: string, params: string): Request { Request("2.0", id, name, params) }

  /** What follows the method's value. */
  function Tail(r: Request): string { "\",\"params\":" + (r.params + "}") }

  /** The member with the method, and what follows it. */
  function MethodPart(r: Request): string { Key("method") + ([':'] + (['"'] + (Escape(r.name) + Tail(r)))) }

  function IdPart(r: Request): string { Key("id") + ([':'] + (DecimalText(r.id) + ([','] + MethodPart(r)))) }

  /** The frame without its newline. */
  function Body(r: Request): string { "{\"jsonrpc\":\"" + (Escape(r.jsonrpc) + ("\"," + IdPart(r))) }

  function ToFrame(r: Request): string { Body(r) + [S.NEWLINE] }

  predicate NoControl(s: string) { forall i :: 0 <= i < |s| ==> !IsControl(s[i]) }

  lemma {:induction false} EscapeHasNoControl(s: string)
    ensures NoControl(Escape(s))
  {
    if s != [] { EscapeHasNoControl(s[1..]); }
  }

  /** A frame whose parameters hold no newline is one line with a brace at either end. */
  lemma FrameIsOneLine(r: Request)
    requires S.NEWLINE !in r.params
    ensures S.IsBody(Body(r)) && S.Frames([Body(r)]) == ToFrame(r)
  {
    BodyHasNoNewline(r);
    LastBrace(r);
    assert S.Frames([Body(r)][1..]) == [];
  }

  lemma BodyHasNoNewline(r: Request)
    requires S.NEWLINE !in r.params
    ensures S.NEWLINE !in Body(r)
  {
    EscapeHasNoControl(r.jsonrpc);
    EscapeHasNoControl(r.name);
    assert S.NEWLINE !in Escape(r.jsonrpc) && S.NEWLINE !in Escape(r.name) && S.NEWLINE !in DecimalText(r.id);
    assert S.NEWLINE !in Tail(r);
    assert S.NEWLINE !in MethodPart(r);
    assert S.NEWLINE !in IdPart(r);
  }

  lemma LastBrace(r: Request)
    ensures Body(r) != [] && Body(r)[0] == '{' && Body(r)[|Body(r)| - 1] == '}'
  {
    assert Tail(r)[|Tail(r)| - 1] == '}';
    assert MethodPart(r)[|MethodPart(r)| - 1] == '}';
    assert IdPart(r)[|IdPart(r)| - 1] == '}';
  }

  function BodiesOf(rs: seq<Request>): seq<string> {
    if rs == [] then [] else [Body(rs[0])] + BodiesOf(rs[1..])
  }

  function FramesOf(rs: seq<Request>): string {
    if rs == [] then [] else ToFrame(rs[0]) + FramesOf(rs[1..])
  }

  lemma {:induction false} FramesOfBodies(rs: seq<Request>)
    requires forall i :: 0 <= i < |rs| ==> S.NEWLINE !in rs[i].params
    ensures FramesOf(rs) == S.Frames(BodiesOf(rs)) && forall b :: b in BodiesOf(rs) ==> S.IsBody(b)
  {
    if rs != [] {
      FrameIsOneLine(rs[0]);
      FramesOfBodies(rs[1..]);
      Regroup(Body(rs[0]), [S.NEWLINE], FramesOf(rs[1..]));
    }
  }

  /** Whatever the reads, the server dispatches exactly the bodies of the requests, in the order sent. */
  lemma RequestsDelivered(rs: seq<Request>, chunks: seq<string>)
    requires forall i :: 0 <= i < |rs| ==> S.NEWLINE !in rs[i].params
    requires S.Flatten(chunks) == FramesOf(rs) && [] !in chunks
    ensures S.Drained(S.Flatten(S.UpToEmpty(chunks))).0 == BodiesOf(rs)
    ensures S.Drained(S.Flatten(S.UpToEmpty(chunks))).1 == []
  {
    FramesOfBodies(rs);
    S.FramesDelivered(BodiesOf(rs), chunks);
  }

  // ---- reading a frame back

  /** No position of the prefix starts the key: no quote there is followed by its first letter. */
  ghost predicate NoKeyStart(prefix: string, c: char) {
    && (prefix != [] ==> prefix[|prefix| - 1] != '"')
    && forall i :: 0 <= i < |prefix| - 1 ==> !(prefix[i] == '"' && prefix[i + 1] == c)
  }

  lemma KeyStart(s: string, field: string, i: nat)
    requires field != [] && OccursAt(s, Key(field), i)
    ensures i + 1 < |s| && s[i] == '"' && s[i + 1] == field[0]
  {
    var key := s[i..i + |Key(field)|];
    assert key[0] == s[i] && key[1] == s[i + 1];
  }

  lemma NoEarlierKey(prefix: string, field: string, rest: string)
    requires field != [] && NoKeyStart(prefix, field[0])
    ensures forall i: nat :: i < |prefix| ==> !OccursAt(prefix + rest, Key(field), i)
  {
    forall i: nat | i < |prefix| ensures !OccursAt(prefix + rest, Key(field), i) {
      if OccursAt(prefix + rest, Key(field), i) { KeyStart(prefix + rest, field, i); }
    }
  }

  const HEAD := "{\"jsonrpc\":\"2.0\","

  lemma HeadQuotes()
    ensures NoKeyStart(HEAD, 'i') && NoKeyStart(HEAD, 'm')
  {
  }

  lemma EscapeVersion()
    ensures Escape("2.0") == "2.0"
  {
    assert "2.0"[1..] == ".0" && ".0"[1..] == "0" && "0"[1..] == "";
  }

  lemma BodyOfNew(id: nat, name: string, params: string)
    ensures Body(New(id, name, params)) == HEAD + IdPart(New(id, name, params))
  {
    EscapeVersion();
    HeadParts(IdPart(New(id, name, params)));
  }

  lemma HeadParts(rest: string)
    ensures "{\"jsonrpc\":\"" + ("2.0" + ("\"," + rest)) == HEAD + rest
  {
    assert "{\"jsonrpc\":\"" + ("2.0" + "\",") == HEAD;
    Regroup("2.0", "\",", rest);
    Regroup("{\"jsonrpc\":\"", "2.0" + "\",", rest);
  }

  /** The id of a frame reads back as long as it is a machine word. */
  lemma IdReadsBack(id: nat, name: string, params: string)
    ensures ExtractU64(Body(New(id, name, params)), "id") == if id < WORD then Some(id) else None
  {
    var r := New(id, name, params);
    BodyOfNew(id, name, params);
    HeadQuotes();
    NoEarlierKey(HEAD, "id", IdPart(r));
    var rest := [','] + MethodPart(r);
    ValueFound(HEAD, "id", DecimalText(id) + rest);
    LeadingDigitsOf(DecimalText(id), rest);
    DecimalReadBack(id);
  }

  lemma MethodPrefix(id: nat)
    ensures NoKeyStart(MethodHead(id), 'm')
  {
    HeadQuotes();
  }

  function MethodHead(id: nat): string { HEAD + (Key("id") + ([':'] + (DecimalText(id) + [',']))) }

  lemma BodySplits(id: nat, name: string, params: string)
    ensures Body(New(id, name, params)) == MethodHead(id) + MethodPart(New(id, name, params))
  {
    var r := New(id, name, params);
    BodyOfNew(id, name, params);
    Regroup(DecimalText(id), [','], MethodPart(r));
    Regroup([':'], DecimalText(id) + [','], MethodPart(r));
    Regroup(Key("id"), [':'] + (DecimalText(id) + [',']), MethodPart(r));
    Regroup(HEAD, Key("id") + ([':'] + (DecimalText(id) + [','])), MethodPart(r));
  }

  lemma MethodText(id: nat, name: string, params: string)
    ensures ValueText(Body(New(id, name, params)), "method") == Some(['"'] + (Escape(name) + Tail(New(id, name, params))))
  {
    var r := New(id, name, params);
    BodySplits(id, name, params);
    MethodPrefix(id);
    NoEarlierKey(MethodHead(id), "method", MethodPart(r));
    ValueFound(MethodHead(id), "method", ['"'] + (Escape(name) + Tail(r)));
  }

  /** The method of a frame reads back exactly if it holds no control character. */
  lemma MethodReadsBack(id: nat, name: string, params: string)
    ensures ExtractStr(Body(New(id, name, params)), "method") == Some(name) <==> !HasControl(name)
  {
    var tail := Tail(New(id, name, params));
    MethodText(id, name, params);
    QuotedValue(Escape(name) + tail);
    assert tail == ['"'] + tail[1..];
    ExtractionInvertsEscaping(name, tail[1..]);
  }

  lemma QuotedValue(s: string)
    ensures (['"'] + s)[0] == '"' && (['"'] + s)[1..] == s
  {
  }
}
