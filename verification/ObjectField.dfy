/** Cutting a nested JSON object out of a response: the scan takes exactly the shortest balanced object. */
module ObjectField {
  import opened Wrappers
  import opened Sequences
  import opened Quoting
  import opened RpcClient

  /** How many characters up to and including the brace that brings the depth to zero. */
  function Scan(s: string, depth: nat, inStr: bool, escape: bool): Option<nat> {
    if s == [] then None
    else
      var rest := s[1..];
      if escape then OneMore(Scan(rest, depth, inStr, false))
      else if s[0] == '\\' && inStr then OneMore(Scan(rest, depth, inStr, true))
      else if s[0] == '"' then OneMore(Scan(rest, depth, !inStr, false))
      else if !inStr && s[0] == '{' then OneMore(Scan(rest, depth + 1, false, false))
      else if !inStr && s[0] == '}' then
        if depth <= 1 then Some(1) else OneMore(Scan(rest, depth - 1, false, false))
      else OneMore(Scan(rest, depth, inStr, false))
  }

  function OneMore(n: Option<nat>): Option<nat> { More(n, 1) }

  function More(n: Option<nat>, k: nat): Option<nat> {
    match n case None => None case Some(m) => Some(m + k)
  }

  lemma {:induction false} ScanBound(s: string, depth: nat, inStr: bool, escape: bool)
    ensures Scan(s, depth, inStr, escape).Some? ==> 0 < Scan(s, depth, inStr, escape).value <= |s|
    decreases |s|
  {
    if s != [] {
      forall d: nat, i, e ensures Scan(s[1..], d, i, e).Some? ==> 0 < Scan(s[1..], d, i, e).value <= |s| - 1 {
        ScanBound(s[1..], d, i, e);
      }
    }
  }

  /** The loop as the client runs it, on a value that starts with a brace. */
  method ScanObject(s: string) returns (end: Option<nat>)
    requires s != [] && s[0] == '{'
    ensures end == Scan(s, 0, false, false)
  {
    var depth, inStr, escape := 0, false, false;
    assert s[0..] == s;
    MoreZero(Scan(s, 0, false, false));
    for i := 0 to |s|
      invariant depth >= 0 && (i > 0 ==> depth >= 1) && (i == 0 ==> !inStr && !escape)
      invariant Scan(s, 0, false, false) == More(Scan(s[i..], depth, inStr, escape), i)
    {
      var ch := s[i];
      assert s[i..][0] == ch && s[i..][1..] == s[i + 1..];
      ScanStep(s[i..], depth, inStr, escape, i);
      assert i == 0 ==> ch == '{' && !inStr && !escape;
      if escape {
        escape := false;
        continue;
      }
      if ch == '\\' && inStr {
        escape := true;
        continue;
      }
      if ch == '"' {
        inStr := !inStr;
        continue;
      }
      if !inStr {
        if ch == '{' {
          depth := depth + 1;
        } else if ch == '}' {
          depth := depth - 1;
          if depth == 0 { return Some(i + 1); }
        }
      }
    }
    return None;
  }

  lemma MoreZero(n: Option<nat>)
    ensures More(n, 0) == n
  {
  }

  lemma ScanStep(s: string, depth: nat, inStr: bool, escape: bool, i: nat)
    requires s != []
    ensures More(OneMore(Scan(s[1..], depth, inStr, false)), i) == More(Scan(s[1..], depth, inStr, false), i + 1)
    ensures More(OneMore(Scan(s[1..], depth, inStr, true)), i) == More(Scan(s[1..], depth, inStr, true), i + 1)
    ensures More(OneMore(Scan(s[1..], depth, !inStr, false)), i) == More(Scan(s[1..], depth, !inStr, false), i + 1)
    ensures More(OneMore(Scan(s[1..], depth + 1, false, false)), i) == More(Scan(s[1..], depth + 1, false, false), i + 1)
    ensures depth > 0 ==> More(OneMore(Scan(s[1..], depth - 1, false, false)), i) == More(Scan(s[1..], depth - 1, false, false), i + 1)
  {
  }

  /** extract_object_field: the object that follows the field's name. */
  function ExtractObject(json: string, field: string): Option<string> {
    match ValueText(json, field)
    case None => None
    case Some(t) =>
      if t == [] || t[0] != '{' then None
      else
        ScanBound(t, 0, false, false);
        match Scan(t, 0, false, false) case None => None case Some(n) => Some(t[..n])
  }

  // ---- the grammar of balanced objects

  datatype Doc = Empty | Plain(c: char, rest: Doc) | Quoted(body: string, rest: Doc) | Object(inner: Doc, rest: Doc)

  predicate WellFormed(d: Doc) {
    match d
    case Empty => true
    case Plain(c, rest) => c != '"' && c != '{' && c != '}' && WellFormed(rest)
    case Quoted(body, rest) => StringBody(body) && WellFormed(rest)
    case Object(inner, rest) => WellFormed(inner) && WellFormed(rest)
  }

  function Yield(d: Doc): string {
    match d
    case Empty => []
    case Plain(c, rest) => [c] + Yield(rest)
    case Quoted(body, rest) => ['"'] + (body + (['"'] + Yield(rest)))
    case Object(inner, rest) => ['{'] + (Yield(inner) + (['}'] + Yield(rest)))
  }

  ghost predicate IsObject(text: string) { exists d :: WellFormed(d) && text == ObjectText(d) }

  function ObjectText(d: Doc): string { ['{'] + (Yield(d) + ['}']) }

  // ---- a balanced object is scanned to its end

  lemma MoreMore(n: Option<nat>, j: nat, k: nat)
    ensures More(More(n, j), k) == More(n, j + k)
  {
  }

  lemma {:induction false} ScanBody(b: string, rest: string, depth: nat)
    requires StringBody(b)
    ensures Scan(b + rest, depth, true, false) == More(Scan(rest, depth, true, false), |b|)
    decreases |b|
  {
    var r := Scan(rest, depth, true, false);
    if b == [] {
      assert b + rest == rest;
      MoreZero(r);
    } else if b[0] == '\\' {
      assert (b + rest)[1..] == b[1..] + rest && (b[1..] + rest)[1..] == b[2..] + rest;
      ScanBody(b[2..], rest, depth);
      MoreMore(r, |b| - 2, 2);
    } else {
      assert (b + rest)[1..] == b[1..] + rest;
      ScanBody(b[1..], rest, depth);
      MoreMore(r, |b| - 1, 1);
    }
  }

  lemma {:induction false} ScanDoc(d: Doc, rest: string, depth: nat)
    requires WellFormed(d) && depth >= 1
    ensures Scan(Yield(d) + rest, depth, false, false) == More(Scan(rest, depth, false, false), |Yield(d)|)
    decreases d
  {
    var r := Scan(rest, depth, false, false);
    match d
    case Empty =>
      assert Yield(d) + rest == rest;
      MoreZero(r);
    case Plain(c, more) =>
      assert (Yield(d) + rest)[1..] == Yield(more) + rest;
      ScanDoc(more, rest, depth);
      MoreMore(r, |Yield(more)|, 1);
    case Quoted(body, more) =>
      ScanQuoted(body, Yield(more), rest, depth);
      ScanDoc(more, rest, depth);
      MoreMore(r, |Yield(more)|, |body| + 2);
    case Object(inner, more) =>
      var tail := ['}'] + (Yield(more) + rest);
      ScanDoc(inner, tail, depth + 1);
      ScanNested(Yield(inner), Yield(more), rest, depth);
      ScanDoc(more, rest, depth);
      MoreMore(r, |Yield(more)|, |Yield(inner)| + 2);
  }

  lemma ScanQuoted(body: string, more: string, rest: string, depth: nat)
    requires StringBody(body)
    ensures Scan((['"'] + (body + (['"'] + more))) + rest, depth, false, false)
         == More(Scan(more + rest, depth, false, false), |body| + 2)
  {
    var tail := ['"'] + (more + rest);
    assert ((['"'] + (body + (['"'] + more))) + rest)[1..] == body + tail;
    ScanBody(body, tail, depth);
    assert tail[1..] == more + rest;
    MoreMore(Scan(more + rest, depth, false, false), 1, |body|);
    MoreMore(Scan(more + rest, depth, false, false), |body| + 1, 1);
  }

  lemma ScanNested(inner: string, more: string, rest: string, depth: nat)
    requires depth >= 1
    requires var tail := ['}'] + (more + rest);
             Scan(inner + tail, depth + 1, false, false) == More(Scan(tail, depth + 1, false, false), |inner|)
    ensures Scan((['{'] + (inner + (['}'] + more))) + rest, depth, false, false)
         == More(Scan(more + rest, depth, false, false), |inner| + 2)
  {
    var tail := ['}'] + (more + rest);
    assert ((['{'] + (inner + (['}'] + more))) + rest)[1..] == inner + tail;
    assert tail[1..] == more + rest;
    MoreMore(Scan(more + rest, depth, false, false), 1, |inner|);
    MoreMore(Scan(more + rest, depth, false, false), |inner| + 1, 1);
  }

  // ---- what the scan takes is a balanced object

  /** Contents closed one after the other, innermost first. */
  function Joined(docs: seq<Doc>): string {
    if docs == [] then [] else Yield(docs[0]) + (['}'] + Joined(docs[1..]))
  }

  predicate AllWellFormed(docs: seq<Doc>) { forall i :: 0 <= i < |docs| ==> WellFormed(docs[i]) }

  lemma {:induction false} SplitString(s: string, depth: nat, escape: bool) returns (n: nat)
    requires Scan(s, depth, true, escape).Some?
    ensures n < |s| && s[n] == '"' && (if escape then n >= 1 && StringBody(s[1..n]) else StringBody(s[..n]))
    ensures Scan(s, depth, true, escape) == More(Scan(s[n + 1..], depth, false, false), n + 1)
    decreases |s|
  {
    if escape {
      var m := SplitString(s[1..], depth, false);
      n := m + 1;
      assert s[1..][..m] == s[1..n] && s[1..][m + 1..] == s[n + 1..];
    } else if s[0] == '"' {
      n := 0;
    } else if s[0] == '\\' {
      var m := SplitString(s[1..], depth, true);
      n := m + 1;
      assert s[..n][2..] == s[1..][1..m] && s[1..][m + 1..] == s[n + 1..];
    } else {
      var m := SplitString(s[1..], depth, false);
      n := m + 1;
      assert s[..n][1..] == s[1..][..m] && s[1..][m + 1..] == s[n + 1..];
    }
  }

  /** The scan takes exactly these contents with their closing braces. */
  ghost predicate Takes(s: string, depth: nat, docs: seq<Doc>) {
    && |docs| == depth && AllWellFormed(docs)
    && Scan(s, depth, false, false).Some? && Scan(s, depth, false, false).value <= |s|
    && s[..Scan(s, depth, false, false).value] == Joined(docs)
  }

  lemma {:induction false} Decompose(s: string, depth: nat) returns (docs: seq<Doc>)
    requires depth >= 1 && Scan(s, depth, false, false).Some?
    ensures Takes(s, depth, docs)
    decreases |s|
  {
    var c, rest := s[0], s[1..];
    if c == '"' {
      var n := SplitString(rest, depth, false);
      var more := Decompose(rest[n + 1..], depth);
      docs := [Quoted(rest[..n], more[0])] + more[1..];
      TakesQuoted(s, depth, n, more);
    } else if c == '{' {
      var more := Decompose(rest, depth + 1);
      docs := [Object(more[0], more[1])] + more[2..];
      TakesObject(s, depth, more);
    } else if c == '}' {
      if depth == 1 {
        docs := [Empty];
        TakesLast(s);
      } else {
        var more := Decompose(rest, depth - 1);
        docs := [Empty] + more;
        TakesClosed(s, depth, more);
      }
    } else {
      var more := Decompose(rest, depth);
      docs := [Plain(c, more[0])] + more[1..];
      TakesPlain(s, depth, more);
    }
  }

  lemma TakesQuoted(s: string, depth: nat, n: nat, more: seq<Doc>)
    requires depth >= 1 && s != [] && s[0] == '"' && n < |s[1..]| && s[1..][n] == '"' && StringBody(s[1..][..n])
    requires Scan(s[1..], depth, true, false) == More(Scan(s[1..][n + 1..], depth, false, false), n + 1)
    requires Takes(s[1..][n + 1..], depth, more)
    ensures Takes(s, depth, [Quoted(s[1..][..n], more[0])] + more[1..])
  {
    SplitAtQuote(s[1..], n);
    assert s == [s[0]] + s[1..];
    JoinQuoted(more, s[1..][..n], s[1..][n + 1..], Scan(s[1..][n + 1..], depth, false, false).value);
  }

  lemma TakesObject(s: string, depth: nat, more: seq<Doc>)
    requires depth >= 1 && s != [] && s[0] == '{' && Takes(s[1..], depth + 1, more)
    ensures Takes(s, depth, [Object(more[0], more[1])] + more[2..])
  {
    assert s == ['{'] + s[1..];
    JoinObject(more, s[1..], Scan(s[1..], depth + 1, false, false).value);
  }

  lemma TakesClosed(s: string, depth: nat, more: seq<Doc>)
    requires depth > 1 && s != [] && s[0] == '}' && Takes(s[1..], depth - 1, more)
    ensures Takes(s, depth, [Empty] + more)
  {
    assert s == ['}'] + s[1..];
    JoinClosed(more, s[1..], Scan(s[1..], depth - 1, false, false).value);
  }

  lemma TakesLast(s: string)
    requires s != [] && s[0] == '}'
    ensures Takes(s, 1, [Empty])
  {
    assert [Empty][1..] == [] && [] + (['}'] + Joined([])) == ['}'];
    assert s[..1] == ['}'];
  }

  lemma TakesPlain(s: string, depth: nat, more: seq<Doc>)
    requires depth >= 1 && s != [] && s[0] !in {'"', '{', '}'} && Takes(s[1..], depth, more)
    ensures Takes(s, depth, [Plain(s[0], more[0])] + more[1..])
  {
    assert s == [s[0]] + s[1..];
    JoinPlain(more, s[0], s[1..], Scan(s[1..], depth, false, false).value);
  }

  /** Putting a piece in front of the first content. */
  lemma JoinedHead(docs: seq<Doc>, first: Doc, piece: string)
    requires docs != [] && Yield(first) == piece + Yield(docs[0])
    ensures Joined([first] + docs[1..]) == piece + Joined(docs)
  {
    assert ([first] + docs[1..])[1..] == docs[1..];
    Regroup(piece, Yield(docs[0]), ['}'] + Joined(docs[1..]));
  }

  lemma Taken(piece: string, after: string, m: nat)
    requires m <= |after|
    ensures (piece + after)[..|piece| + m] == piece + after[..m]
  {
  }

  lemma JoinQuoted(docs: seq<Doc>, body: string, after: string, m: nat)
    requires docs != [] && m <= |after| && after[..m] == Joined(docs)
    ensures (['"'] + (body + (['"'] + after)))[..|body| + 2 + m] == Joined([Quoted(body, docs[0])] + docs[1..])
  {
    var piece := ['"'] + (body + ['"']);
    Enclosed('"', body, '"', Yield(docs[0]));
    JoinedHead(docs, Quoted(body, docs[0]), piece);
    Enclosed('"', body, '"', after);
    Taken(piece, after, m);
  }

  lemma JoinObject(docs: seq<Doc>, rest: string, m: nat)
    requires |docs| >= 2 && m <= |rest| && rest[..m] == Joined(docs)
    ensures (['{'] + rest)[..m + 1] == Joined([Object(docs[0], docs[1])] + docs[2..])
  {
    Taken(['{'], rest, m);
    assert docs[1..][0] == docs[1] && docs[1..][1..] == docs[2..];
    ObjectHead(docs[0], docs[1..]);
  }

  lemma ObjectHead(inner: Doc, docs: seq<Doc>)
    requires docs != []
    ensures Joined([Object(inner, docs[0])] + docs[1..]) == ['{'] + (Yield(inner) + (['}'] + Joined(docs)))
  {
    Enclosed('{', Yield(inner), '}', Yield(docs[0]));
    JoinedHead(docs, Object(inner, docs[0]), ['{'] + (Yield(inner) + ['}']));
    Enclosed('{', Yield(inner), '}', Joined(docs));
  }

  lemma JoinClosed(docs: seq<Doc>, rest: string, m: nat)
    requires m <= |rest| && rest[..m] == Joined(docs)
    ensures (['}'] + rest)[..m + 1] == Joined([Empty] + docs)
  {
    assert ([Empty] + docs)[1..] == docs;
    Taken(['}'], rest, m);
    assert Joined([Empty] + docs) == [] + (['}'] + Joined(docs));
  }

  lemma JoinPlain(docs: seq<Doc>, c: char, rest: string, m: nat)
    requires docs != [] && m <= |rest| && rest[..m] == Joined(docs)
    ensures ([c] + rest)[..m + 1] == Joined([Plain(c, docs[0])] + docs[1..])
  {
    JoinedHead(docs, Plain(c, docs[0]), [c]);
    Taken([c], rest, m);
  }

  lemma ObjectIsScanned(d: Doc, tail: string)
    requires WellFormed(d)
    ensures Scan(ObjectText(d) + tail, 0, false, false) == Some(|ObjectText(d)|)
  {
    Enclosed('{', Yield(d), '}', tail);
    var s := Yield(d) + (['}'] + tail);
    assert (['{'] + s)[1..] == s;
    ScanDoc(d, ['}'] + tail, 1);
  }

  lemma ScannedIsObject(s: string, n: nat)
    requires s != [] && s[0] == '{' && Scan(s, 0, false, false) == Some(n)
    ensures n <= |s| && IsObject(s[..n])
  {
    ScanBound(s, 0, false, false);
    assert Scan(s[1..], 1, false, false) == Some(n - 1);
    var docs := Decompose(s[1..], 1);
    WholeObject(s, n, docs);
  }

  lemma WholeObject(s: string, n: nat, docs: seq<Doc>)
    requires s != [] && s[0] == '{' && 0 < n <= |s| && |docs| == 1 && AllWellFormed(docs) && s[1..][..n - 1] == Joined(docs)
    ensures IsObject(s[..n])
  {
    OneDoc(docs, s[1..], n - 1);
    assert s == ['{'] + s[1..];
    Taken(['{'], s[1..], n - 1);
    assert s[..n] == ObjectText(docs[0]);
  }

  lemma OneDoc(docs: seq<Doc>, rest: string, m: nat)
    requires |docs| == 1 && m <= |rest| && rest[..m] == Joined(docs)
    ensures ['{'] + rest[..m] == ObjectText(docs[0])
  {
    assert docs[1..] == [] && ['}'] + Joined([]) == ['}'];
  }

  /** The scan of a value takes its first n characters exactly when they form a balanced object. */
  lemma ScanTakesObject(s: string, n: nat)
    requires s != [] && s[0] == '{' && n <= |s|
    ensures Scan(s, 0, false, false) == Some(n) <==> IsObject(s[..n])
  {
    if Scan(s, 0, false, false) == Some(n) {
      ScannedIsObject(s, n);
    }
    if IsObject(s[..n]) {
      var d :| WellFormed(d) && s[..n] == ObjectText(d);
      assert s == s[..n] + s[n..];
      ObjectIsScanned(d, s[n..]);
    }
  }

  /** Extraction from a frame-like text gives an object back whole, whatever follows it. */
  lemma ObjectReadsBack(prefix: string, field: string, text: string, rest: string)
    requires IsObject(text)
    requires forall i: nat :: i < |prefix| ==> !OccursAt(prefix + (Key(field) + ([':'] + (text + rest))), Key(field), i)
    ensures ExtractObject(prefix + (Key(field) + ([':'] + (text + rest))), field) == Some(text)
  {
    var t := text + rest;
    assert t[0] == '{' && t[..|text|] == text;
    ValueFound(prefix, field, t);
    ScanTakesObject(t, |text|);
  }
}
