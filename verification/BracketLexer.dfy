/** The fallback syntax check: a stack machine over brackets and strings, and the grammar it decides. */
module BracketLexer {
  import opened Sequences
  import opened Quoting

  datatype Open = Open(ch: char, at: nat)

  datatype Verdict = Unmatched(ch: char, at: nat) | Mismatched(opening: char, ch: char, at: nat)
                   | Unterminated | Unclosed(opening: char, at: nat) | Valid

  predicate IsOpening(c: char) { c == '(' || c == '{' || c == '[' }

  predicate IsClosing(c: char) { c == ')' || c == '}' || c == ']' }

  function Closer(c: char): char {
    if c == '(' then ')' else if c == '{' then '}' else ']'
  }

  // ---- the machine

  datatype State = Going(stack: seq<Open>, inString: bool, escape: bool) | Failed(v: Verdict)

  function Step(s: State, c: char, at: nat): State {
    match s
    case Failed(_) => s
    case Going(stack, inString, escape) =>
      if inString then
        if escape then Going(stack, true, false)
        else if c == '\\' then Going(stack, true, true)
        else if c == '"' then Going(stack, false, escape)
        else s
      else if c == '"' then Going(stack, true, escape)
      else if IsOpening(c) then Going(stack + [Open(c, at)], false, escape)
      else if IsClosing(c) then
        if stack == [] then Failed(Unmatched(c, at))
        else
          var top := stack[|stack| - 1].ch;
          if IsOpening(top) && c == Closer(top) then Going(stack[..|stack| - 1], false, escape)
          else Failed(Mismatched(top, c, at))
      else s
  }

  /** The state after the text, whose first character is the one at index at. */
  function Run(s: State, text: string, at: nat): State
    decreases |text|
  {
    if text == [] then s else Run(Step(s, text[0], at), text[1..], at + 1)
  }

  const START := Going([], false, false)

  function Judge(s: State): Verdict {
    match s
    case Failed(v) => v
    case Going(stack, inString, _) =>
      if inString then Unterminated
      else if stack != [] then Unclosed(stack[|stack| - 1].ch, stack[|stack| - 1].at)
      else Valid
  }

  function VerdictOn(text: string): Verdict { Judge(Run(START, text, 0)) }

  lemma {:induction false} RunConcat(s: State, a: string, b: string, at: nat)
    ensures Run(s, a + b, at) == Run(Run(s, a, at), b, at + |a|)
    decreases |a|
  {
    if a == [] {
      assert a + b == b;
    } else {
      assert (a + b)[1..] == a[1..] + b;
      RunConcat(Step(s, a[0], at), a[1..], b, at + 1);
    }
  }

  lemma {:induction false} RunFailed(v: Verdict, text: string, at: nat)
    ensures Run(Failed(v), text, at) == Failed(v)
    decreases |text|
  {
    if text != [] { RunFailed(v, text[1..], at + 1); }
  }

  method FallbackLexicalParse(text: string) returns (v: Verdict)
    ensures v == VerdictOn(text)
  {
    var stack: seq<Open> := [];
    var inString, escape := false, false;
    for i := 0 to |text|
      invariant Run(START, text, 0) == Run(Going(stack, inString, escape), text[i..], i)
    {
      var c := text[i];
      assert text[i..][0] == c && text[i..][1..] == text[i + 1..];
      if inString {
        if escape {
          escape := false;
        } else if c == '\\' {
          escape := true;
        } else if c == '"' {
          inString := false;
        }
        continue;
      }
      if c == '"' {
        inString := true;
      } else if IsOpening(c) {
        stack := stack + [Open(c, i)];
      } else if IsClosing(c) {
        if stack == [] {
          RunFailed(Unmatched(c, i), text[i + 1..], i + 1);
          return Unmatched(c, i);
        }
        var top := stack[|stack| - 1];
        stack := stack[..|stack| - 1];
        if !((top.ch == '(' && c == ')') || (top.ch == '{' && c == '}') || (top.ch == '[' && c == ']')) {
          RunFailed(Mismatched(top.ch, c, i), text[i + 1..], i + 1);
          return Mismatched(top.ch, c, i);
        }
      }
    }
    if inString { return Unterminated; }
    if stack != [] { return Unclosed(stack[|stack| - 1].ch, stack[|stack| - 1].at); }
    return Valid;
  }

  // ---- the grammar

  /** A text is a sequence of plain characters, closed strings, and bracketed texts. */
  datatype Doc = Empty | Plain(c: char, rest: Doc) | Quoted(body: string, rest: Doc) | Group(opening: char, inner: Doc, rest: Doc)

  predicate IsPlain(c: char) { c != '"' && !IsOpening(c) && !IsClosing(c) }

  predicate WellFormed(d: Doc) {
    match d
    case Empty => true
    case Plain(c, rest) => IsPlain(c) && WellFormed(rest)
    case Quoted(body, rest) => StringBody(body) && WellFormed(rest)
    case Group(opening, inner, rest) => IsOpening(opening) && WellFormed(inner) && WellFormed(rest)
  }

  function Yield(d: Doc): string {
    match d
    case Empty => []
    case Plain(c, rest) => [c] + Yield(rest)
    case Quoted(body, rest) => ['"'] + (body + (['"'] + Yield(rest)))
    case Group(opening, inner, rest) => [opening] + (Yield(inner) + ([Closer(opening)] + Yield(rest)))
  }

  ghost predicate Derivable(text: string) { exists d :: WellFormed(d) && Yield(d) == text }

  // ---- what the grammar derives, the machine accepts

  lemma {:induction false} RunBody(stack: seq<Open>, b: string, at: nat)
    requires StringBody(b)
    ensures Run(Going(stack, true, false), b, at) == Going(stack, true, false)
    decreases |b|
  {
    if b != [] {
      if b[0] == '\\' {
        assert b[1..][1..] == b[2..];
        RunBody(stack, b[2..], at + 2);
      } else {
        RunBody(stack, b[1..], at + 1);
      }
    }
  }

  lemma {:induction false} RunDoc(stack: seq<Open>, d: Doc, at: nat)
    requires WellFormed(d)
    ensures Run(Going(stack, false, false), Yield(d), at) == Going(stack, false, false)
    decreases d
  {
    match d
    case Empty =>
    case Plain(c, rest) =>
      assert Yield(d)[1..] == Yield(rest);
      RunDoc(stack, rest, at + 1);
    case Quoted(body, rest) =>
      RunQuoted(stack, body, Yield(rest), at);
      RunDoc(stack, rest, at + |body| + 2);
    case Group(opening, inner, rest) =>
      var open := stack + [Open(opening, at)];
      RunDoc(open, inner, at + 1);
      RunGroup(stack, opening, Yield(inner), Yield(rest), at, at + 1 + |Yield(inner)|);
      RunDoc(stack, rest, at + |Yield(inner)| + 2);
  }

  lemma RunQuoted(stack: seq<Open>, body: string, rest: string, at: nat)
    requires StringBody(body)
    ensures Run(Going(stack, false, false), ['"'] + (body + (['"'] + rest)), at)
         == Run(Going(stack, false, false), rest, at + |body| + 2)
  {
    var inside := Going(stack, true, false);
    var tail := ['"'] + rest;
    assert (['"'] + (body + tail))[1..] == body + tail;
    RunConcat(inside, body, tail, at + 1);
    RunBody(stack, body, at + 1);
    assert tail[1..] == rest;
  }

  lemma RunGroup(stack: seq<Open>, opening: char, inner: string, rest: string, at: nat, later: nat)
    requires IsOpening(opening) && later == at + 1 + |inner|
    requires Run(Going(stack + [Open(opening, at)], false, false), inner, at + 1) == Going(stack + [Open(opening, at)], false, false)
    ensures Run(Going(stack, false, false), [opening] + (inner + ([Closer(opening)] + rest)), at)
         == Run(Going(stack, false, false), rest, later + 1)
  {
    var open, tail := Going(stack + [Open(opening, at)], false, false), [Closer(opening)] + rest;
    RunOpener(stack, opening, inner + tail, at);
    RunInner(open, inner, tail, at + 1);
    RunCloser(stack, opening, rest, at, later);
  }

  lemma RunOpener(stack: seq<Open>, opening: char, rest: string, at: nat)
    requires IsOpening(opening)
    ensures Run(Going(stack, false, false), [opening] + rest, at) == Run(Going(stack + [Open(opening, at)], false, false), rest, at + 1)
  {
    RunStep(Going(stack, false, false), opening, rest, at);
  }

  lemma RunInner(open: State, inner: string, tail: string, at: nat)
    requires Run(open, inner, at) == open
    ensures Run(open, inner + tail, at) == Run(open, tail, at + |inner|)
  {
    RunConcat(open, inner, tail, at);
  }

  lemma RunCloser(stack: seq<Open>, opening: char, rest: string, at: nat, later: nat)
    requires IsOpening(opening)
    ensures Run(Going(stack + [Open(opening, at)], false, false), [Closer(opening)] + rest, later)
         == Run(Going(stack, false, false), rest, later + 1)
  {
    RunStep(Going(stack + [Open(opening, at)], false, false), Closer(opening), rest, later);
    StepBack(stack, opening, at, later);
  }

  lemma RunStep(s: State, c: char, rest: string, at: nat)
    ensures Run(s, [c] + rest, at) == Run(Step(s, c, at), rest, at + 1)
  {
    assert ([c] + rest)[1..] == rest;
  }

  lemma StepBack(stack: seq<Open>, opening: char, at: nat, later: nat)
    requires IsOpening(opening)
    ensures Step(Going(stack + [Open(opening, at)], false, false), Closer(opening), later) == Going(stack, false, false)
  {
    assert (stack + [Open(opening, at)])[..|stack|] == stack;
  }

  // ---- what the machine accepts, the grammar derives

  /** Texts with the closers of the open brackets between them, innermost first. */
  function Joined(docs: seq<Doc>, stack: seq<Open>): string
    requires |docs| == |stack| + 1
    decreases |stack|
  {
    if stack == [] then Yield(docs[0])
    else Yield(docs[0]) + ([Closer(stack[|stack| - 1].ch)] + Joined(docs[1..], stack[..|stack| - 1]))
  }

  predicate AllWellFormed(docs: seq<Doc>) { forall i :: 0 <= i < |docs| ==> WellFormed(docs[i]) }

  /** A string that gets closed: its body, and what comes after it. */
  lemma {:induction false} SplitString(stack: seq<Open>, text: string, at: nat, escape: bool) returns (n: nat)
    requires Run(Going(stack, true, escape), text, at) == START
    ensures n < |text| && text[n] == '"' && (if escape then n >= 1 && StringBody(text[1..n]) else StringBody(text[..n]))
    ensures Run(Going(stack, false, false), text[n + 1..], at + n + 1) == START
    decreases |text|
  {
    var rest := text[1..];
    assert text == [text[0]] + rest;
    if escape {
      var m := SplitString(stack, rest, at + 1, false);
      n := m + 1;
      OnePast(text, m);
    } else if text[0] == '"' {
      n := 0;
    } else if text[0] == '\\' {
      var m := SplitString(stack, rest, at + 1, true);
      n := m + 1;
      OnePast(text, m);
      assert text[..n][2..] == rest[..m][1..] == rest[1..m];
    } else {
      var m := SplitString(stack, rest, at + 1, false);
      n := m + 1;
      OnePast(text, m);
    }
  }

  lemma OnePast(text: string, m: nat)
    requires 0 < |text| && m < |text| - 1
    ensures text[m + 1] == text[1..][m]
    ensures text[1..m + 1] == text[..m + 1][1..] == text[1..][..m]
    ensures text[m + 2..] == text[1..][m + 1..]
  {
  }

  /** The text is that of these contents, with the closers of the open brackets between them. */
  ghost predicate Spells(docs: seq<Doc>, stack: seq<Open>, text: string) {
    |docs| == |stack| + 1 && AllWellFormed(docs) && Joined(docs, stack) == text
  }

  lemma {:induction false} Decompose(stack: seq<Open>, text: string, at: nat) returns (docs: seq<Doc>)
    requires Run(Going(stack, false, false), text, at) == START
    ensures Spells(docs, stack, text)
    decreases |text|
  {
    if text == [] {
      docs := [Empty];
    } else {
      var c, rest := text[0], text[1..];
      assert text == [c] + rest;
      if c == '"' {
        var n := SplitString(stack, rest, at + 1, false);
        var more := Decompose(stack, rest[n + 1..], at + n + 2);
        docs := [Quoted(rest[..n], more[0])] + more[1..];
        SpellsQuoted(more, stack, rest, n);
      } else if IsOpening(c) {
        var more := Decompose(stack + [Open(c, at)], rest, at + 1);
        docs := [Group(c, more[0], more[1])] + more[2..];
        SpellsGroup(more, stack, Open(c, at), rest);
      } else if IsClosing(c) {
        RunClosing(stack, text, at);
        var more := Decompose(stack[..|stack| - 1], rest, at + 1);
        docs := [Empty] + more;
        SpellsClosed(more, stack, rest);
      } else {
        var more := Decompose(stack, rest, at + 1);
        docs := [Plain(c, more[0])] + more[1..];
        SpellsPlain(more, stack, c, rest);
      }
    }
  }

  lemma SpellsQuoted(docs: seq<Doc>, stack: seq<Open>, rest: string, n: nat)
    requires n < |rest| && rest[n] == '"' && StringBody(rest[..n]) && Spells(docs, stack, rest[n + 1..])
    ensures Spells([Quoted(rest[..n], docs[0])] + docs[1..], stack, ['"'] + rest)
  {
    JoinQuoted(docs, rest[..n], rest[n + 1..], stack);
    SplitAtQuote(rest, n);
  }

  lemma SpellsGroup(docs: seq<Doc>, stack: seq<Open>, open: Open, rest: string)
    requires IsOpening(open.ch) && Spells(docs, stack + [open], rest)
    ensures Spells([Group(open.ch, docs[0], docs[1])] + docs[2..], stack, [open.ch] + rest)
  {
    JoinGroup(docs, open, stack);
  }

  lemma SpellsClosed(docs: seq<Doc>, stack: seq<Open>, rest: string)
    requires stack != [] && Spells(docs, stack[..|stack| - 1], rest)
    ensures Spells([Empty] + docs, stack, [Closer(stack[|stack| - 1].ch)] + rest)
  {
    JoinClosed(docs, stack);
  }

  lemma SpellsPlain(docs: seq<Doc>, stack: seq<Open>, c: char, rest: string)
    requires IsPlain(c) && Spells(docs, stack, rest)
    ensures Spells([Plain(c, docs[0])] + docs[1..], stack, [c] + rest)
  {
    JoinedHead(docs, Plain(c, docs[0]), [c], stack);
  }

  lemma JoinQuoted(docs: seq<Doc>, body: string, after: string, stack: seq<Open>)
    requires |docs| == |stack| + 1 && Joined(docs, stack) == after
    ensures Joined([Quoted(body, docs[0])] + docs[1..], stack) == ['"'] + (body + (['"'] + after))
  {
    Enclosed('"', body, '"', Yield(docs[0]));
    JoinedHead(docs, Quoted(body, docs[0]), ['"'] + (body + ['"']), stack);
    Enclosed('"', body, '"', after);
  }

  lemma JoinGroup(docs: seq<Doc>, open: Open, stack: seq<Open>)
    requires |docs| == |stack| + 2
    ensures Joined([Group(open.ch, docs[0], docs[1])] + docs[2..], stack) == [open.ch] + Joined(docs, stack + [open])
  {
    var more, inner := docs[1..], docs[0];
    var piece := [open.ch] + (Yield(inner) + [Closer(open.ch)]);
    Enclosed(open.ch, Yield(inner), Closer(open.ch), Yield(more[0]));
    JoinedHead(more, Group(open.ch, inner, more[0]), piece, stack);
    Enclosed(open.ch, Yield(inner), Closer(open.ch), Joined(more, stack));
    assert more[1..] == docs[2..];
    JoinedOpen(docs, open, stack);
  }

  lemma JoinedOpen(docs: seq<Doc>, open: Open, stack: seq<Open>)
    requires |docs| == |stack| + 2
    ensures Joined(docs, stack + [open]) == Yield(docs[0]) + ([Closer(open.ch)] + Joined(docs[1..], stack))
  {
    assert (stack + [open])[..|stack|] == stack;
  }

  lemma JoinClosed(docs: seq<Doc>, stack: seq<Open>)
    requires stack != [] && |docs| == |stack|
    ensures Joined([Empty] + docs, stack) == [Closer(stack[|stack| - 1].ch)] + Joined(docs, stack[..|stack| - 1])
  {
    assert ([Empty] + docs)[1..] == docs;
  }

  /** A closing bracket of an accepted text matches the innermost open one. */
  lemma RunClosing(stack: seq<Open>, text: string, at: nat)
    requires text != [] && IsClosing(text[0]) && Run(Going(stack, false, false), text, at) == START
    ensures stack != [] && text[0] == Closer(stack[|stack| - 1].ch)
    ensures Run(Going(stack[..|stack| - 1], false, false), text[1..], at + 1) == START
  {
    var s := Step(Going(stack, false, false), text[0], at);
    if s.Failed? { RunFailed(s.v, text[1..], at + 1); }
  }

  /** Putting a piece in front of the first text. */
  lemma JoinedHead(docs: seq<Doc>, first: Doc, piece: string, stack: seq<Open>)
    requires |docs| == |stack| + 1 && Yield(first) == piece + Yield(docs[0])
    ensures Joined([first] + docs[1..], stack) == piece + Joined(docs, stack)
  {
    var more := [first] + docs[1..];
    assert more[0] == first && more[1..] == docs[1..];
    if stack != [] {
      Regroup(piece, Yield(docs[0]), [Closer(stack[|stack| - 1].ch)] + Joined(docs[1..], stack[..|stack| - 1]));
    }
  }

  /** The check passes exactly on the texts of the grammar. */
  lemma AcceptsExactlyGrammar(text: string)
    ensures VerdictOn(text) == Valid <==> Derivable(text)
  {
    if Derivable(text) {
      var d :| WellFormed(d) && Yield(d) == text;
      RunDoc([], d, 0);
    }
    if VerdictOn(text) == Valid {
      EscapeOnlyInside(START, text, 0);
      FailedIsNotValid(START, text, 0);
      var docs := Decompose([], text, 0);
      assert WellFormed(docs[0]) && Yield(docs[0]) == text;
    }
  }

  ghost predicate Tidy(s: State) { s.Going? && !s.inString ==> !s.escape }

  lemma {:induction false} EscapeOnlyInside(s: State, text: string, at: nat)
    requires Tidy(s)
    ensures Tidy(Run(s, text, at))
    decreases |text|
  {
    if text != [] { EscapeOnlyInside(Step(s, text[0], at), text[1..], at + 1); }
  }

  // ---- where an error is reported

  function Closers(stack: seq<Open>): string {
    if stack == [] then [] else [Closer(stack[|stack| - 1].ch)] + Closers(stack[..|stack| - 1])
  }

  ghost predicate OpeningsOnly(s: State) {
    s.Going? ==> forall i :: 0 <= i < |s.stack| ==> IsOpening(s.stack[i].ch)
  }

  lemma {:induction false} StackHoldsOpenings(s: State, text: string, at: nat)
    requires OpeningsOnly(s)
    ensures OpeningsOnly(Run(s, text, at))
    decreases |text|
  {
    if text != [] { StackHoldsOpenings(Step(s, text[0], at), text[1..], at + 1); }
  }

  lemma {:induction false} RunClosers(stack: seq<Open>, at: nat)
    requires OpeningsOnly(Going(stack, false, false))
    ensures Run(Going(stack, false, false), Closers(stack), at) == START
  {
    if stack != [] {
      var rest, top := stack[..|stack| - 1], stack[|stack| - 1];
      RunStep(Going(stack, false, false), Closer(top.ch), Closers(rest), at);
      RunClosers(rest, at + 1);
    }
  }

  /** Closing an open string and then every open bracket. */
  function Completion(s: State): string
    requires s.Going?
  {
    (if s.escape then "x" else "") + ((if s.inString then "\"" else "") + Closers(s.stack))
  }

  lemma CompletionWorks(s: State, at: nat)
    requires s.Going? && Tidy(s) && OpeningsOnly(s)
    ensures Run(s, Completion(s), at) == START
  {
    var c := Closers(s.stack);
    if s.inString {
      var quoted := "\"" + c;
      assert quoted[1..] == c;
      if s.escape {
        assert ("x" + quoted)[1..] == quoted;
        RunClosers(s.stack, at + 2);
      } else {
        assert "" + quoted == quoted;
        RunClosers(s.stack, at + 1);
      }
    } else {
      assert "" + ("" + c) == c;
      RunClosers(s.stack, at);
    }
  }

  /** Some continuation makes the text pass. */
  ghost predicate Extendable(text: string) { exists more :: VerdictOn(text + more) == Valid }

  /** A text can be completed exactly as long as no bracket has failed. */
  lemma ExtendableIffGoing(text: string)
    ensures Extendable(text) <==> Run(START, text, 0).Going?
  {
    var s := Run(START, text, 0);
    if s.Going? {
      EscapeOnlyInside(START, text, 0);
      StackHoldsOpenings(START, text, 0);
      CompletionWorks(s, |text|);
      RunConcat(START, text, Completion(s), 0);
      assert VerdictOn(text + Completion(s)) == Valid;
    } else {
      forall more ensures VerdictOn(text + more) != Valid {
        RunConcat(START, text, more, 0);
        RunFailed(s.v, more, |text|);
        FailedIsNotValid(START, text, 0);
      }
    }
  }

  lemma {:induction false} FailedIsNotValid(s: State, text: string, at: nat)
    requires s.Failed? ==> s.v != Valid
    ensures Run(s, text, at).Failed? ==> Run(s, text, at).v != Valid
    decreases |text|
  {
    if text != [] { FailedIsNotValid(Step(s, text[0], at), text[1..], at + 1); }
  }

  /** An error with a bracket is reported at the first index whose prefix no continuation can save; otherwise the text
      could still have been completed. */
  lemma ReportsFirstBadPrefix(text: string)
    ensures var v := VerdictOn(text);
            if v.Unmatched? || v.Mismatched?
            then v.at < |text| && v.ch == text[v.at] && !Extendable(text[..v.at + 1])
                 && forall k :: 0 <= k <= v.at ==> Extendable(text[..k])
            else Extendable(text)
  {
    ExtendableIffGoing(text);
    var s := Run(START, text, 0);
    if s.Failed? {
      var n := FailsAt(START, text, 0);
      ExtendableIffGoing(text[..n + 1]);
      forall k | 0 <= k <= n ensures Extendable(text[..k]) {
        GoingBefore(text, n, k);
        ExtendableIffGoing(text[..k]);
      }
    }
  }

  /** The one step at which the machine fails. */
  lemma {:induction false} FailsAt(s: State, text: string, at: nat) returns (n: nat)
    requires s.Going? && Run(s, text, at).Failed?
    ensures n < |text| && Run(s, text[..n], at).Going? && Run(s, text[..n + 1], at) == Run(s, text, at)
    ensures var v := Run(s, text, at).v; (v.Unmatched? || v.Mismatched?) && v.at == at + n && v.ch == text[n]
    decreases |text|
  {
    var t := Step(s, text[0], at);
    if t.Failed? {
      n := 0;
      RunFailed(t.v, text[1..], at + 1);
      assert text[..1][1..] == [];
    } else {
      var m := FailsAt(t, text[1..], at + 1);
      n := m + 1;
      assert text[..n][1..] == text[1..][..m] && text[..n + 1][1..] == text[1..][..m + 1];
    }
  }

  lemma GoingBefore(text: string, n: nat, k: nat)
    requires k <= n <= |text| && Run(START, text[..n], 0).Going?
    ensures Run(START, text[..k], 0).Going?
  {
    assert text[..n] == text[..k] + text[k..n];
    RunConcat(START, text[..k], text[k..n], 0);
    var s := Run(START, text[..k], 0);
    if s.Failed? { RunFailed(s.v, text[k..n], k); }
  }

  // ---- the characters

  /** Three pairs of brackets, each closed by its own. */
  lemma BracketPairs(c: char, d: char)
    ensures IsOpening(c) <==> c in {'(', '[', '{'}
    ensures IsClosing(d) <==> d in {')', ']', '}'}
    ensures IsOpening(c) ==> (Closer(c) == d <==> (c, d) in {('(', ')'), ('[', ']'), ('{', '}')})
  {
  }
}
