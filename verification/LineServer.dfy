/** The server's line buffering: what it dispatches does not depend on how the stream is cut into reads. */
module LineServer {
  const NEWLINE: char := '\n'

  /** What Python's strip removes. */
  predicate IsSpace(c: char) {
    || '\t' <= c <= '\r' || '\U{1C}' <= c <= ' ' || c == '\U{85}' || c == '\U{A0}' || c == '\U{1680}'
    || '\U{2000}' <= c <= '\U{200A}' || c == '\U{2028}' || c == '\U{2029}' || c == '\U{202F}' || c == '\U{205F}' || c == '\U{3000}'
  }

  function StripLeft(s: string): string {
    if s != [] && IsSpace(s[0]) then StripLeft(s[1..]) else s
  }

  function StripRight(s: string): string {
    if s != [] && IsSpace(s[|s| - 1]) then StripRight(s[..|s| - 1]) else s
  }

  function Strip(s: string): string { StripRight(StripLeft(s)) }

  lemma {:induction false} StrippedLeft(s: string) returns (before: string)
    ensures AllSpace(before) && s == before + StripLeft(s) && (StripLeft(s) == [] || !IsSpace(StripLeft(s)[0]))
  {
    before := [];
    if s != [] && IsSpace(s[0]) {
      var b := StrippedLeft(s[1..]);
      before := [s[0]] + b;
      assert s == [s[0]] + s[1..];
    }
  }

  lemma {:induction false} StrippedRight(s: string) returns (after: string)
    ensures AllSpace(after) && s == StripRight(s) + after && (StripRight(s) == [] || !IsSpace(StripRight(s)[|StripRight(s)| - 1]))
  {
    after := [];
    if s != [] && IsSpace(s[|s| - 1]) {
      var a := StrippedRight(s[..|s| - 1]);
      after := a + [s[|s| - 1]];
      assert s == s[..|s| - 1] + [s[|s| - 1]];
    }
  }

  predicate AllSpace(s: string) { forall i :: 0 <= i < |s| ==> IsSpace(s[i]) }

  /** Stripping takes white space off both ends, and all of it. */
  lemma StripExactly(s: string) returns (before: string, after: string)
    ensures AllSpace(before) && AllSpace(after) && s == before + Strip(s) + after
    ensures Strip(s) == [] || (!IsSpace(Strip(s)[0]) && !IsSpace(Strip(s)[|Strip(s)| - 1]))
  {
    before := StrippedLeft(s);
    after := StrippedRight(StripLeft(s));
    assert Strip(s) != [] ==> Strip(s)[0] == StripLeft(s)[0];
  }

  /** The 29 characters that count as white space, by number. */
  lemma WhiteSpace(c: char)
    ensures IsSpace(c) <==> c as int in {9, 10, 11, 12, 13, 28, 29, 30, 31, 32, 133, 160, 5760, 8192, 8193, 8194, 8195, 8196,
                                         8197, 8198, 8199, 8200, 8201, 8202, 8232, 8233, 8239, 8287, 12288}
  {
  }

  /** What a line contributes: itself without outer white space, unless nothing is left. */
  function Dispatched(line: string): seq<string> {
    if Strip(line) == [] then [] else [Strip(line)]
  }

  /** The position of the first newline, or the length. */
  function NewlineAt(s: string): (n: nat)
    ensures n <= |s| && NEWLINE !in s[..n] && (n < |s| ==> s[n] == NEWLINE)
  {
    if s == [] || s[0] == NEWLINE then 0
    else
      var n := NewlineAt(s[1..]);
      assert s[..n + 1] == [s[0]] + s[1..][..n];
      n + 1
  }

  /** The lines of the buffer that are complete, dispatched, and what is left of it. */
  function Drained(buffer: string): (seq<string>, string)
    decreases |buffer|
  {
    var n := NewlineAt(buffer);
    if n == |buffer| then ([], buffer)
    else
      var (lines, rest) := Drained(buffer[n + 1..]);
      (Dispatched(buffer[..n]) + lines, rest)
  }

  lemma {:induction false} DrainedRest(buffer: string)
    ensures NEWLINE !in Drained(buffer).1
    decreases |buffer|
  {
    var n := NewlineAt(buffer);
    if n < |buffer| { DrainedRest(buffer[n + 1..]); } else { assert buffer[..n] == buffer; }
  }

  lemma {:induction false} FirstNewline(s: string, n: nat)
    requires n < |s| && s[n] == NEWLINE && NEWLINE !in s[..n]
    ensures NewlineAt(s) == n
  {
    if n > 0 {
      assert s[..n][0] == s[0] && s[1..][..n - 1] == s[..n][1..];
      FirstNewline(s[1..], n - 1);
    }
  }

  lemma NoNewline(s: string)
    requires NEWLINE !in s
    ensures NewlineAt(s) == |s|
  {
  }

  lemma DrainedLine(s: string, line: string, rest: string)
    requires s == line + ([NEWLINE] + rest) && NEWLINE !in line
    ensures Drained(s).0 == Dispatched(line) + Drained(rest).0 && Drained(s).1 == Drained(rest).1
  {
    var n := |line|;
    assert s[..n] == line && s[n] == NEWLINE && s[n + 1..] == rest;
    FirstNewline(s, n);
  }

  lemma DrainedOpen(s: string)
    requires NEWLINE !in s
    ensures Drained(s).0 == [] && Drained(s).1 == s
  {
    NoNewline(s);
  }

  /** Draining in two goes is draining at once. */
  lemma {:induction false} DrainedConcat(a: string, b: string)
    ensures Drained(a + b).0 == Drained(a).0 + Drained(Drained(a).1 + b).0
    ensures Drained(a + b).1 == Drained(Drained(a).1 + b).1
    decreases |a|
  {
    var n := NewlineAt(a);
    if n == |a| {
      assert a[..|a|] == a;
      DrainedOpen(a);
      Regroup([], [], Drained(a + b).0);
    } else {
      var line, rest := a[..n], a[n + 1..];
      assert a == line + ([NEWLINE] + rest) && a + b == line + ([NEWLINE] + (rest + b));
      DrainedLine(a, line, rest);
      DrainedLine(a + b, line, rest + b);
      DrainedConcat(rest, b);
      Regroup(Dispatched(line), Drained(rest).0, Drained(Drained(rest).1 + b).0);
    }
  }

  lemma Regroup(a: seq<string>, b: seq<string>, c: seq<string>)
    ensures a + (b + c) == (a + b) + c && a + [] == a && [] + c == c
  {
  }

  /** What has been handed on, and what is still to come, is what draining the whole buffer gives. */
  ghost predicate Continues(before: seq<string>, whole: string, dispatched: seq<string>, buffer: string) {
    before + Drained(whole).0 == dispatched + Drained(buffer).0 && Drained(whole).1 == Drained(buffer).1
  }

  lemma LineTaken(before: seq<string>, whole: string, dispatched: seq<string>, buffer: string)
    requires Continues(before, whole, dispatched, buffer) && NEWLINE in buffer
    ensures NewlineAt(buffer) < |buffer|
    ensures var n := NewlineAt(buffer);
            Continues(before, whole, if Strip(buffer[..n]) == [] then dispatched else dispatched + [Strip(buffer[..n])], buffer[n + 1..])
  {
    HasNewline(buffer);
    var n := NewlineAt(buffer);
    Regroup(dispatched, Dispatched(buffer[..n]), Drained(buffer[n + 1..]).0);
  }

  lemma HasNewline(s: string)
    requires NEWLINE in s
    ensures NewlineAt(s) < |s|
  {
    assert s[..|s|] == s;
  }

  class Connection {
    var buffer: string
    /** The messages handed on so far. */
    var dispatched: seq<string>

    constructor ()
      ensures buffer == "" && dispatched == []
    {
      buffer, dispatched := "", [];
    }

    /** One read from the socket. */
    method Receive(data: string)
      modifies this
      ensures dispatched == old(dispatched) + Drained(old(buffer) + data).0
      ensures buffer == Drained(old(buffer) + data).1
    {
      buffer := buffer + data;
      ghost var before, whole := dispatched, buffer;
      while NEWLINE in buffer
        invariant Continues(before, whole, dispatched, buffer)
        decreases |buffer|
      {
        LineTaken(before, whole, dispatched, buffer);
        var n := NewlineAt(buffer);
        var line := buffer[..n];
        buffer := buffer[n + 1..];
        line := Strip(line);
        if line == [] { continue; }
        dispatched := dispatched + [line];
      }
      NoNewline(buffer);
      assert dispatched + [] == dispatched;
    }

    /** Reads until the first empty one, which is the end of the stream. */
    method Handle(chunks: seq<string>)
      requires buffer == "" && dispatched == []
      modifies this
      ensures dispatched == Drained(Flatten(UpToEmpty(chunks))).0 && buffer == Drained(Flatten(UpToEmpty(chunks))).1
    {
      FlattenEmpty();
      var i := 0;
      while i < |chunks|
        invariant i <= |chunks| && [] !in chunks[..i]
        invariant dispatched == Drained(Flatten(chunks[..i])).0 && buffer == Drained(Flatten(chunks[..i])).1
      {
        if chunks[i] == [] {
          UpToEmptyAt(chunks, i);
          return;
        }
        assert chunks[..i + 1] == chunks[..i] + [chunks[i]];
        FlattenSnoc(chunks[..i], chunks[i]);
        DrainedConcat(Flatten(chunks[..i]), chunks[i]);
        Receive(chunks[i]);
        i := i + 1;
      }
      assert chunks[..i] == chunks;
      UpToEmptyNone(chunks);
    }
  }

  function Flatten(chunks: seq<string>): string {
    if chunks == [] then [] else Flatten(chunks[..|chunks| - 1]) + chunks[|chunks| - 1]
  }

  lemma FlattenEmpty()
    ensures Drained(Flatten([])).0 == [] && Drained(Flatten([])).1 == []
  {
  }

  lemma FlattenSnoc(chunks: seq<string>, c: string)
    ensures Flatten(chunks + [c]) == Flatten(chunks) + c
  {
    assert (chunks + [c])[..|chunks|] == chunks;
  }

  function UpToEmpty(chunks: seq<string>): seq<string> {
    if chunks == [] || chunks[0] == [] then [] else [chunks[0]] + UpToEmpty(chunks[1..])
  }

  lemma {:induction false} UpToEmptyAt(chunks: seq<string>, i: nat)
    requires i < |chunks| && chunks[i] == [] && [] !in chunks[..i]
    ensures UpToEmpty(chunks) == chunks[..i]
  {
    if i > 0 {
      assert chunks[..i] == [chunks[0]] + chunks[1..][..i - 1];
      UpToEmptyAt(chunks[1..], i - 1);
    }
  }

  lemma {:induction false} UpToEmptyNone(chunks: seq<string>)
    requires [] !in chunks
    ensures UpToEmpty(chunks) == chunks
  {
    if chunks != [] { UpToEmptyNone(chunks[1..]); }
  }

  // ---- frames

  /** One line with visible characters at both ends. */
  predicate IsBody(s: string) {
    s != [] && NEWLINE !in s && !IsSpace(s[0]) && !IsSpace(s[|s| - 1])
  }

  function Frames(bodies: seq<string>): string {
    if bodies == [] then [] else bodies[0] + ([NEWLINE] + Frames(bodies[1..]))
  }

  lemma BodyStays(s: string)
    requires IsBody(s)
    ensures Dispatched(s) == [s]
  {
  }

  /** Draining framed bodies gives the bodies, in order, and leaves nothing. */
  lemma {:induction false} DrainedFrames(bodies: seq<string>)
    requires forall b :: b in bodies ==> IsBody(b)
    ensures Drained(Frames(bodies)).0 == bodies && Drained(Frames(bodies)).1 == []
  {
    if bodies != [] {
      assert bodies[0] in bodies;
      var b, rest := bodies[0], Frames(bodies[1..]);
      var s := Frames(bodies);
      assert s[..|b|] == b && s[|b|] == NEWLINE && s[|b| + 1..] == rest;
      FirstNewline(s, |b|);
      BodyStays(b);
      DrainedFrames(bodies[1..]);
    }
  }

  /** However the stream of frames is cut into non-empty reads, exactly their bodies are dispatched, in order, and
      nothing is left in the buffer. */
  lemma FramesDelivered(bodies: seq<string>, chunks: seq<string>)
    requires (forall b :: b in bodies ==> IsBody(b)) && Flatten(chunks) == Frames(bodies) && [] !in chunks
    ensures Drained(Flatten(UpToEmpty(chunks))).0 == bodies && Drained(Flatten(UpToEmpty(chunks))).1 == []
  {
    UpToEmptyNone(chunks);
    DrainedFrames(bodies);
  }
}
