/** Cutting a text into characters to print and escape sequences to obey. */
module EscapeParsing {
  import opened Sequences
  import opened TerminalScreen

  const ESC: char := '\U{1B}'

  datatype Command = Put(ch: char) | Csi(code: string) | SaveCursor | RestoreCursor

  predicate IsAlphabetic(c: char) { 'a' <= c <= 'z' || 'A' <= c <= 'Z' }

  predicate IsFinal(c: char) { IsAlphabetic(c) || c == '@' }

  predicate IsParameter(c: char) { IsDigit(c) || c == ';' || c == '?' }

  /** How many characters belong to the control sequence: parameters and, if it comes, one final character. */
  function CsiLength(t: string): (n: nat)
    ensures n <= |t|
  {
    if t == [] then 0
    else if IsFinal(t[0]) then 1
    else if IsParameter(t[0]) then 1 + CsiLength(t[1..])
    else 0
  }

  function Parse(s: string): seq<Command>
    decreases |s|
  {
    if s == [] then []
    else if s[0] == ESC && |s| > 1 && s[1] == '[' then
      var n := CsiLength(s[2..]);
      [Csi(s[2..2 + n])] + Parse(s[2 + n..])
    else if s[0] == ESC && |s| > 1 && s[1] == '7' then [SaveCursor] + Parse(s[2..])
    else if s[0] == ESC && |s| > 1 && s[1] == '8' then [RestoreCursor] + Parse(s[2..])
    else [Put(s[0])] + Parse(s[1..])
  }

  function Obey(s: Screen, c: Command): Screen
    requires Valid(s)
  {
    match c
    case Put(ch) => PutChar(s, ch)
    case Csi(code) => HandleCsi(s, code)
    case SaveCursor => Saved(s)
    case RestoreCursor => Restored(s)
  }

  lemma ObeyValid(s: Screen, c: Command)
    requires Valid(s)
    ensures Valid(Obey(s, c))
  {
    match c
    case Put(ch) => PutCharValid(s, ch);
    case Csi(code) => HandleCsiValid(s, code);
    case SaveCursor =>
    case RestoreCursor =>
  }

  ghost function ObeyAll(s: Screen, cs: seq<Command>): (r: Screen)
    requires Valid(s)
    ensures Valid(r)
    decreases |cs|
  {
    if cs == [] then s else (ObeyValid(s, cs[0]); ObeyAll(Obey(s, cs[0]), cs[1..]))
  }

  ghost function Written(s: Screen, text: string): (r: Screen)
    requires Valid(s)
    ensures Valid(r)
  {
    ObeyAll(s, Parse(text))
  }

  lemma {:induction false} ObeyConcat(s: Screen, a: seq<Command>, b: seq<Command>)
    requires Valid(s)
    ensures ObeyAll(s, a + b) == ObeyAll(ObeyAll(s, a), b)
    decreases |a|
  {
    if a == [] {
      assert a + b == b;
    } else {
      ObeyValid(s, a[0]);
      assert (a + b)[0] == a[0] && (a + b)[1..] == a[1..] + b;
      ObeyConcat(Obey(s, a[0]), a[1..], b);
    }
  }

  // ---- writing in pieces

  /** The control sequence is still open: all parameters, no final character yet. */
  predicate CsiOpen(t: string) {
    forall i :: 0 <= i < |t| ==> IsParameter(t[i])
  }

  /** The text does not stop inside an escape sequence. */
  predicate EndsOutside(s: string)
    decreases |s|
  {
    if s == [] then true
    else if s == [ESC] then false
    else if s[0] == ESC && s[1] == '[' then !CsiOpen(s[2..]) && EndsOutside(s[2 + CsiLength(s[2..])..])
    else if s[0] == ESC && (s[1] == '7' || s[1] == '8') then EndsOutside(s[2..])
    else EndsOutside(s[1..])
  }

  lemma {:induction false} CsiLengthClosed(t: string, b: string)
    requires !CsiOpen(t)
    ensures CsiLength(t + b) == CsiLength(t)
  {
    assert (t + b)[0] == t[0];
    if IsParameter(t[0]) && !IsFinal(t[0]) {
      assert (t + b)[1..] == t[1..] + b;
      assert !CsiOpen(t[1..]) by {
        var i :| 0 <= i < |t| && !IsParameter(t[i]);
        assert t[1..][i - 1] == t[i];
      }
      CsiLengthClosed(t[1..], b);
    }
  }

  /** How many characters the first command takes. */
  function FirstLength(s: string): (n: nat)
    requires s != []
    ensures 0 < n <= |s|
  {
    if s[0] == ESC && |s| > 1 && s[1] == '[' then 2 + CsiLength(s[2..])
    else if s[0] == ESC && |s| > 1 && (s[1] == '7' || s[1] == '8') then 2
    else 1
  }

  function First(s: string): Command
    requires s != []
  {
    if s[0] == ESC && |s| > 1 && s[1] == '[' then Csi(s[2..2 + CsiLength(s[2..])])
    else if s[0] == ESC && |s| > 1 && s[1] == '7' then SaveCursor
    else if s[0] == ESC && |s| > 1 && s[1] == '8' then RestoreCursor
    else Put(s[0])
  }

  lemma ParseFirst(s: string)
    requires s != []
    ensures Parse(s) == [First(s)] + Parse(s[FirstLength(s)..])
  {
  }

  /** The first command of the text is complete. */
  predicate FirstCloses(s: string)
    requires s != []
  {
    s != [ESC] && (s[0] == ESC && s[1] == '[' ==> !CsiOpen(s[2..]))
  }

  lemma FirstStays(a: string, b: string)
    requires a != [] && FirstCloses(a)
    ensures First(a + b) == First(a) && FirstLength(a + b) == FirstLength(a)
    ensures (a + b)[FirstLength(a)..] == a[FirstLength(a)..] + b
  {
    var s := a + b;
    assert s[0] == a[0] && (|a| > 1 ==> s[1] == a[1]);
    if a[0] == ESC && a[1] == '[' {
      assert s[2..] == a[2..] + b;
      CsiLengthClosed(a[2..], b);
      var n := CsiLength(a[2..]);
      assert s[2..2 + n] == a[2..2 + n];
    }
  }

  /** A text that stops outside any escape sequence can be cut there. */
  lemma {:induction false} ParseConcat(a: string, b: string)
    requires EndsOutside(a)
    ensures Parse(a + b) == Parse(a) + Parse(b)
    decreases |a|
  {
    if a == [] {
      assert a + b == b;
    } else {
      FirstStays(a, b);
      ParseFirst(a);
      ParseFirst(a + b);
      ParseConcat(a[FirstLength(a)..], b);
      Regroup([First(a)], Parse(a[FirstLength(a)..]), Parse(b));
    }
  }

  /** Writing a text in two pieces is writing it whole, for every screen, whenever the first piece is complete. */
  lemma WrittenInPieces(s: Screen, a: string, b: string)
    requires Valid(s) && EndsOutside(a)
    ensures Written(s, a + b) == Written(Written(s, a), b)
  {
    ParseConcat(a, b);
    ObeyConcat(s, Parse(a), Parse(b));
  }

  // ---- a text that stops inside a sequence

  lemma {:induction false} OpenLength(t: string, c: char)
    requires CsiOpen(t) && IsFinal(c)
    ensures CsiLength(t) == |t| && CsiLength(t + [c]) == |t| + 1
  {
    if t == [] {
      assert t + [c] == [c];
    } else {
      assert CsiOpen(t[1..]) by { assert forall i :: 0 <= i < |t[1..]| ==> t[1..][i] == t[i + 1]; }
      OpenLength(t[1..], c);
      assert (t + [c])[1..] == t[1..] + [c];
    }
  }

  lemma FirstObeyed(s: Screen, a: string)
    requires Valid(s) && a != []
    ensures Valid(Obey(s, First(a))) && Written(s, a) == Written(Obey(s, First(a)), a[FirstLength(a)..])
  {
    ObeyValid(s, First(a));
    ParseFirst(a);
  }

  lemma NoEffect(s: Screen, code: string)
    requires Valid(s) && (code != [] ==> IsParameter(code[|code| - 1]) || code[|code| - 1] in {'y', 'z'})
    ensures HandleCsi(s, code) == s
  {
  }

  lemma WholeControl(s: Screen, a: string)
    requires Valid(s) && |a| >= 2 && a[0] == ESC && a[1] == '[' && CsiLength(a[2..]) == |a| - 2
    ensures Written(s, a) == HandleCsi(s, a[2..])
  {
    FirstObeyed(s, a);
    assert a[2..2 + (|a| - 2)] == a[2..] && a[|a|..] == [];
  }

  /** A sequence that is still open, or ends in a letter without a function, does nothing. */
  lemma NoFunction(s: Screen, a: string, c: char)
    requires Valid(s) && |a| >= 2 && a[0] == ESC && a[1] == '[' && CsiOpen(a[2..]) && c in {'y', 'z'}
    ensures Written(s, a) == s && Written(s, a + [c]) == s
  {
    var b := a + [c];
    OpenLength(a[2..], c);
    assert b[0] == ESC && b[1] == '[' && b[2..] == a[2..] + [c];
    WholeControl(s, a);
    WholeControl(s, b);
    NoEffect(s, a[2..]);
    NoEffect(s, b[2..]);
  }

  lemma LettersDiffer(s: Screen)
    requires Valid(s)
    ensures PutChar(s, 'y') != PutChar(s, 'z')
  {
    var y, z := PutChar(s, 'y'), PutChar(s, 'z');
    assert y.grid[y.row][y.col - 1].ch == 'y' && z.grid[z.row][z.col - 1].ch == 'z';
  }

  lemma WrittenChar(s: Screen, c: char)
    requires Valid(s) && c != ESC
    ensures Valid(PutChar(s, c)) && Written(s, [c]) == PutChar(s, c)
  {
    FirstObeyed(s, [c]);
    assert [c][1..] == [];
  }

  lemma LoneEscape(s: Screen) returns (b: string)
    requires Valid(s)
    ensures Written(s, [ESC] + b) != Written(Written(s, [ESC]), b)
  {
    FirstObeyed(s, [ESC]);
    assert [ESC][1..] == [] && Written(s, [ESC]) == s;
    WrittenChar(s, '[');
    var t := PutChar(s, '[');
    LettersDiffer(t);
    var c := if PutChar(t, 'z') != s then 'z' else 'y';
    b := ['[', c];
    NoFunction(s, [ESC, '['], c);
    assert [ESC] + b == [ESC, '['] + [c];
    WrittenInPieces(s, ['['], [c]);
    WrittenChar(t, c);
    assert ['['] + [c] == b;
  }

  lemma OpenSequence(s: Screen, a: string) returns (b: string)
    requires Valid(s) && |a| >= 2 && a[0] == ESC && a[1] == '[' && CsiOpen(a[2..])
    ensures Written(s, a + b) != Written(Written(s, a), b)
  {
    LettersDiffer(s);
    var c := if PutChar(s, 'z') != s then 'z' else 'y';
    b := [c];
    NoFunction(s, a, c);
    WrittenChar(s, c);
  }

  /** Some continuation shows, on whatever screen, that the text stopped inside a sequence. */
  lemma {:induction false} NotInPieces(s: Screen, a: string) returns (b: string)
    requires Valid(s) && !EndsOutside(a)
    ensures Written(s, a + b) != Written(Written(s, a), b)
    decreases |a|
  {
    if a == [ESC] {
      b := LoneEscape(s);
    } else if a[0] == ESC && a[1] == '[' && CsiOpen(a[2..]) {
      b := OpenSequence(s, a);
    } else {
      ObeyValid(s, First(a));
      b := NotInPieces(Obey(s, First(a)), a[FirstLength(a)..]);
      FirstStays(a, b);
      FirstObeyed(s, a);
      FirstObeyed(s, a + b);
    }
  }

  /** On any screen, a text can be cut off from every continuation exactly when it stops outside escape sequences; and
      that is exactly when its commands and theirs do not mix. */
  lemma CutsExactlyOutside(s: Screen, a: string)
    requires Valid(s)
    ensures EndsOutside(a) <==> forall b :: Written(s, a + b) == Written(Written(s, a), b)
    ensures EndsOutside(a) <==> forall b :: Parse(a + b) == Parse(a) + Parse(b)
  {
    if EndsOutside(a) {
      forall b ensures Parse(a + b) == Parse(a) + Parse(b) { ParseConcat(a, b); }
      forall b ensures Written(s, a + b) == Written(Written(s, a), b) { WrittenInPieces(s, a, b); }
    } else {
      var b := NotInPieces(s, a);
      ObeyConcat(s, Parse(a), Parse(b));
      assert Parse(a + b) != Parse(a) + Parse(b);
    }
  }
}
