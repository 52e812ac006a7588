/** The terminal buffer as the emulator updates it, method by method against the screen's functions. */
module TerminalBuffers {
  import opened Wrappers
  import opened Shifting
  import opened TerminalScreen
  import opened EscapeParsing

  /** The control sequence that starts at i, and where it ends. */
  method TakeCsi(s: string, i: nat) returns (code: string, j: nat)
    requires i <= |s|
    ensures j == i + CsiLength(s[i..]) && code == s[i..j]
  {
    code, j := "", i;
    while j < |s|
      invariant i <= j <= |s| && code == s[i..j]
      invariant i + CsiLength(s[i..]) == j + CsiLength(s[j..])
    {
      var c := s[j];
      assert s[j..][0] == c && s[j..][1..] == s[j + 1..];
      if IsAlphabetic(c) || c == '?' || c == '@' {
        code := code + [c];
        j := j + 1;
        if IsAlphabetic(c) || c == '@' { return; }
      } else if IsDigit(c) || c == ';' {
        code := code + [c];
        j := j + 1;
      } else {
        return;
      }
    }
  }

  /** The attribute codes of one sequence, left to right. */
  method ReadAttributes(pen: Pen, tokens: seq<string>) returns (p: Pen)
    ensures p == Attributes(pen, tokens, 0)
  {
    p := pen;
    var i := 0;
    while i < |tokens|
      invariant Attributes(pen, tokens, 0) == Attributes(p, tokens, i)
      decreases |tokens| - i
    {
      var code := Number(tokens[i], SHORT, 0);
      var j := i + 1;
      if code == 38 || code == 48 {
        var (color, taken) := Extended(tokens, i);
        if color.Some? {
          p := if code == 38 then p.(fg := color.value) else p.(bg := color.value);
        }
        j := j + taken;
      } else {
        p := Attribute(p, code);
      }
      i := j;
    }
  }

  method InsertLoop<T>(s: seq<T>, at: nat, x: T, n: nat) returns (r: seq<T>)
    requires at < |s|
    ensures r == InsertTimes(s, at, x, n)
  {
    r := s;
    for i := 0 to n
      invariant r == InsertTimes(s, at, x, i)
    {
      r := r[..at] + [x] + r[at..];
      r := r[..|s|];
    }
  }

  method DeleteLoop<T>(s: seq<T>, at: nat, x: T, n: nat) returns (r: seq<T>)
    requires at < |s|
    ensures r == DeleteTimes(s, at, x, n)
  {
    r := s;
    for i := 0 to n
      invariant r == DeleteTimes(s, at, x, i)
    {
      r := r[..at] + r[at + 1..];
      r := r + [x];
    }
  }

  class TerminalBuffer {
    var cols: nat
    var rows: nat
    var cursorRow: nat
    var cursorCol: nat
    var grid: seq<seq<Cell>>
    var scrollback: seq<seq<Cell>>
    var inAlternateScreen: bool
    var savedRow: nat
    var savedCol: nat
    var pen: Pen

    function View(): Screen
      reads this
    {
      Screen(cols, rows, cursorRow, cursorCol, grid, scrollback, inAlternateScreen, savedRow, savedCol, pen)
    }

    constructor (cols: nat, rows: nat)
      ensures View() == Fresh(cols, rows) && Valid(View())
    {
      var c, r := AtLeastOne(cols), AtLeastOne(rows);
      this.cols, this.rows, cursorRow, cursorCol := c, r, 0, 0;
      grid, scrollback, inAlternateScreen := Repeat(BlankRow(c), r), [], false;
      savedRow, savedCol, pen := 0, 0, PLAIN;
    }

    method Resize(newCols: nat, newRows: nat)
      requires Valid(View())
      modifies this
      ensures Valid(View()) && View() == Resized(old(View()), newCols, newRows)
    {
      ResizedValid(View(), newCols, newRows);
      ghost var s := View();
      var c, r := AtLeastOne(newCols), AtLeastOne(newRows);
      var next := Repeat(BlankRow(c), r);
      for i := 0 to Min(rows, r)
        invariant View() == s && Valid(s)
        invariant |next| == r && forall a :: 0 <= a < r ==> |next[a]| == c
        invariant forall a, b :: 0 <= a < i && 0 <= b < c ==> next[a][b] == if b < s.cols then s.grid[a][b] else BLANK
        invariant forall a :: i <= a < r ==> next[a] == BlankRow(c)
      {
        var line := CopyRow(next[i], grid[i]);
        next := next[i := line];
      }
      SameGrid(s, newCols, newRows, next);
      cols, rows, grid := c, r, next;
      cursorRow := Min(cursorRow, r - 1);
      cursorCol := Min(cursorCol, c - 1);
    }

    static lemma SameGrid(s: Screen, newCols: nat, newRows: nat, next: seq<seq<Cell>>)
      requires Valid(s)
      requires var c, r := AtLeastOne(newCols), AtLeastOne(newRows);
               && |next| == r && (forall a :: 0 <= a < r ==> |next[a]| == c)
               && (forall a, b :: 0 <= a < Min(s.rows, r) && 0 <= b < c ==> next[a][b] == if b < s.cols then s.grid[a][b] else BLANK)
               && (forall a :: Min(s.rows, r) <= a < r ==> next[a] == BlankRow(c))
      ensures next == Resized(s, newCols, newRows).grid
    {
      var grid := Resized(s, newCols, newRows).grid;
      forall a | 0 <= a < |next| ensures next[a] == grid[a] { }
    }

    /** The cells of the old row, as far as both rows reach. */
    static method CopyRow(blank: seq<Cell>, from: seq<Cell>) returns (line: seq<Cell>)
      ensures |line| == |blank| && forall j :: 0 <= j < |blank| ==> line[j] == if j < |from| then from[j] else blank[j]
    {
      line := blank;
      for j := 0 to Min(|from|, |blank|)
        invariant |line| == |blank| && forall k :: 0 <= k < |blank| ==> line[k] == if k < j then from[k] else blank[k]
      {
        line := line[j := from[j]];
      }
    }

    method NewLine()
      requires Valid(View())
      modifies this
      ensures Valid(View()) && View() == TerminalScreen.NewLine(old(View()))
    {
      NewLineValid(View());
      if cursorRow + 1 < rows {
        cursorRow := cursorRow + 1;
      } else {
        if !inAlternateScreen {
          scrollback := scrollback + [grid[0]];
          if |scrollback| > SCROLLBACK_LIMIT {
            scrollback := scrollback[1..];
          }
        }
        grid := grid[1..];
        grid := grid + [BlankRow(cols)];
      }
    }

    method PutChar(ch: char)
      requires Valid(View())
      modifies this
      ensures Valid(View()) && View() == TerminalScreen.PutChar(old(View()), ch)
    {
      PutCharValid(View(), ch);
      if ch == '\r' {
        cursorCol := 0;
      } else if ch == '\n' {
        cursorCol := 0;
        NewLine();
      } else if ch == '\t' {
        var nextTab := (cursorCol / 8 + 1) * 8;
        cursorCol := Min(nextTab, cols - 1);
      } else if ch == '\U{8}' {
        if cursorCol > 0 { cursorCol := cursorCol - 1; }
      } else if ch >= ' ' {
        if cursorCol >= cols {
          cursorCol := 0;
          NewLine();
        }
        if cursorRow < rows && cursorCol < cols {
          grid := grid[cursorRow := grid[cursorRow][cursorCol := Cell(ch, pen)]];
          cursorCol := cursorCol + 1;
        }
      }
    }

    method ClearScreen()
      requires Valid(View())
      modifies this
      ensures Valid(View()) && View() == Cleared(old(View()))
    {
      for r := 0 to rows
        invariant Valid(View()) && rows == old(rows)
        invariant View() == old(View()).(grid := grid)
        invariant forall a :: 0 <= a < r ==> grid[a] == BlankRow(cols)
      {
        var line := EraseLoop(grid[r], 0, cols);
        grid := grid[r := line];
        assert line == BlankRow(cols);
      }
      assert grid == Repeat(BlankRow(cols), rows);
      cursorRow, cursorCol := 0, 0;
    }

    static method EraseLoop(line: seq<Cell>, from: nat, to: nat) returns (r: seq<Cell>)
      requires to <= |line|
      ensures r == Erased(line, from, to)
    {
      r := line;
      var c := from;
      while c < to
        invariant from <= c && |r| == |line|
        invariant forall k :: 0 <= k < |line| ==> r[k] == if from <= k < c && k < to then BLANK else line[k]
      {
        r := r[c := BLANK];
        c := c + 1;
      }
    }

    method ClearLine(mode: nat)
      requires Valid(View())
      modifies this
      ensures Valid(View()) && View() == LineCleared(old(View()), mode)
    {
      ErasingValid(View(), mode);
      if mode == 0 {
        var line := EraseLoop(grid[cursorRow], cursorCol, cols);
        grid := grid[cursorRow := line];
      } else if mode == 1 {
        var line := EraseLoop(grid[cursorRow], 0, Min(cursorCol, cols - 1) + 1);
        grid := grid[cursorRow := line];
      } else if mode == 2 {
        var line := EraseLoop(grid[cursorRow], 0, cols);
        grid := grid[cursorRow := line];
      }
    }

    method InsertLines(n: nat)
      requires Valid(View())
      modifies this
      ensures Valid(View()) && View() == LinesInserted(old(View()), n)
    {
      ShiftValid(View(), n);
      grid := InsertLoop(grid, cursorRow, BlankRow(cols), n);
    }

    method DeleteLines(n: nat)
      requires Valid(View())
      modifies this
      ensures Valid(View()) && View() == LinesDeleted(old(View()), n)
    {
      ShiftValid(View(), n);
      grid := DeleteLoop(grid, cursorRow, BlankRow(cols), n);
    }

    method InsertChars(n: nat)
      requires Valid(View())
      modifies this
      ensures Valid(View()) && View() == CharsInserted(old(View()), n)
    {
      ShiftValid(View(), n);
      if cursorCol < cols {
        var line := InsertLoop(grid[cursorRow], cursorCol, BLANK, n);
        grid := grid[cursorRow := line];
      }
    }

    method DeleteChars(n: nat)
      requires Valid(View())
      modifies this
      ensures Valid(View()) && View() == CharsDeleted(old(View()), n)
    {
      ShiftValid(View(), n);
      if cursorCol < cols {
        var line := DeleteLoop(grid[cursorRow], cursorCol, BLANK, n);
        grid := grid[cursorRow := line];
      }
    }

    method SaveCursor()
      requires Valid(View())
      modifies this
      ensures Valid(View()) && View() == Saved(old(View()))
    {
      savedRow, savedCol := cursorRow, cursorCol;
    }

    method RestoreCursor()
      requires Valid(View())
      modifies this
      ensures Valid(View()) && View() == Restored(old(View()))
    {
      cursorRow := Min(savedRow, rows - 1);
      cursorCol := Min(savedCol, cols - 1);
    }

    method GoTo(body: string)
      requires Valid(View())
      modifies this
      ensures Valid(View()) && View() == Position(old(View()), body)
    {
      var parts := Split(body);
      var row: int := Number(parts[0], WORD, 1);
      var col: int := if |parts| > 1 then Number(parts[1], WORD, 1) else 1;
      cursorRow := Clamp(row - 1, rows);
      cursorCol := Clamp(col - 1, cols);
    }

    method MoveCursor(body: string, final: char)
      requires Valid(View())
      modifies this
      ensures Valid(View()) && View() == CursorCode(old(View()), body, final)
    {
      CursorCodeValid(View(), body, final);
      var n: int := Count(body);
      match final {
        case 'H' => GoTo(body);
        case 'f' => GoTo(body);
        case 'A' => cursorRow := Clamp(cursorRow - n, rows);
        case 'B' => cursorRow := Clamp(cursorRow + n, rows);
        case 'C' => cursorCol := Clamp(cursorCol + n, cols);
        case 'D' => cursorCol := if n < cursorCol then cursorCol - n else 0;
        case 'G' => cursorCol := Clamp(Number(body, WORD, 1) - 1, cols);
        case 's' => if body == [] || body[0] != '?' { SaveCursor(); }
        case 'u' => if body == [] || body[0] != '?' { RestoreCursor(); }
        case _ =>
      }
    }

    method Edit(body: string, final: char)
      requires Valid(View())
      modifies this
      ensures Valid(View()) && View() == EditCode(old(View()), body, final)
    {
      if final == 'J' {
        if Number(body, BYTE, 0) == 2 { ClearScreen(); }
      } else if final == 'K' {
        ClearLine(Number(body, BYTE, 0));
      } else if final == 'L' {
        InsertLines(Count(body));
      } else if final == 'M' {
        DeleteLines(Count(body));
      } else if final == '@' {
        InsertChars(Count(body));
      } else if final == 'P' {
        DeleteChars(Count(body));
      } else if final == 'h' {
        if body == "?1049" {
          inAlternateScreen := true;
          savedRow, savedCol := cursorRow, cursorCol;
          ClearScreen();
        }
      } else if final == 'l' {
        if body == "?1049" {
          inAlternateScreen := false;
          RestoreCursor();
        }
      }
    }

    method HandleCsi(code: string)
      requires Valid(View())
      modifies this
      ensures Valid(View()) && View() == TerminalScreen.HandleCsi(old(View()), code)
    {
      if code == [] { return; }
      var body, final := code[..|code| - 1], code[|code| - 1];
      if final == 'm' {
        if body == [] {
          pen := PLAIN;
        } else {
          pen := ReadAttributes(pen, Split(body));
        }
      } else if final in "HfABCDGsu" {
        MoveCursor(body, final);
      } else {
        Edit(body, final);
      }
    }

    /** The command at the start of the rest of the text, carried out. */
    method WriteFirst(s: string, i: nat) returns (j: nat)
      requires Valid(View()) && i < |s|
      modifies this
      ensures Valid(View()) && View() == Obey(old(View()), First(s[i..])) && j == i + FirstLength(s[i..])
    {
      ghost var rest := s[i..];
      assert rest[0] == s[i] && (i + 1 < |s| ==> rest[1] == s[i + 1]);
      if s[i] == ESC && i + 1 < |s| && s[i + 1] == '[' {
        assert rest[2..] == s[i + 2..];
        var code;
        code, j := TakeCsi(s, i + 2);
        assert rest[2..2 + CsiLength(rest[2..])] == code;
        HandleCsi(code);
      } else if s[i] == ESC && i + 1 < |s| && s[i + 1] == '7' {
        SaveCursor();
        j := i + 2;
      } else if s[i] == ESC && i + 1 < |s| && s[i + 1] == '8' {
        RestoreCursor();
        j := i + 2;
      } else {
        PutChar(s[i]);
        j := i + 1;
      }
    }

    method WriteStr(s: string)
      requires Valid(View())
      modifies this
      ensures Valid(View()) && View() == Written(old(View()), s)
    {
      var i := 0;
      assert s[0..] == s;
      while i < |s|
        invariant i <= |s| && Valid(View())
        invariant Written(old(View()), s) == Written(View(), s[i..])
        decreases |s| - i
      {
        ghost var rest := s[i..];
        WrittenFirst(View(), rest);
        assert rest[FirstLength(rest)..] == s[i + FirstLength(rest)..];
        i := WriteFirst(s, i);
      }
    }
  }

  lemma WrittenFirst(s: Screen, text: string)
    requires Valid(s) && text != []
    ensures Valid(Obey(s, First(text))) && Written(s, text) == Written(Obey(s, First(text)), text[FirstLength(text)..])
  {
    ParseFirst(text);
    ObeyValid(s, First(text));
    assert Parse(text)[1..] == Parse(text[FirstLength(text)..]);
  }

  // ---- runs of resizing and writing

  datatype Op = ResizeTo(cols: nat, rows: nat) | Write(text: string)

  ghost function Done(s: Screen, op: Op): (r: Screen)
    requires Valid(s)
    ensures Valid(r)
  {
    match op
    case ResizeTo(cols, rows) => (ResizedValid(s, cols, rows); Resized(s, cols, rows))
    case Write(text) => Written(s, text)
  }

  /** The screen after any interleaving of the two; the function's contract is that it stays valid throughout. */
  ghost function AfterAll(s: Screen, ops: seq<Op>): (r: Screen)
    requires Valid(s)
    ensures Valid(r)
  {
    if ops == [] then s else Done(AfterAll(s, ops[..|ops| - 1]), ops[|ops| - 1])
  }
}
