/** What each control sequence and control character does, for every screen and every parameter. */
module ControlLaws {
  import opened Numbers
  import opened Sequences
  import opened Wrappers
  import opened Shifting
  import opened TerminalScreen
  import opened EscapeParsing

  // ---- parameters

  lemma {:induction false} NumeralReads(n: nat)
    ensures Digits(DecimalText(n)) == Some(n)
  {
    var t := DecimalText(n);
    if n >= 10 {
      NumeralReads(n / 10);
      assert t[..|t| - 1] == DecimalText(n / 10);
    }
  }

  lemma CountOf(n: nat)
    requires 1 <= n < 0x1_0000_0000_0000_0000
    ensures Count(DecimalText(n)) == n
  {
    NumeralReads(n);
  }

  lemma Ends(body: string, c: char)
    ensures (body + [c])[..|body + [c]| - 1] == body && (body + [c])[|body + [c]| - 1] == c
  {
  }

  lemma {:induction false} SplitOne(t: string)
    requires ';' !in t
    ensures Split(t) == [t]
  {
    if t != [] {
      SplitOne(t[..|t| - 1]);
      assert t == t[..|t| - 1] + [t[|t| - 1]];
    }
  }

  lemma {:induction false} SplitMore(t: string, u: string)
    requires ';' !in u
    ensures Split(t + ([';'] + u)) == Split(t) + [u]
  {
    var s := t + ([';'] + u);
    if u == [] {
      assert s[..|s| - 1] == t && s[|s| - 1] == ';';
    } else {
      var v := u[..|u| - 1];
      SplitMore(t, v);
      assert s[..|s| - 1] == t + ([';'] + v) && s[|s| - 1] == u[|u| - 1];
      assert u == v + [u[|u| - 1]];
    }
  }

  lemma {:induction false} ParameterLength(body: string, c: char, rest: string)
    requires (forall i :: 0 <= i < |body| ==> IsParameter(body[i])) && IsFinal(c) && !IsParameter(c)
    ensures CsiLength(body + ([c] + rest)) == |body| + 1
  {
    var t := body + ([c] + rest);
    if body == [] {
      assert t[0] == c;
    } else {
      assert t[0] == body[0] && t[1..] == body[1..] + ([c] + rest);
      ParameterLength(body[1..], c, rest);
    }
  }

  /** A control sequence is an escape, a bracket, any digits, semicolons and question marks, and one letter or @. */
  lemma SequenceParsed(body: string, c: char, rest: string)
    requires forall i :: 0 <= i < |body| ==> '0' <= body[i] <= '9' || body[i] == ';' || body[i] == '?'
    requires 'a' <= c <= 'z' || 'A' <= c <= 'Z' || c == '@'
    ensures Parse([ESC, '['] + (body + ([c] + rest))) == [Csi(body + [c])] + Parse(rest)
    ensures ESC as int == 27
  {
    var t := body + ([c] + rest);
    var s := [ESC, '['] + t;
    ParameterLength(body, c, rest);
    assert s[0] == ESC && s[1] == '[' && s[2..] == t;
    assert s[2..2 + |body| + 1] == body + [c] && s[2 + |body| + 1..] == rest;
  }

  // ---- moving the cursor

  /** Up and down by n rows, right and left by n columns, as far as the screen goes; nothing else changes. */
  lemma CursorMoves(s: Screen, n: nat)
    requires Valid(s) && 1 <= n < 0x1_0000_0000_0000_0000
    ensures HandleCsi(s, DecimalText(n) + ['A']) == s.(row := if n <= s.row then s.row - n else 0)
    ensures HandleCsi(s, DecimalText(n) + ['B']) == s.(row := if s.row + n < s.rows then s.row + n else s.rows - 1)
    ensures HandleCsi(s, DecimalText(n) + ['C']) == s.(col := if s.col + n < s.cols then s.col + n else s.cols - 1)
    ensures HandleCsi(s, DecimalText(n) + ['D']) == s.(col := if n <= s.col then s.col - n else 0)
  {
    CountOf(n);
    Ends(DecimalText(n), 'A');
    Ends(DecimalText(n), 'B');
    Ends(DecimalText(n), 'C');
    Ends(DecimalText(n), 'D');
  }

  /** Where there was room, going up undoes going down and the other way round, and left undoes right. */
  lemma MovesUndo(s: Screen, n: nat)
    requires Valid(s) && 1 <= n < 0x1_0000_0000_0000_0000
    ensures s.row + n < s.rows ==>
              Valid(HandleCsi(s, DecimalText(n) + ['B'])) && HandleCsi(HandleCsi(s, DecimalText(n) + ['B']), DecimalText(n) + ['A']) == s
    ensures n <= s.row ==>
              Valid(HandleCsi(s, DecimalText(n) + ['A'])) && HandleCsi(HandleCsi(s, DecimalText(n) + ['A']), DecimalText(n) + ['B']) == s
    ensures s.col + n < s.cols ==>
              Valid(HandleCsi(s, DecimalText(n) + ['C'])) && HandleCsi(HandleCsi(s, DecimalText(n) + ['C']), DecimalText(n) + ['D']) == s
  {
    CursorMoves(s, n);
    if s.row + n < s.rows { CursorMoves(s.(row := s.row + n), n); }
    if n <= s.row { CursorMoves(s.(row := s.row - n), n); }
    if s.col + n < s.cols { CursorMoves(s.(col := s.col + n), n); }
  }

  /** Without a number the count is one. */
  lemma OneByDefault(s: Screen, c: char)
    requires Valid(s) && c in {'A', 'B', 'C', 'D', 'L', 'M', '@', 'P'}
    ensures HandleCsi(s, [c]) == HandleCsi(s, ['1', c])
  {
    Ends([], c);
    Ends(['1'], c);
    assert [] + [c] == [c] && ['1'] + [c] == ['1', c];
    assert Count([]) == 1 && Count(['1']) == 1;
  }

  function Place(n: nat, bound: nat): nat
    requires bound >= 1
  {
    if n == 0 then 0 else if n <= bound then n - 1 else bound - 1
  }

  lemma PositionParts(r: nat, c: nat)
    ensures Split(DecimalText(r) + ([';'] + DecimalText(c))) == [DecimalText(r), DecimalText(c)]
  {
    SplitOne(DecimalText(r));
    SplitMore(DecimalText(r), DecimalText(c));
  }

  lemma PositionRead(s: Screen, body: string, r: nat, c: nat)
    requires Valid(s) && r < 0x1_0000_0000_0000_0000 && c < 0x1_0000_0000_0000_0000
    requires Split(body) == [DecimalText(r), DecimalText(c)]
    ensures Position(s, body) == s.(row := Place(r, s.rows), col := Place(c, s.cols))
  {
    NumeralReads(r);
    NumeralReads(c);
  }

  lemma CursorDispatch(s: Screen, body: string, c: char)
    requires Valid(s) && c in {'H', 'f', 'G'}
    ensures HandleCsi(s, body + [c]) == CursorCode(s, body, c)
  {
    Ends(body, c);
  }

  /** Row and column, counted from one, within the screen. */
  lemma CursorPosition(s: Screen, r: nat, c: nat)
    requires Valid(s) && r < 0x1_0000_0000_0000_0000 && c < 0x1_0000_0000_0000_0000
    ensures var body := DecimalText(r) + ([';'] + DecimalText(c));
            HandleCsi(s, body + ['H']) == HandleCsi(s, body + ['f']) == s.(row := Place(r, s.rows), col := Place(c, s.cols))
  {
    var body := DecimalText(r) + ([';'] + DecimalText(c));
    PositionParts(r, c);
    PositionRead(s, body, r, c);
    CursorDispatch(s, body, 'H');
    CursorDispatch(s, body, 'f');
  }

  /** Without numbers the upper left corner; a column alone keeps the row. */
  lemma CursorHome(s: Screen, c: nat)
    requires Valid(s) && c < 0x1_0000_0000_0000_0000
    ensures HandleCsi(s, ['H']) == s.(row := 0, col := 0)
    ensures HandleCsi(s, DecimalText(c) + ['G']) == s.(col := Place(c, s.cols))
  {
    CursorDispatch(s, [], 'H');
    CursorDispatch(s, DecimalText(c), 'G');
    NumeralReads(c);
    assert [] + ['H'] == ['H'] && Split([]) == [[]];
  }

  // ---- saving the cursor

  /** Both pairs of codes save the place of the cursor and bring it back, wherever it has gone, within the last column. */
  lemma SaveAndRestore(s: Screen, row: nat, col: nat)
    requires Valid(s) && row < s.rows && col <= s.cols
    ensures var saved := HandleCsi(s, "s");
            && saved == s.(savedRow := s.row, savedCol := s.col)
            && Valid(saved.(row := row, col := col))
            && HandleCsi(saved.(row := row, col := col), "u") == saved.(col := Min(s.col, s.cols - 1))
    ensures Written(s, [ESC, '7']) == HandleCsi(s, "s") && Written(s, [ESC, '8']) == HandleCsi(s, "u")
  {
    assert "s"[..0] == [] && "s"[0] == 's' && "u"[..0] == [] && "u"[0] == 'u';
    FirstObeyed(s, [ESC, '7']);
    FirstObeyed(s, [ESC, '8']);
    assert [ESC, '7'][2..] == [] && [ESC, '8'][2..] == [];
  }

  // ---- erasing

  /** The cells of the cursor's line that each mode blanks: from the cursor on, up to and with the cursor, all. */
  lemma EraseLine(s: Screen, c: nat)
    requires Valid(s) && c < s.cols
    ensures HandleCsi(s, "K").grid[s.row][c] == HandleCsi(s, "0K").grid[s.row][c] == if c >= s.col then BLANK else s.grid[s.row][c]
    ensures HandleCsi(s, "1K").grid[s.row][c] == if c <= s.col then BLANK else s.grid[s.row][c]
    ensures HandleCsi(s, "2K").grid[s.row][c] == BLANK
  {
    EraseCodes(s);
  }

  lemma EraseCodes(s: Screen)
    requires Valid(s)
    ensures HandleCsi(s, "K") == HandleCsi(s, "0K") == LineCleared(s, 0)
    ensures HandleCsi(s, "1K") == LineCleared(s, 1) && HandleCsi(s, "2K") == LineCleared(s, 2)
  {
    assert "K"[..0] == [] && "0K"[..1] == "0" && "1K"[..1] == "1" && "2K"[..1] == "2";
    assert Number([], BYTE, 0) == 0 && Number("0", BYTE, 0) == 0 && Number("1", BYTE, 0) == 1 && Number("2", BYTE, 0) == 2;
  }

  /** Other lines and the cursor stay. */
  lemma EraseLineOnly(s: Screen, mode: nat, r: nat)
    requires Valid(s) && r < s.rows && r != s.row
    ensures LineCleared(s, mode) == s.(grid := LineCleared(s, mode).grid) && LineCleared(s, mode).grid[r] == s.grid[r]
  {
  }

  /** Erasing the whole display blanks every cell and sends the cursor home; the other two modes are not implemented. */
  lemma EraseDisplay(s: Screen)
    requires Valid(s)
    ensures var t := HandleCsi(s, "2J");
            && t == s.(grid := t.grid, row := 0, col := 0) && |t.grid| == s.rows
            && forall r :: 0 <= r < s.rows ==> |t.grid[r]| == s.cols && forall c :: 0 <= c < s.cols ==> t.grid[r][c] == BLANK
    ensures HandleCsi(s, "J") == HandleCsi(s, "0J") == HandleCsi(s, "1J") == s
  {
    assert "J"[..0] == [] && "0J"[..1] == "0" && "1J"[..1] == "1" && "2J"[..1] == "2";
    assert Number([], BYTE, 0) == 0 && Number("0", BYTE, 0) == 0 && Number("1", BYTE, 0) == 1 && Number("2", BYTE, 0) == 2;
  }

  // ---- inserting and deleting by their codes

  lemma LineCodes(s: Screen, n: nat)
    requires Valid(s) && 1 <= n < 0x1_0000_0000_0000_0000
    ensures HandleCsi(s, DecimalText(n) + ['L']) == LinesInserted(s, n)
    ensures HandleCsi(s, DecimalText(n) + ['M']) == LinesDeleted(s, n)
    ensures HandleCsi(s, DecimalText(n) + ['@']) == CharsInserted(s, n)
    ensures HandleCsi(s, DecimalText(n) + ['P']) == CharsDeleted(s, n)
  {
    CountOf(n);
    Ends(DecimalText(n), 'L');
    Ends(DecimalText(n), 'M');
    Ends(DecimalText(n), '@');
    Ends(DecimalText(n), 'P');
  }

  /** Row by row: L pushes the rows from the cursor on down and leaves blank ones, M pulls them up. */
  lemma LinesByCode(s: Screen, n: nat, r: nat)
    requires Valid(s) && 1 <= n < 0x1_0000_0000_0000_0000 && r < s.rows
    ensures Valid(HandleCsi(s, DecimalText(n) + ['L'])) && Valid(HandleCsi(s, DecimalText(n) + ['M']))
    ensures HandleCsi(s, DecimalText(n) + ['L']).grid[r]
            == if r < s.row then s.grid[r] else if r < s.row + n then BlankRow(s.cols) else s.grid[r - n]
    ensures HandleCsi(s, DecimalText(n) + ['M']).grid[r]
            == if r < s.row then s.grid[r] else if r + n < s.rows then s.grid[r + n] else BlankRow(s.cols)
  {
    LineCodes(s, n);
    ShiftValid(s, n);
    InsertTimesAt(s.grid, s.row, BlankRow(s.cols), n, r);
    DeleteTimesAt(s.grid, s.row, BlankRow(s.cols), n, r);
  }

  /** Cell by cell in the cursor's line: @ pushes the cells from the cursor on to the right, P pulls them to the left. */
  lemma CellsByCode(s: Screen, n: nat, c: nat)
    requires Valid(s) && 1 <= n < 0x1_0000_0000_0000_0000 && c < s.cols && s.col < s.cols
    ensures Valid(HandleCsi(s, DecimalText(n) + ['@'])) && Valid(HandleCsi(s, DecimalText(n) + ['P']))
    ensures HandleCsi(s, DecimalText(n) + ['@']).grid[s.row][c]
            == if c < s.col then s.grid[s.row][c] else if c < s.col + n then BLANK else s.grid[s.row][c - n]
    ensures HandleCsi(s, DecimalText(n) + ['P']).grid[s.row][c]
            == if c < s.col then s.grid[s.row][c] else if c + n < s.cols then s.grid[s.row][c + n] else BLANK
  {
    LineCodes(s, n);
    ShiftValid(s, n);
    InsertTimesAt(s.grid[s.row], s.col, BLANK, n, c);
    DeleteTimesAt(s.grid[s.row], s.col, BLANK, n, c);
  }

  // ---- control characters

  /** Carriage return, backspace, and the tab to the next multiple of eight within the line; the text stays. */
  lemma ControlCharacters(s: Screen)
    requires Valid(s)
    ensures PutChar(s, '\r') == s.(col := 0)
    ensures PutChar(s, '\U{8}') == s.(col := if s.col == 0 then 0 else s.col - 1)
    ensures var t := PutChar(s, '\t');
            t == s.(col := t.col) && t.col < s.cols
            && (t.col == s.cols - 1 || (t.col % 8 == 0 && s.col < t.col <= s.col + 8))
            && (t.col == s.cols - 1 ==> forall c :: s.col < c < s.cols - 1 ==> c % 8 != 0)
  {
  }

  /** A line feed goes down one row, or at the bottom scrolls: every row moves up, a blank one comes in, and the topmost
      goes to the scrollback, unless the alternate screen is on. */
  lemma LineFeed(s: Screen)
    requires Valid(s)
    ensures var t := PutChar(s, '\n');
            && t.col == 0
            && (s.row + 1 < s.rows ==> t == s.(row := s.row + 1, col := 0))
            && (s.row + 1 == s.rows ==>
                  && t == s.(col := 0, grid := t.grid, scrollback := t.scrollback) && |t.grid| == s.rows
                  && (forall r :: 0 <= r < s.rows - 1 ==> t.grid[r] == s.grid[r + 1]) && t.grid[s.rows - 1] == BlankRow(s.cols)
                  && (s.alternate ==> t.scrollback == s.scrollback)
                  && (!s.alternate ==>
                        t.scrollback == if |s.scrollback| < 5000 then s.scrollback + [s.grid[0]] else s.scrollback[1..] + [s.grid[0]]))
  {
    if |s.scrollback| == 5000 { assert (s.scrollback + [s.grid[0]])[1..] == s.scrollback[1..] + [s.grid[0]]; }
  }

  // ---- resizing

  /** Every cell of both rectangles stays, new cells are blank, the cursor stays or goes to the edge, and nothing else
      changes. */
  lemma ResizeKeepsOverlap(s: Screen, cols: nat, rows: nat)
    requires Valid(s) && cols >= 1 && rows >= 1
    ensures var t := Resized(s, cols, rows);
            && t == s.(cols := cols, rows := rows, grid := t.grid, row := Min(s.row, rows - 1), col := Min(s.col, cols - 1))
            && |t.grid| == rows
            && forall r :: 0 <= r < rows ==>
                 |t.grid[r]| == cols
                 && forall c :: 0 <= c < cols ==> t.grid[r][c] == if r < s.rows && c < s.cols then s.grid[r][c] else BLANK
    ensures Resized(s, 0, 0) == Resized(s, 1, 1)
  {
  }

  // ---- attributes

  /** The sixteen colors, the bright ones behind the plain ones. */
  const PALETTE := [Black, Red, Green, Yellow, Blue, Magenta, Cyan, White,
                    BrightBlack, BrightRed, BrightGreen, BrightYellow, BrightBlue, BrightMagenta, BrightCyan, BrightWhite]

  lemma PenCode(s: Screen, body: string)
    requires Valid(s) && body != []
    ensures HandleCsi(s, body + ['m']) == s.(pen := Attributes(s.pen, Split(body), 0))
  {
    Ends(body, 'm');
  }

  lemma CodeStep(p: Pen, tokens: seq<string>, i: nat, code: nat)
    requires i < |tokens| && tokens[i] == DecimalText(code) && code < 0x1_0000 && code != 38 && code != 48
    ensures Attributes(p, tokens, i) == Attributes(Attribute(p, code), tokens, i + 1)
  {
    NumeralReads(code);
  }

  lemma OneAttribute(s: Screen, code: nat)
    requires Valid(s) && code < 0x1_0000 && code != 38 && code != 48
    ensures HandleCsi(s, DecimalText(code) + ['m']) == s.(pen := Attribute(s.pen, code))
  {
    var t := DecimalText(code);
    PenCode(s, t);
    SplitOne(t);
    CodeStep(s.pen, [t], 0, code);
  }

  lemma Colors(p: Pen, i: nat)
    requires i < 8
    ensures Attribute(p, 30 + i) == p.(fg := PALETTE[i]) && Attribute(p, 40 + i) == p.(bg := PALETTE[i])
    ensures Attribute(p, 90 + i) == p.(fg := PALETTE[8 + i]) && Attribute(p, 100 + i) == p.(bg := PALETTE[8 + i])
  {
  }

  /** Eight colors from 30 on and their bright ones from 90 on for the text, from 40 and 100 on for the background. */
  lemma ColorCodes(s: Screen, i: nat)
    requires Valid(s) && i < 8
    ensures HandleCsi(s, DecimalText(30 + i) + ['m']) == s.(pen := s.pen.(fg := PALETTE[i]))
    ensures HandleCsi(s, DecimalText(40 + i) + ['m']) == s.(pen := s.pen.(bg := PALETTE[i]))
    ensures HandleCsi(s, DecimalText(90 + i) + ['m']) == s.(pen := s.pen.(fg := PALETTE[8 + i]))
    ensures HandleCsi(s, DecimalText(100 + i) + ['m']) == s.(pen := s.pen.(bg := PALETTE[8 + i]))
  {
    Colors(s.pen, i);
    forall code: nat | code < 0x1_0000 && code != 38 && code != 48
      ensures HandleCsi(s, DecimalText(code) + ['m']) == s.(pen := Attribute(s.pen, code))
    {
      OneAttribute(s, code);
    }
  }

  lemma SwitchCode(s: Screen, t: string, code: nat)
    requires Valid(s) && code < 50 && code != 38 && code != 48 && t == DecimalText(code) + ['m']
    ensures HandleCsi(s, t) == s.(pen := Attribute(s.pen, code))
  {
    OneAttribute(s, code);
  }

  lemma SwitchDigit(s: Screen, c: char, code: nat)
    requires Valid(s) && code < 10 && c == '0' + code as char
    ensures HandleCsi(s, [c, 'm']) == s.(pen := Attribute(s.pen, code))
  {
    CodeText(code, [c]);
    assert [c, 'm'] == [c] + ['m'];
    SwitchCode(s, [c, 'm'], code);
  }

  /** Resetting, and switching bold, underline and inverse on. */
  lemma SwitchOn(s: Screen)
    requires Valid(s)
    ensures HandleCsi(s, ['m']) == HandleCsi(s, ['0', 'm']) == s.(pen := Pen(Default, Default, false, false, false))
    ensures HandleCsi(s, ['1', 'm']) == s.(pen := s.pen.(bold := true))
    ensures HandleCsi(s, ['4', 'm']) == s.(pen := s.pen.(underline := true))
    ensures HandleCsi(s, ['7', 'm']) == s.(pen := s.pen.(inverse := true))
  {
    SwitchDigit(s, '0', 0);
    SwitchDigit(s, '1', 1);
    SwitchDigit(s, '4', 4);
    SwitchDigit(s, '7', 7);
  }

  /** Switching them off, and the two colors back to the default. */
  lemma SwitchOff(s: Screen)
    requires Valid(s)
    ensures HandleCsi(s, "22m") == s.(pen := s.pen.(bold := false)) && HandleCsi(s, "24m") == s.(pen := s.pen.(underline := false))
    ensures HandleCsi(s, "27m") == s.(pen := s.pen.(inverse := false))
    ensures HandleCsi(s, "39m") == s.(pen := s.pen.(fg := Default)) && HandleCsi(s, "49m") == s.(pen := s.pen.(bg := Default))
  {
    TwoDigits(22, '2', '2');
    TwoDigits(24, '2', '4');
    TwoDigits(27, '2', '7');
    TwoDigits(39, '3', '9');
    TwoDigits(49, '4', '9');
    SwitchCode(s, "22m", 22);
    SwitchCode(s, "24m", 24);
    SwitchCode(s, "27m", 27);
    SwitchCode(s, "39m", 39);
    SwitchCode(s, "49m", 49);
  }

  lemma CodeText(n: nat, t: string)
    requires n < 10 && t == ['0' + n as char]
    ensures DecimalText(n) == t
  {
  }

  lemma TwoDigits(n: nat, a: char, b: char)
    requires 10 <= n < 100 && a == '0' + (n / 10) as char && b == '0' + (n % 10) as char
    ensures DecimalText(n) == [a, b]
  {
    CodeText(n / 10, [a]);
  }

  /** Two codes in one sequence are two sequences, left to right. */
  lemma AttributesInOrder(s: Screen, a: nat, b: nat)
    requires Valid(s) && a < 0x1_0000 && b < 0x1_0000 && a !in {38, 48} && b !in {38, 48}
    ensures Valid(HandleCsi(s, DecimalText(a) + ['m']))
    ensures HandleCsi(s, DecimalText(a) + ([';'] + DecimalText(b)) + ['m'])
            == HandleCsi(HandleCsi(s, DecimalText(a) + ['m']), DecimalText(b) + ['m'])
  {
    OneAttribute(s, a);
    OneAttribute(s.(pen := Attribute(s.pen, a)), b);
    PositionParts(a, b);
    PenCode(s, DecimalText(a) + ([';'] + DecimalText(b)));
    TwoCodes(s.pen, a, b);
  }

  lemma TwoCodes(p: Pen, a: nat, b: nat)
    requires a < 0x1_0000 && b < 0x1_0000 && a !in {38, 48} && b !in {38, 48}
    ensures Attributes(p, [DecimalText(a), DecimalText(b)], 0) == Attribute(Attribute(p, a), b)
  {
    var tokens := [DecimalText(a), DecimalText(b)];
    CodeStep(p, tokens, 0, a);
    CodeStep(Attribute(p, a), tokens, 1, b);
  }

  lemma PlaneCode(k: string)
    requires k == "38" || k == "48"
    ensures Number(k, SHORT, 0) == if k == "38" then 38 else 48
  {
    assert k[..1] == [k[0]] && Digits([k[0]]) == Some(k[0] as int - '0' as int);
  }

  function Painted(p: Pen, k: string, c: Color): Pen { if k == "38" then p.(fg := c) else p.(bg := c) }

  lemma ByteReads(n: Byte)
    ensures ByteOf(DecimalText(n)) == Some(n)
  {
    NumeralReads(n);
  }

  lemma ExtendedStep(p: Pen, tokens: seq<string>, c: Color, taken: nat)
    requires tokens != [] && (tokens[0] == "38" || tokens[0] == "48") && Extended(tokens, 0) == (Some(c), taken)
    requires taken + 1 == |tokens|
    ensures Attributes(p, tokens, 0) == Painted(p, tokens[0], c)
  {
    PlaneCode(tokens[0]);
  }

  lemma IndexedPen(p: Pen, k: string, n: Byte)
    requires k == "38" || k == "48"
    ensures Attributes(p, [k, "5", DecimalText(n)], 0) == Painted(p, k, Indexed(n))
  {
    ByteReads(n);
    ExtendedStep(p, [k, "5", DecimalText(n)], Indexed(n), 2);
  }

  lemma RgbExtended(tokens: seq<string>, r: Byte, g: Byte, b: Byte)
    requires |tokens| == 5 && tokens[1] == "2"
    requires ByteOf(tokens[2]) == Some(r) && ByteOf(tokens[3]) == Some(g) && ByteOf(tokens[4]) == Some(b)
    ensures Extended(tokens, 0) == (Some(Rgb(r, g, b)), 4)
  {
    assert tokens[1][0] != "5"[0];
  }

  lemma RgbPen(p: Pen, k: string, r: Byte, g: Byte, b: Byte)
    requires k == "38" || k == "48"
    ensures Attributes(p, [k, "2", DecimalText(r), DecimalText(g), DecimalText(b)], 0) == Painted(p, k, Rgb(r, g, b))
  {
    var tokens := [k, "2", DecimalText(r), DecimalText(g), DecimalText(b)];
    ByteReads(r);
    ByteReads(g);
    ByteReads(b);
    RgbExtended(tokens, r, g, b);
    ExtendedStep(p, tokens, Rgb(r, g, b), 4);
  }

  function Joined(tokens: seq<string>): string
    requires tokens != []
  {
    if |tokens| == 1 then tokens[0] else Joined(tokens[..|tokens| - 1]) + ([';'] + tokens[|tokens| - 1])
  }

  lemma {:induction false} SplitJoined(tokens: seq<string>)
    requires tokens != [] && forall i :: 0 <= i < |tokens| ==> ';' !in tokens[i]
    ensures Split(Joined(tokens)) == tokens && (tokens[0] != [] ==> Joined(tokens) != [])
  {
    if |tokens| == 1 {
      SplitOne(tokens[0]);
    } else {
      var front, last := tokens[..|tokens| - 1], tokens[|tokens| - 1];
      assert tokens == front + [last] && front[0] == tokens[0];
      SplitJoined(front);
      SplitMore(Joined(front), last);
    }
  }

  /** 38 for the text and 48 for the background, then 5 and the number of one of 256 colors, or 2 and its red, green and
      blue. */
  lemma ExtendedColors(s: Screen, k: string, n: Byte, r: Byte, g: Byte, b: Byte)
    requires Valid(s) && (k == "38" || k == "48")
    ensures HandleCsi(s, Joined([k, "5", DecimalText(n)]) + ['m']) == s.(pen := Painted(s.pen, k, Indexed(n)))
    ensures HandleCsi(s, Joined([k, "2", DecimalText(r), DecimalText(g), DecimalText(b)]) + ['m'])
            == s.(pen := Painted(s.pen, k, Rgb(r, g, b)))
  {
    SplitJoined([k, "5", DecimalText(n)]);
    PenCode(s, Joined([k, "5", DecimalText(n)]));
    IndexedPen(s.pen, k, n);
    SplitJoined([k, "2", DecimalText(r), DecimalText(g), DecimalText(b)]);
    PenCode(s, Joined([k, "2", DecimalText(r), DecimalText(g), DecimalText(b)]));
    RgbPen(s.pen, k, r, g, b);
  }
}
