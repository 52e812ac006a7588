/** The terminal's screen as a value: what printing, line feeds, erasing and control sequences make of it. */
module TerminalScreen {
  import opened Wrappers
  import opened Numbers
  import opened Shifting

  datatype Color = Default
                 | Black | Red | Green | Yellow | Blue | Magenta | Cyan | White
                 | BrightBlack | BrightRed | BrightGreen | BrightYellow | BrightBlue | BrightMagenta | BrightCyan | BrightWhite
                 | Indexed(n: Byte)
                 | Rgb(r: Byte, g: Byte, b: Byte)

  /** The attributes that new characters get. */
  datatype Pen = Pen(fg: Color, bg: Color, bold: bool, underline: bool, inverse: bool)

  datatype Cell = Cell(ch: char, pen: Pen)

  const PLAIN := Pen(Default, Default, false, false, false)
  const BLANK := Cell(' ', PLAIN)
  const SCROLLBACK_LIMIT: nat := 5000

  datatype Screen = Screen(cols: nat, rows: nat, row: nat, col: nat, grid: seq<seq<Cell>>, scrollback: seq<seq<Cell>>,
                           alternate: bool, savedRow: nat, savedCol: nat, pen: Pen)

  /** The cursor may stand one past the last column, where the next character wraps. */
  ghost predicate Valid(s: Screen) {
    && s.rows >= 1 && s.cols >= 1
    && |s.grid| == s.rows && (forall r :: 0 <= r < s.rows ==> |s.grid[r]| == s.cols)
    && s.row < s.rows && s.col <= s.cols && |s.scrollback| <= SCROLLBACK_LIMIT
  }

  function AtLeastOne(n: nat): nat { if n == 0 then 1 else n }

  function BlankRow(cols: nat): seq<Cell> { Repeat(BLANK, cols) }

  function Fresh(cols: nat, rows: nat): Screen {
    var c, r := AtLeastOne(cols), AtLeastOne(rows);
    Screen(c, r, 0, 0, Repeat(BlankRow(c), r), [], false, 0, 0, PLAIN)
  }

  /** The overlap of the old and the new rectangle is kept. */
  function Resized(s: Screen, cols: nat, rows: nat): Screen
    requires Valid(s)
  {
    var c, r := AtLeastOne(cols), AtLeastOne(rows);
    var grid := seq(r, i requires 0 <= i < r => seq(c, j requires 0 <= j < c => if i < s.rows && j < s.cols then s.grid[i][j] else BLANK));
    s.(cols := c, rows := r, grid := grid, row := Min(s.row, r - 1), col := Min(s.col, c - 1))
  }

  // ---- printing

  function Pushed(scrollback: seq<seq<Cell>>, line: seq<Cell>): seq<seq<Cell>> {
    var longer := scrollback + [line];
    if |longer| > SCROLLBACK_LIMIT then longer[1..] else longer
  }

  function NewLine(s: Screen): Screen
    requires Valid(s)
  {
    if s.row + 1 < s.rows then s.(row := s.row + 1)
    else s.(scrollback := if s.alternate then s.scrollback else Pushed(s.scrollback, s.grid[0]),
            grid := s.grid[1..] + [BlankRow(s.cols)])
  }

  function Printed(s: Screen, ch: char): Screen
    requires Valid(s)
  {
    var t := if s.col >= s.cols then NewLine(s.(col := 0)) else s;
    t.(grid := t.grid[t.row := t.grid[t.row][t.col := Cell(ch, t.pen)]], col := t.col + 1)
  }

  function PutChar(s: Screen, ch: char): Screen
    requires Valid(s)
  {
    if ch == '\r' then s.(col := 0)
    else if ch == '\n' then NewLine(s.(col := 0))
    else if ch == '\t' then s.(col := Min((s.col / 8 + 1) * 8, s.cols - 1))
    else if ch == '\U{8}' then s.(col := if s.col > 0 then s.col - 1 else 0)
    else if ch >= ' ' then Printed(s, ch)
    else s
  }

  // ---- erasing and the cursor

  function Cleared(s: Screen): Screen {
    s.(grid := Repeat(BlankRow(s.cols), s.rows), row := 0, col := 0)
  }

  /** Blanks from one column up to, not including, another. */
  function Erased(line: seq<Cell>, from: nat, to: nat): (r: seq<Cell>)
    ensures |r| == |line| && forall i :: 0 <= i < |line| ==> r[i] == if from <= i < to then BLANK else line[i]
  {
    seq(|line|, i requires 0 <= i < |line| => if from <= i < to then BLANK else line[i])
  }

  function LineCleared(s: Screen, mode: nat): Screen
    requires Valid(s)
  {
    var line := s.grid[s.row];
    match mode
    case 0 => s.(grid := s.grid[s.row := Erased(line, s.col, s.cols)])
    case 1 => s.(grid := s.grid[s.row := Erased(line, 0, Min(s.col, s.cols - 1) + 1)])
    case 2 => s.(grid := s.grid[s.row := Erased(line, 0, s.cols)])
    case _ => s
  }

  function Saved(s: Screen): Screen { s.(savedRow := s.row, savedCol := s.col) }

  function Restored(s: Screen): Screen
    requires Valid(s)
  {
    s.(row := Min(s.savedRow, s.rows - 1), col := Min(s.savedCol, s.cols - 1))
  }

  // ---- numbers in control sequences

  predicate IsDigit(c: char) { '0' <= c <= '9' }

  /** The value of the digits, or none of it if there is none, or something else among them. */
  function Digits(s: string): Option<nat> {
    if s == [] then None
    else if !IsDigit(s[|s| - 1]) then None
    else
      var d := s[|s| - 1] as int - '0' as int;
      if |s| == 1 then Some(d)
      else match Digits(s[..|s| - 1]) case None => None case Some(n) => Some(10 * n + d)
  }

  /** A machine word of the given range; anything else reads as the default. */
  function Number(s: string, limit: nat, otherwise: nat): nat {
    match Digits(s) case None => otherwise case Some(n) => if n < limit then n else otherwise
  }

  const WORD: nat := 0x1_0000_0000_0000_0000
  const SHORT: nat := 0x1_0000
  const BYTE: nat := 0x100

  function Count(s: string): nat { AtLeastOne(Number(s, WORD, 1)) }

  function Split(s: string): (r: seq<string>)
    ensures |r| >= 1
  {
    if s == [] then [[]]
    else
      var front := Split(s[..|s| - 1]);
      if s[|s| - 1] == ';' then front + [[]]
      else front[..|front| - 1] + [front[|front| - 1] + [s[|s| - 1]]]
  }

  // ---- attributes

  function Basic(n: nat): Color
    requires n < 8
  {
    match n
    case 0 => Black case 1 => Red case 2 => Green case 3 => Yellow
    case 4 => Blue case 5 => Magenta case 6 => Cyan case _ => White
  }

  function Bright(n: nat): Color
    requires n < 8
  {
    match n
    case 0 => BrightBlack case 1 => BrightRed case 2 => BrightGreen case 3 => BrightYellow
    case 4 => BrightBlue case 5 => BrightMagenta case 6 => BrightCyan case _ => BrightWhite
  }

  function ByteOf(s: string): Option<Byte> {
    match Digits(s) case None => None case Some(n) => if n < BYTE then Some(n) else None
  }

  /** The color that follows 38 or 48 at i, if it can be read, and how many further tokens it takes. */
  function Extended(tokens: seq<string>, i: nat): (r: (Option<Color>, nat))
    requires i < |tokens|
  {
    if i + 2 < |tokens| && tokens[i + 1] == "5" then
      match ByteOf(tokens[i + 2])
      case None => (None, 2)
      case Some(n) => (Some(Indexed(n)), 2)
    else if i + 4 < |tokens| && tokens[i + 1] == "2" then
      var r, g, b := ByteOf(tokens[i + 2]), ByteOf(tokens[i + 3]), ByteOf(tokens[i + 4]);
      (if r.Some? && g.Some? && b.Some? then Some(Rgb(r.value, g.value, b.value)) else None, 4)
    else (None, 0)
  }

  function Attribute(p: Pen, code: nat): Pen {
    if code == 0 then PLAIN
    else if code == 1 then p.(bold := true)
    else if code == 4 then p.(underline := true)
    else if code == 7 then p.(inverse := true)
    else if code == 22 then p.(bold := false)
    else if code == 24 then p.(underline := false)
    else if code == 27 then p.(inverse := false)
    else if 30 <= code < 38 then p.(fg := Basic(code - 30))
    else if code == 39 then p.(fg := Default)
    else if 40 <= code < 48 then p.(bg := Basic(code - 40))
    else if code == 49 then p.(bg := Default)
    else if 90 <= code < 98 then p.(fg := Bright(code - 90))
    else if 100 <= code < 108 then p.(bg := Bright(code - 100))
    else p
  }

  /** One attribute code at i and how far to go on. */
  function AttributeStep(p: Pen, tokens: seq<string>, i: nat): (r: (Pen, nat))
    requires i < |tokens|
    ensures r.1 > i
  {
    var code := Number(tokens[i], SHORT, 0);
    if code == 38 || code == 48 then
      var (color, taken) := Extended(tokens, i);
      (match color
       case None => p
       case Some(c) => if code == 38 then p.(fg := c) else p.(bg := c),
       i + taken + 1)
    else (Attribute(p, code), i + 1)
  }

  function Attributes(p: Pen, tokens: seq<string>, i: nat): Pen
    decreases |tokens| - i
  {
    if i >= |tokens| then p
    else
      var (q, j) := AttributeStep(p, tokens, i);
      Attributes(q, tokens, j)
  }

  // ---- control sequences

  function Moved(s: Screen, row: int, col: int): Screen
    requires Valid(s)
  {
    s.(row := Clamp(row, s.rows), col := Clamp(col, s.cols))
  }

  /** The nearest index below the bound. */
  function Clamp(n: int, bound: nat): nat
    requires bound >= 1
  {
    if n < 0 then 0 else Min(n, bound - 1)
  }

  function LinesInserted(s: Screen, n: nat): Screen
    requires Valid(s)
  {
    s.(grid := InsertTimes(s.grid, s.row, BlankRow(s.cols), n))
  }

  function LinesDeleted(s: Screen, n: nat): Screen
    requires Valid(s)
  {
    s.(grid := DeleteTimes(s.grid, s.row, BlankRow(s.cols), n))
  }

  /** Behind the last column there is nothing to move. */
  function CharsInserted(s: Screen, n: nat): Screen
    requires Valid(s)
  {
    if s.col < s.cols then s.(grid := s.grid[s.row := InsertTimes(s.grid[s.row], s.col, BLANK, n)]) else s
  }

  function CharsDeleted(s: Screen, n: nat): Screen
    requires Valid(s)
  {
    if s.col < s.cols then s.(grid := s.grid[s.row := DeleteTimes(s.grid[s.row], s.col, BLANK, n)]) else s
  }

  function Position(s: Screen, body: string): Screen
    requires Valid(s)
  {
    var parts := Split(body);
    var row := Number(parts[0], WORD, 1);
    var col := if |parts| > 1 then Number(parts[1], WORD, 1) else 1;
    Moved(s, row - 1, col - 1)
  }

  function CursorCode(s: Screen, body: string, final: char): Screen
    requires Valid(s)
  {
    match final
    case 'H' => Position(s, body)
    case 'f' => Position(s, body)
    case 'A' => s.(row := Clamp(s.row - Count(body), s.rows))
    case 'B' => s.(row := Clamp(s.row + Count(body), s.rows))
    case 'C' => s.(col := Clamp(s.col + Count(body), s.cols))
    case 'D' => s.(col := if Count(body) < s.col then s.col - Count(body) else 0)
    case 'G' => s.(col := Clamp(Number(body, WORD, 1) - 1, s.cols))
    case 's' => if body != [] && body[0] == '?' then s else Saved(s)
    case 'u' => if body != [] && body[0] == '?' then s else Restored(s)
    case _ => s
  }

  function EditCode(s: Screen, body: string, final: char): Screen
    requires Valid(s)
  {
    match final
    case 'J' => if Number(body, BYTE, 0) == 2 then Cleared(s) else s
    case 'K' => LineCleared(s, Number(body, BYTE, 0))
    case 'L' => LinesInserted(s, Count(body))
    case 'M' => LinesDeleted(s, Count(body))
    case '@' => CharsInserted(s, Count(body))
    case 'P' => CharsDeleted(s, Count(body))
    case 'h' => if body == "?1049" then Cleared(Saved(s.(alternate := true))) else s
    case 'l' => if body == "?1049" then Restored(s.(alternate := false)) else s
    case _ => s
  }

  /** The last character names the function, what is before it are its parameters. */
  function HandleCsi(s: Screen, code: string): Screen
    requires Valid(s)
  {
    if code == [] then s
    else
      var body, final := code[..|code| - 1], code[|code| - 1];
      if final == 'm' then s.(pen := if body == [] then PLAIN else Attributes(s.pen, Split(body), 0))
      else if final in "HfABCDGsu" then CursorCode(s, body, final)
      else EditCode(s, body, final)
  }

  // ---- every operation keeps the screen valid

  lemma NewLineValid(s: Screen)
    requires Valid(s)
    ensures Valid(NewLine(s))
  {
  }

  lemma PutCharValid(s: Screen, ch: char)
    requires Valid(s)
    ensures Valid(PutChar(s, ch))
  {
    NewLineValid(s.(col := 0));
  }

  lemma ShiftValid(s: Screen, n: nat)
    requires Valid(s)
    ensures Valid(LinesInserted(s, n)) && Valid(LinesDeleted(s, n)) && Valid(CharsInserted(s, n)) && Valid(CharsDeleted(s, n))
  {
    InsertTimesClosed(s.grid, s.row, BlankRow(s.cols), n);
    DeleteTimesClosed(s.grid, s.row, BlankRow(s.cols), n);
  }

  lemma ErasingValid(s: Screen, mode: nat)
    requires Valid(s)
    ensures Valid(Cleared(s)) && Valid(LineCleared(s, mode)) && Valid(Cleared(Saved(s.(alternate := true))))
  {
  }

  lemma CursorCodeValid(s: Screen, body: string, final: char)
    requires Valid(s)
    ensures Valid(CursorCode(s, body, final))
  {
  }

  lemma EditCodeValid(s: Screen, body: string, final: char)
    requires Valid(s)
    ensures Valid(EditCode(s, body, final))
  {
    if final in {'L', 'M', '@', 'P'} { ShiftValid(s, Count(body)); }
    else if final in {'J', 'K', 'h'} { ErasingValid(s, Number(body, BYTE, 0)); }
  }

  lemma HandleCsiValid(s: Screen, code: string)
    requires Valid(s)
    ensures Valid(HandleCsi(s, code))
  {
    if code != [] {
      var body, final := code[..|code| - 1], code[|code| - 1];
      CursorCodeValid(s, body, final);
      EditCodeValid(s, body, final);
    }
  }

  lemma ResizedValid(s: Screen, cols: nat, rows: nat)
    requires Valid(s)
    ensures Valid(Resized(s, cols, rows))
  {
  }
}
