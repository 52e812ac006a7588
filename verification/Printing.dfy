/** Where printed characters end up: the sheet they fill, the window on it, and the rows that scrolled away. */
module Printing {
  import opened Numbers
  import opened Shifting
  import opened TerminalScreen
  import opened EscapeParsing

  predicate Printable(text: string) { forall i :: 0 <= i < |text| ==> text[i] >= ' ' }

  /** Row r of the endless sheet that the text fills line by line. */
  function SheetRow(cols: nat, text: string, r: nat): (line: seq<Cell>)
    ensures |line| == cols
  {
    seq(cols, c requires 0 <= c < cols => if r * cols + c < |text| then Cell(text[r * cols + c], PLAIN) else BLANK)
  }

  /** How many rows have left the window when the cursor is in row r of the sheet. */
  function Top(rows: nat, r: nat): nat { if r < rows then 0 else r - rows + 1 }

  function Sheet(cols: nat, text: string, from: nat, count: nat): (lines: seq<seq<Cell>>)
    ensures |lines| == count && forall i :: 0 <= i < count ==> lines[i] == SheetRow(cols, text, from + i)
  {
    seq(count, i requires 0 <= i < count => SheetRow(cols, text, from + i))
  }

  /** The screen that shows the sheet with the cursor in row r, column c: the grid is the window, the scrollback
      the last 5000 rows above it. */
  function Page(cols: nat, rows: nat, text: string, r: nat, c: nat): Screen
    requires rows >= 1
  {
    var top := Top(rows, r);
    var kept := Min(top, SCROLLBACK_LIMIT);
    Screen(cols, rows, r - top, c, Sheet(cols, text, top, rows), Sheet(cols, text, top - kept, kept), false, 0, 0, PLAIN)
  }

  lemma PageValid(cols: nat, rows: nat, text: string, r: nat, c: nat)
    requires cols >= 1 && rows >= 1 && c <= cols
    ensures Valid(Page(cols, rows, text, r, c))
  {
  }

  lemma MulLe(a: nat, b: nat, c: nat)
    requires a <= b
    ensures a * c <= b * c
  {
  }

  /** The rows above the cursor are full, those below it blank. */
  lemma SheetRowGrows(cols: nat, text: string, ch: char, r: nat, c: nat, q: nat)
    requires cols >= 1 && |text| == r * cols + c && c < cols
    ensures q != r ==> SheetRow(cols, text + [ch], q) == SheetRow(cols, text, q)
    ensures SheetRow(cols, text + [ch], r) == SheetRow(cols, text, r)[c := Cell(ch, PLAIN)]
  {
    if q < r {
      MulLe(q + 1, r, cols);
      assert (q + 1) * cols == q * cols + cols;
    }
    if q > r {
      MulLe(r + 1, q, cols);
      assert (r + 1) * cols == r * cols + cols;
    }
    forall i | 0 <= i < cols
      ensures q != r ==> SheetRow(cols, text + [ch], q)[i] == SheetRow(cols, text, q)[i]
    {
    }
  }

  lemma SheetGrows(cols: nat, text: string, ch: char, r: nat, c: nat, from: nat, count: nat)
    requires cols >= 1 && |text| == r * cols + c && c < cols
    ensures Sheet(cols, text + [ch], from, count)
         == if from <= r < from + count
            then Sheet(cols, text, from, count)[r - from := SheetRow(cols, text, r)[c := Cell(ch, PLAIN)]]
            else Sheet(cols, text, from, count)
  {
    var after, before := Sheet(cols, text + [ch], from, count), Sheet(cols, text, from, count);
    forall i | 0 <= i < count
      ensures after[i] == if from + i == r then SheetRow(cols, text, r)[c := Cell(ch, PLAIN)] else before[i]
    {
      SheetRowGrows(cols, text, ch, r, c, from + i);
    }
  }

  /** A character that fits its row. */
  lemma PrintInRow(cols: nat, rows: nat, text: string, ch: char, r: nat, c: nat)
    requires cols >= 1 && rows >= 1 && |text| == r * cols + c && c < cols
    ensures Valid(Page(cols, rows, text, r, c))
    ensures Printed(Page(cols, rows, text, r, c), ch) == Page(cols, rows, text + [ch], r, c + 1)
  {
    var top := Top(rows, r);
    var kept := Min(top, SCROLLBACK_LIMIT);
    PageValid(cols, rows, text, r, c);
    SheetGrows(cols, text, ch, r, c, top, rows);
    SheetGrows(cols, text, ch, r, c, top - kept, kept);
  }

  lemma BlankBelow(cols: nat, text: string, r: nat)
    requires |text| <= r * cols
    ensures SheetRow(cols, text, r) == BlankRow(cols)
  {
  }

  /** Going on to the next row, by moving down or by scrolling. */
  lemma NextRow(cols: nat, rows: nat, text: string, r: nat)
    requires cols >= 1 && rows >= 1 && |text| <= (r + 1) * cols
    ensures Valid(Page(cols, rows, text, r, 0))
    ensures NewLine(Page(cols, rows, text, r, 0)) == Page(cols, rows, text, r + 1, 0)
  {
    var s, t := Page(cols, rows, text, r, 0), Page(cols, rows, text, r + 1, 0);
    var top := Top(rows, r);
    PageValid(cols, rows, text, r, 0);
    if r + 1 >= rows {
      BlankBelow(cols, text, r + 1);
      assert top + rows == r + 1;
      assert s.grid[1..] + [BlankRow(cols)] == t.grid;
      PushedRow(cols, text, top);
    }
  }

  lemma PushedRow(cols: nat, text: string, top: nat)
    ensures var kept, more := Min(top, SCROLLBACK_LIMIT), Min(top + 1, SCROLLBACK_LIMIT);
            Pushed(Sheet(cols, text, top - kept, kept), SheetRow(cols, text, top)) == Sheet(cols, text, top + 1 - more, more)
  {
  }

  /** Where the cursor is after n characters: in the row of the last one, right behind it. */
  function CursorRow(cols: nat, n: nat): nat
    requires cols >= 1
  {
    if n == 0 then 0 else (n - 1) / cols
  }

  lemma DivUnique(n: nat, d: nat, q: nat, r: nat)
    requires d >= 1 && n == q * d + r && r < d
    ensures n / d == q && n % d == r
  {
    DivMod(n, d);
    if n / d < q { MulLe(n / d + 1, q, d); }
    if n / d > q { MulLe(q + 1, n / d, d); }
  }

  lemma CursorCol(cols: nat, n: nat)
    requires cols >= 1
    ensures var r := CursorRow(cols, n);
            r * cols <= n <= (r + 1) * cols && (n > 0 ==> r * cols < n)
  {
    if n > 0 { DivMod(n - 1, cols); }
  }

  /** The screen after printing this text on a fresh terminal. */
  function Filled(cols: nat, rows: nat, text: string): Screen
    requires cols >= 1 && rows >= 1
  {
    CursorCol(cols, |text|);
    var r := CursorRow(cols, |text|);
    Page(cols, rows, text, r, |text| - r * cols)
  }

  lemma FilledIsPage(cols: nat, rows: nat, text: string, r: nat, c: nat)
    requires cols >= 1 && rows >= 1 && |text| == r * cols + c && 0 < c <= cols
    ensures Filled(cols, rows, text) == Page(cols, rows, text, r, c)
  {
    DivUnique(|text| - 1, cols, r, c - 1);
  }

  lemma PrintOne(cols: nat, rows: nat, text: string, ch: char)
    requires cols >= 1 && rows >= 1 && ch >= ' '
    ensures Valid(Filled(cols, rows, text))
    ensures Printed(Filled(cols, rows, text), ch) == Filled(cols, rows, text + [ch])
  {
    CursorCol(cols, |text|);
    var r := CursorRow(cols, |text|);
    var c := |text| - r * cols;
    PageValid(cols, rows, text, r, c);
    if c < cols {
      PrintInRow(cols, rows, text, ch, r, c);
      FilledIsPage(cols, rows, text + [ch], r, c + 1);
    } else {
      WrapAndPrint(cols, rows, text, ch, r);
    }
  }

  lemma WrapAndPrint(cols: nat, rows: nat, text: string, ch: char, r: nat)
    requires cols >= 1 && rows >= 1 && |text| == (r + 1) * cols
    ensures Valid(Page(cols, rows, text, r, cols))
    ensures Printed(Page(cols, rows, text, r, cols), ch) == Filled(cols, rows, text + [ch])
  {
    PageValid(cols, rows, text, r, cols);
    NextRow(cols, rows, text, r);
    PrintInRow(cols, rows, text, ch, r + 1, 0);
    FilledIsPage(cols, rows, text + [ch], r + 1, 1);
    assert Page(cols, rows, text, r, cols).(col := 0) == Page(cols, rows, text, r, 0);
    PageValid(cols, rows, text, r + 1, 0);
    PrintedWrapped(Page(cols, rows, text, r, cols), ch);
  }

  lemma PrintedWrapped(s: Screen, ch: char)
    requires Valid(s) && s.col == s.cols
    ensures Valid(NewLine(s.(col := 0))) && NewLine(s.(col := 0)).col == 0
    ensures Printed(s, ch) == Printed(NewLine(s.(col := 0)), ch)
  {
    NewLineValid(s.(col := 0));
  }

  lemma FreshIsFilled(cols: nat, rows: nat)
    requires cols >= 1 && rows >= 1
    ensures Fresh(cols, rows) == Filled(cols, rows, "")
  {
    var s, t := Fresh(cols, rows), Filled(cols, rows, "");
    forall i | 0 <= i < rows ensures s.grid[i] == t.grid[i] { BlankBelow(cols, "", i); }
    assert s.grid == t.grid;
  }

  lemma {:induction false} ParsePrintable(text: string)
    requires Printable(text)
    ensures EndsOutside(text) && (text != [] ==> EndsOutside(text[..|text| - 1]))
    ensures Parse(text) == seq(|text|, i requires 0 <= i < |text| => Put(text[i]))
    decreases |text|
  {
    if text != [] {
      ParsePrintable(text[1..]);
      if |text| > 1 {
        assert text[..|text| - 1][1..] == text[1..][..|text| - 2];
      }
    }
  }

  /** Printing any text on a fresh terminal shows the window on the sheet that the text fills. */
  lemma {:induction false} WrittenIsFilled(cols: nat, rows: nat, text: string)
    requires cols >= 1 && rows >= 1 && Printable(text)
    ensures Valid(Fresh(cols, rows)) && Written(Fresh(cols, rows), text) == Filled(cols, rows, text)
  {
    FreshValid(cols, rows);
    if text == [] {
      FreshIsFilled(cols, rows);
    } else {
      var front, ch := text[..|text| - 1], text[|text| - 1];
      WrittenIsFilled(cols, rows, front);
      ParsePrintable(text);
      assert text == front + [ch];
      WrittenInPieces(Fresh(cols, rows), front, [ch]);
      WriteOneMore(cols, rows, front, ch);
    }
  }

  lemma FreshValid(cols: nat, rows: nat)
    ensures Valid(Fresh(cols, rows))
  {
  }

  lemma WriteOneMore(cols: nat, rows: nat, text: string, ch: char)
    requires cols >= 1 && rows >= 1 && ch >= ' '
    ensures Valid(Filled(cols, rows, text))
    ensures Written(Filled(cols, rows, text), [ch]) == Filled(cols, rows, text + [ch])
  {
    PrintOne(cols, rows, text, ch);
    WrittenOne(Filled(cols, rows, text), ch);
  }

  lemma WrittenOne(s: Screen, ch: char)
    requires Valid(s) && ch != ESC
    ensures Written(s, [ch]) == PutChar(s, ch)
  {
    assert Parse([ch]) == [Put(ch)];
    assert ObeyAll(s, [Put(ch)]) == ObeyAll(Obey(s, Put(ch)), [Put(ch)][1..]) by { ObeyValid(s, Put(ch)); }
  }

  /** Everything that is still held: the scrollback, then the grid. */
  function Held(s: Screen): seq<seq<Cell>> { s.scrollback + s.grid }

  lemma HeldRow(cols: nat, rows: nat, text: string, r: nat, c: nat, q: nat)
    requires cols >= 1 && rows >= 1 && q <= r
    ensures var s := Page(cols, rows, text, r, c);
            var gone := Top(rows, r) - |s.scrollback|;
            && |s.scrollback| == Min(Top(rows, r), SCROLLBACK_LIMIT) && gone >= 0 && q < gone + |Held(s)|
            && (q >= gone ==> Held(s)[q - gone] == SheetRow(cols, text, q))
  {
  }

  /** Character i stands in row i / cols, column i % cols, counted from the first row printed; the rows that are gone
      are the ones above the last 5000 that scrolled off. */
  lemma CharacterAt(cols: nat, rows: nat, text: string, i: nat)
    requires cols >= 1 && rows >= 1 && Printable(text) && i < |text|
    ensures Valid(Fresh(cols, rows))
    ensures var s := Written(Fresh(cols, rows), text);
            var off := Top(rows, CursorRow(cols, |text|));
            var gone := off - |s.scrollback|;
            && |s.scrollback| == Min(off, SCROLLBACK_LIMIT)
            && gone >= 0 && i / cols < gone + |Held(s)| && i % cols < cols
            && (i / cols >= gone ==>
                  |Held(s)[i / cols - gone]| == cols && Held(s)[i / cols - gone][i % cols] == Cell(text[i], PLAIN))
  {
    WrittenIsFilled(cols, rows, text);
    var r := CursorRow(cols, |text|);
    CursorCol(cols, |text|);
    RowOfCharacter(cols, |text|, i);
    HeldRow(cols, rows, text, r, |text| - r * cols, i / cols);
  }

  lemma RowOfCharacter(cols: nat, n: nat, i: nat)
    requires cols >= 1 && i < n
    ensures i / cols <= CursorRow(cols, n) && i / cols * cols + i % cols == i && i % cols < cols
  {
    DivMod(i, cols);
    DivMod(n - 1, cols);
    var r := CursorRow(cols, n);
    if i / cols > r { MulLe(r + 1, i / cols, cols); }
  }
}
