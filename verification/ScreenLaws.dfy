/** What pairs of control sequences do to the screen, and what the alternate screen protects. */
module ScreenLaws {
  import opened Shifting
  import opened TerminalScreen
  import opened EscapeParsing

  /** Deleting as many lines as were inserted restores every line that was not pushed off the bottom. */
  lemma LinesRestored(s: Screen, n: nat)
    requires Valid(s)
    ensures Valid(LinesInserted(s, n))
    ensures var k := Min(n, s.rows - s.row);
            LinesDeleted(LinesInserted(s, n), n) == s.(grid := s.grid[..s.rows - k] + Repeat(BlankRow(s.cols), k))
  {
    ShiftValid(s, n);
    DeleteUndoesInsert(s.grid, s.row, BlankRow(s.cols), n);
  }

  /** The same for characters in the cursor's line; behind the last column both do nothing. */
  lemma CharsRestored(s: Screen, n: nat)
    requires Valid(s)
    ensures Valid(CharsInserted(s, n))
    ensures var k := Min(n, s.cols - s.col);
            var line := s.grid[s.row];
            CharsDeleted(CharsInserted(s, n), n) == s.(grid := s.grid[s.row := line[..s.cols - k] + Repeat(BLANK, k)])
  {
    ShiftValid(s, n);
    var line := s.grid[s.row];
    if s.col < s.cols {
      DeleteUndoesInsert(line, s.col, BLANK, n);
      assert CharsInserted(s, n).grid[s.row] == InsertTimes(line, s.col, BLANK, n);
    } else {
      assert line[..s.cols] + Repeat(BLANK, 0) == line;
      assert s.grid[s.row := line] == s.grid;
    }
  }

  /** Lines above the cursor, and cells before it, do not move. */
  lemma NothingBeforeCursor(s: Screen, n: nat, r: nat, c: nat)
    requires Valid(s) && r < s.rows && c < s.cols
    ensures r < s.row ==> LinesInserted(s, n).grid[r] == s.grid[r] && LinesDeleted(s, n).grid[r] == s.grid[r]
    ensures r != s.row || c < s.col ==>
              (CharsInserted(s, n).grid[r][c] == s.grid[r][c] && CharsDeleted(s, n).grid[r][c] == s.grid[r][c])
  {
    InsertTimesAt(s.grid, s.row, BlankRow(s.cols), n, r);
    DeleteTimesAt(s.grid, s.row, BlankRow(s.cols), n, r);
    if s.col < s.cols {
      InsertTimesAt(s.grid[s.row], s.col, BLANK, n, c);
      DeleteTimesAt(s.grid[s.row], s.col, BLANK, n, c);
    }
  }

  /** On the alternate screen no command touches the scrollback. */
  lemma AlternateKeepsScrollback(s: Screen, c: Command)
    requires Valid(s) && s.alternate
    ensures Obey(s, c).scrollback == s.scrollback
  {
  }

  /** Entering the alternate screen and leaving it puts the cursor back, within the last column, but not the text:
      there is one grid, and entering blanks it. The text comes back exactly when there was none. */
  lemma LeavingDoesNotRestore(s: Screen)
    requires Valid(s)
    ensures var inside := HandleCsi(s, "?1049h");
            && Valid(inside) && inside.alternate
            && HandleCsi(inside, "?1049l")
               == s.(alternate := false, savedRow := s.row, savedCol := s.col, col := Min(s.col, s.cols - 1),
                     grid := Repeat(BlankRow(s.cols), s.rows))
            && (HandleCsi(inside, "?1049l").grid == s.grid <==> forall i :: 0 <= i < s.rows ==> s.grid[i] == BlankRow(s.cols))
  {
    HandleCsiValid(s, "?1049h");
    assert "?1049h"[..5] == "?1049" && "?1049l"[..5] == "?1049";
    assert HandleCsi(s, "?1049h") == Cleared(Saved(s.(alternate := true)));
  }

  /** Restoring after saving moves the cursor only if it stood behind the last column. */
  lemma RestoreAfterSave(s: Screen)
    requires Valid(s)
    ensures Valid(Saved(s)) && (Restored(Saved(s)) == Saved(s) <==> s.col < s.cols)
  {
  }
}
