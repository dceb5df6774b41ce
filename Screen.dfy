/**
 * The text screen of the print library: 25 rows of 80 cells, each cell a
 * character byte followed by a colour byte, and a cursor (column, row).
 * `write_screen` puts characters at the cursor, wraps at column 80, moves to
 * the next row on '\n' and scrolls the whole screen up by one row when the
 * cursor has gone past the last row.
 */
module Screen {
  import opened Lib

  const COLUMNS: nat := 80
  const ROWS: nat := 25
  /** Bytes per row: two per cell (`LINE_SIZE`). */
  const LINE_SIZE: nat := 160
  const SCREEN_SIZE: nat := 4000
  /** The colour `printk` and `vprintk` write in: white on black. */
  const WHITE: char := 0xF as char

  /** A snapshot of the screen: its bytes and the cursor. */
  datatype Display = Display(cells: seq<char>, column: int, row: int)

  /**
   * The invariant `write_screen` keeps: a full screen, a column on the screen
   * and a row at most one past the last (the row a '\n' or a wrap on the last
   * row leaves behind, to be scrolled away by the next character).
   */
  predicate WellFormed(d: Display)
  {
    |d.cells| == SCREEN_SIZE && 0 <= d.column < COLUMNS && 0 <= d.row <= ROWS
  }

  /** The scroll: rows 1 to 24 move up to rows 0 to 23 and row 24 is cleared. */
  function Scroll(cells: seq<char>): (r: seq<char>)
    requires |cells| == SCREEN_SIZE
    ensures |r| == SCREEN_SIZE
    ensures forall j :: 0 <= j < LINE_SIZE * 24 ==> r[j] == cells[j + LINE_SIZE]
    ensures forall j :: LINE_SIZE * 24 <= j < SCREEN_SIZE ==> r[j] == NUL
  {
    cells[LINE_SIZE..] + seq(LINE_SIZE, _ => NUL)
  }

  /** The screen at the start of a character: scrolled once if the cursor is past the last row. */
  function Settle(d: Display): (r: Display)
    requires WellFormed(d)
    ensures WellFormed(r) && r.row < ROWS && r.column == d.column
    ensures d.row < ROWS ==> r == d
    ensures d.row == ROWS ==> r.row == ROWS - 1 && r.cells == Scroll(d.cells)
  {
    if d.row >= ROWS then Display(Scroll(d.cells), d.column, d.row - 1) else d
  }

  /** Offset of the character byte of the cell at the cursor. */
  function CellOffset(column: int, row: int): int
  {
    column * 2 + row * LINE_SIZE
  }

  /** One iteration of the loop of `write_screen`. */
  function PutChar(d: Display, c: char, color: char): (r: Display)
    requires WellFormed(d)
    ensures WellFormed(r)
  {
    var s := Settle(d);
    if c == '\n' then
      Display(s.cells, 0, s.row + 1)
    else
      var p := CellOffset(s.column, s.row);
      var cells := s.cells[p := c][p + 1 := color];
      if s.column + 1 >= COLUMNS then Display(cells, 0, s.row + 1) else Display(cells, s.column + 1, s.row)
  }

  /** The whole text put on the screen, character by character from the first. */
  function WriteAll(d: Display, text: seq<char>, color: char): (r: Display)
    requires WellFormed(d)
    ensures WellFormed(r)
    decreases |text|
  {
    if text == [] then d else WriteAll(PutChar(d, text[0], color), text[1..], color)
  }

  /**
   * A character other than '\n' lands in the cell at the (settled) cursor with
   * the colour in the byte after it; no other byte changes except by the scroll.
   * The cursor moves one column right, or to the start of the next row from
   * the last column.
   */
  lemma PutCharPlacement(d: Display, c: char, color: char)
    requires WellFormed(d) && c != '\n'
    ensures var s := Settle(d); var r := PutChar(d, c, color); var p := CellOffset(s.column, s.row);
      0 <= p && p + 1 < SCREEN_SIZE &&
      r.cells[p] == c && r.cells[p + 1] == color &&
      (forall j :: 0 <= j < SCREEN_SIZE && j != p && j != p + 1 ==> r.cells[j] == s.cells[j]) &&
      (if s.column + 1 < COLUMNS then r.column == s.column + 1 && r.row == s.row
       else r.column == 0 && r.row == s.row + 1)
  {
    var s := Settle(d);
    var p := CellOffset(s.column, s.row);
    assert p + 1 <= 79 * 2 + 24 * LINE_SIZE + 1;
  }

  /** A '\n' writes no byte: it only returns the cursor to the start of the next row. */
  lemma NewlineWritesNothing(d: Display, color: char)
    requires WellFormed(d)
    ensures PutChar(d, '\n', color) == Display(Settle(d).cells, 0, Settle(d).row + 1)
    ensures d.row < ROWS ==> PutChar(d, '\n', color).cells == d.cells
  {
  }

  /** Writing a text in two pieces is writing it at once. */
  lemma {:induction false} WriteAllConcat(d: Display, a: seq<char>, b: seq<char>, color: char)
    requires WellFormed(d)
    ensures WriteAll(d, a + b, color) == WriteAll(WriteAll(d, a, color), b, color)
    decreases |a|
  {
    if a != [] {
      assert (a + b)[1..] == a[1..] + b;
      WriteAllConcat(PutChar(d, a[0], color), a[1..], b, color);
    } else {
      assert a + b == b;
    }
  }

  /** The screen after one more character: the text so far, then that character. */
  lemma WriteAllSnoc(d: Display, a: seq<char>, c: char, color: char)
    requires WellFormed(d)
    ensures WriteAll(d, a + [c], color) == PutChar(WriteAll(d, a, color), c, color)
  {
    WriteAllConcat(d, a, [c], color);
  }

  /**
   * Text without a newline that fits on the rest of the row advances the
   * cursor by its length on the same row, with no scroll.
   */
  lemma {:induction false} WriteAllOnOneRow(d: Display, text: seq<char>, color: char)
    requires WellFormed(d) && d.row < ROWS && d.column + |text| < COLUMNS
    requires forall i :: 0 <= i < |text| ==> text[i] != '\n'
    ensures WriteAll(d, text, color).row == d.row
    ensures WriteAll(d, text, color).column == d.column + |text|
    decreases |text|
  {
    if text != [] {
      WriteAllOnOneRow(PutChar(d, text[0], color), text[1..], color);
    }
  }

  /** The screen as the kernel keeps it: the cell bytes and the cursor. */
  class ScreenBuffer {
    var cells: array<char>
    var column: int
    var row: int

    ghost predicate Valid()
      reads this, cells
    {
      WellFormed(Display(cells[..], column, row))
    }

    function Snapshot(): (d: Display)
      reads this, cells
      ensures d.cells == cells[..] && d.column == column && d.row == row
    {
      Display(cells[..], column, row)
    }

    /**
     * The screen as the kernel starts it: the text memory is left as it is
     * found, and the cursor is at the top left.
     */
    constructor (initial: seq<char>)
      requires |initial| == SCREEN_SIZE
      ensures Valid() && fresh(cells)
      ensures Snapshot() == Display(initial, 0, 0)
    {
      cells := new char[SCREEN_SIZE](j requires 0 <= j < SCREEN_SIZE => initial[j]);
      column := 0;
      row := 0;
    }

    /**
     * The `memcpy` and `memset` of the scroll, each as one simultaneous
     * update: every cell of the shifted rows takes the value the cell one
     * line below held before the copy began.
     */
    method ScrollCells()
      requires Valid()
      modifies cells
      ensures cells[..] == Scroll(old(cells[..]))
    {
      forall j | 0 <= j < LINE_SIZE * 24 {
        cells[j] := cells[j + LINE_SIZE];
      }
      forall j | LINE_SIZE * 24 <= j < SCREEN_SIZE {
        cells[j] := NUL;
      }
    }

    /**
     * `write_screen(buffer, size, sb, color)` with the first size characters
     * of buffer as text: the screen ends as putting the text character by
     * character leaves it, and the cursor is stored back.
     */
    method WriteScreen(text: seq<char>, color: char)
      requires Valid()
      modifies this, cells
      ensures Valid() && cells == old(cells)
      ensures Snapshot() == WriteAll(old(Snapshot()), text, color)
    {
      var col := column;
      var r := row;
      var i := 0;
      while i < |text|
        invariant 0 <= i <= |text|
        invariant WellFormed(Display(cells[..], col, r))
        invariant WriteAll(Display(cells[..], col, r), text[i..], color) == WriteAll(old(Snapshot()), text, color)
        invariant column == old(column) && row == old(row) && cells == old(cells)
      {
        ghost var before := Display(cells[..], col, r);
        if r >= ROWS {
          ScrollCells();
          r := r - 1;
        }
        assert Display(cells[..], col, r) == Settle(before);
        if text[i] == '\n' {
          col := 0;
          r := r + 1;
        } else {
          cells[CellOffset(col, r)] := text[i];
          cells[CellOffset(col, r) + 1] := color;
          col := col + 1;
          if col >= COLUMNS {
            col := 0;
            r := r + 1;
          }
        }
        assert Display(cells[..], col, r) == PutChar(before, text[i], color);
        assert text[i..][1..] == text[i + 1..];
        i := i + 1;
      }
      column := col;
      row := r;
    }
  }
}
