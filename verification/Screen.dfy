/**
 * One text screen: putting characters on a page of cells with scrolling
 * (student-distrib/lib.c), and the endless tape of which it shows 25 rows.
 */
module Screen {
  import opened Bytes

  const NUM_COLS := 80
  const NUM_ROWS := 25
  const CELLS := 2000       // NUM_ROWS * NUM_COLS
  const PAGE_CELLS := 2048  // a page of four kilobytes, two bytes to a cell
  const ATTRIB: byte := 0x07

  datatype Cell = Cell(ch: byte, attr: byte)

  const BLANK := Cell(0, ATTRIB)

  /** A page of video memory and the place where the next character goes. */
  datatype Screen = Screen(page: seq<Cell>, x: int, y: int)

  predicate InWindow(s: Screen) {
    |s.page| == PAGE_CELLS && 0 <= s.x < NUM_COLS && 0 <= s.y < NUM_ROWS
  }

  predicate AtOrigin(s: Screen) {
    s.x == 0 && s.y == 0
  }

  predicate IsNewline(c: byte) {
    c == NEWLINE || c == RETURN
  }

  // ---- One character -------------------------------------------------------------

  /** The cursor after a character, before any scrolling. */
  function Advanced(x: int, y: int, c: byte): (int, int) {
    if IsNewline(c) then (0, y + 1)
    else if c == BACKSPACE then (if x == 0 then (NUM_COLS - 1, y - 1) else (x - 1, y))
    else if x + 1 == NUM_COLS then (0, y + 1)
    else (x + 1, y)
  }

  /** The cursor after a character and the scrolling it causes. */
  function Cursor(x: int, y: int, c: byte): (int, int) {
    var (x', y') := Advanced(x, y, c);
    (x', if y' == NUM_ROWS then y' - 1 else y')
  }

  /** A character leaves the cursor in the window unless it is a backspace at the origin. */
  lemma CursorStays(x: int, y: int, c: byte)
    requires 0 <= x < NUM_COLS && 0 <= y < NUM_ROWS
    ensures var (x', y') := Cursor(x, y, c);
            0 <= x' < NUM_COLS && 0 <= y' < NUM_ROWS <==> !(c == BACKSPACE && x == 0 && y == 0)
  {
  }

  /** The page moved up by one row, with a blank last row; the bytes below the window stay. */
  function Scrolled(page: seq<Cell>): (r: seq<Cell>)
    requires |page| == PAGE_CELLS
    ensures |r| == PAGE_CELLS
  {
    seq(PAGE_CELLS, k requires 0 <= k < PAGE_CELLS =>
      if k < CELLS - NUM_COLS then page[k + NUM_COLS] else if k < CELLS then BLANK else page[k])
  }

  /** In numbers: each of the first 24 rows becomes the one below it, the last blank, and the page's end stays. */
  lemma ScrollMoves(page: seq<Cell>, k: nat)
    requires |page| == 2048 && k < 2048
    ensures Scrolled(page)[k] ==
      if k < 24 * 80 then page[k + 80] else if k < 25 * 80 then Cell(0x00, 0x07) else page[k]
  {
  }

  /** What a character does to a screen. */
  function Put(s: Screen, c: byte): (s': Screen)
    requires InWindow(s) && !(c == BACKSPACE && AtOrigin(s))
    ensures InWindow(s') && (s'.x, s'.y) == Cursor(s.x, s.y, c)
  {
    var (x, y) := Advanced(s.x, s.y, c);
    var page :=
      if IsNewline(c) then s.page
      else if c == BACKSPACE then s.page[NUM_COLS * y + x := BLANK]
      else s.page[NUM_COLS * s.y + s.x := Cell(c, ATTRIB)];
    if y == NUM_ROWS then Screen(Scrolled(page), x, y - 1) else Screen(page, x, y)
  }

  // ---- In place ---------------------------------------------------------------------

  /** Copies every row onto the one above it and blanks the last. */
  method ScrollDisplay(page: array<Cell>)
    requires page.Length == PAGE_CELLS
    modifies page
    ensures page[..] == Scrolled(old(page[..]))
  {
    var i := 0;
    while i < NUM_ROWS - 1
      invariant 0 <= i <= NUM_ROWS - 1
      invariant forall k :: 0 <= k < NUM_COLS * i ==> page[k] == old(page[k + NUM_COLS])
      invariant forall k :: NUM_COLS * i <= k < PAGE_CELLS ==> page[k] == old(page[k])
    {
      CopyRow(page, NUM_COLS * i);
      i := i + 1;
    }
    var j := (NUM_ROWS - 1) * NUM_COLS;
    while j < NUM_ROWS * NUM_COLS
      invariant CELLS - NUM_COLS <= j <= CELLS
      invariant forall k :: 0 <= k < CELLS - NUM_COLS ==> page[k] == old(page[k + NUM_COLS])
      invariant forall k :: CELLS - NUM_COLS <= k < j ==> page[k] == BLANK
      invariant forall k :: CELLS <= k < PAGE_CELLS ==> page[k] == old(page[k])
    {
      page[j] := BLANK;
      j := j + 1;
    }
  }

  method CopyRow(page: array<Cell>, at: nat)
    requires page.Length == PAGE_CELLS && at + 2 * NUM_COLS <= PAGE_CELLS
    modifies page
    ensures forall k :: 0 <= k < PAGE_CELLS ==>
              page[k] == old(page[if at <= k < at + NUM_COLS then k + NUM_COLS else k])
  {
    var j := 0;
    while j < NUM_COLS
      invariant 0 <= j <= NUM_COLS
      invariant forall k :: 0 <= k < PAGE_CELLS ==> page[k] == old(page[if at <= k < at + j then k + NUM_COLS else k])
    {
      page[at + j] := page[at + NUM_COLS + j];
      j := j + 1;
    }
  }

  /** Puts a character at (x, y) of a page of video memory and returns the new place. */
  method PutChar(page: array<Cell>, x: int, y: int, c: byte) returns (x': int, y': int)
    requires InWindow(Screen(page[..], x, y)) && !(c == BACKSPACE && x == 0 && y == 0)
    modifies page
    ensures Screen(page[..], x', y') == Put(Screen(old(page[..]), x, y), c)
    ensures (x', y') == Cursor(x, y, c)
  {
    x', y' := x, y;
    if c == NEWLINE || c == RETURN {
      y' := y' + 1;
      x' := 0;
    } else if c == BACKSPACE {
      x' := x' - 1;
      if x' == -1 {
        y' := y' - 1;
        x' := x' + NUM_COLS;
      }
      page[NUM_COLS * y' + x'] := BLANK;
    } else {
      page[NUM_COLS * y' + x'] := Cell(c, ATTRIB);
      x' := x' + 1;
      x' := x' % NUM_COLS;
      if x' == 0 {
        y' := y' + 1;
      }
    }
    if y' == NUM_ROWS {
      ScrollDisplay(page);
      y' := y' - 1;
    }
  }

  // ---- The tape -----------------------------------------------------------------------

  /** An endless row of cells, blank from the end of `cells` on, and a place on it; `top` is the first row in view. */
  datatype Tape = Tape(cells: seq<Cell>, pos: nat, top: nat)

  function CellAt(t: Tape, i: nat): Cell {
    if i < |t.cells| then t.cells[i] else BLANK
  }

  function Written(t: Tape, i: nat, c: Cell): (t': Tape)
    ensures t'.pos == t.pos && t'.top == t.top && forall k: nat :: CellAt(t', k) == if k == i then c else CellAt(t, k)
  {
    var length := if i < |t.cells| then |t.cells| else i + 1;
    t.(cells := seq(length, k requires 0 <= k => if k == i then c else CellAt(t, k)))
  }

  /** The place moves; the view follows it down but never up. */
  function MovedTo(t: Tape, pos: nat): Tape {
    var row := pos / NUM_COLS;
    t.(pos := pos, top := if row - (NUM_ROWS - 1) > t.top then row - (NUM_ROWS - 1) else t.top)
  }

  /**
   * A character is written and the place moves on; a newline moves to the next row;
   * a backspace moves back and blanks.
   */
  function TapePut(t: Tape, c: byte): (t': Tape)
    requires c == BACKSPACE ==> t.pos > 0
  {
    if c == NEWLINE || c == RETURN then MovedTo(t, (t.pos / NUM_COLS + 1) * NUM_COLS)
    else if c == BACKSPACE then MovedTo(Written(t, t.pos - 1, BLANK), t.pos - 1)
    else MovedTo(Written(t, t.pos, Cell(c, ATTRIB)), t.pos + 1)
  }

  /** The first place of the row after the one that place `i` is in. */
  ghost predicate NextRowAt(i: nat, j: nat) {
    j % 80 == 0 && i < j <= i + 80
  }

  /**
   * What each character does to the tape, in numbers: 0x0A and 0x0D go to the
   * next row of 80 places and write nothing; 0x08 goes one back and writes a NUL
   * there; every other character is written, light grey on black, and the place
   * goes one on. No other cell changes, and the place is among 25 rows in view.
   */
  lemma CharactersOnTape(t: Tape, c: byte)
    requires c == 0x08 ==> t.pos > 0
    ensures var t' := TapePut(t, c);
            && (if c == 0x0A || c == 0x0D then NextRowAt(t.pos, t'.pos)
                else t'.pos == if c == 0x08 then t.pos - 1 else t.pos + 1)
            && (forall i: nat :: CellAt(t', i) ==
                  if c == 0x0A || c == 0x0D then CellAt(t, i)
                  else if c == 0x08 then (if i == t.pos - 1 then Cell(0x00, 0x07) else CellAt(t, i))
                  else if i == t.pos then Cell(c, 0x07) else CellAt(t, i))
            && t'.top >= t.top && t'.pos < 80 * (t'.top + 25)
            && (t'.top > t.top ==> t'.pos >= 80 * (t'.top + 24))
  {
  }

  /** The screen shows the 25 rows of the tape from `top` on, and nothing has been written below them. */
  ghost predicate Shows(s: Screen, t: Tape) {
    && InWindow(s)
    && t.pos == 80 * (t.top + s.y) + s.x
    && (forall k :: 0 <= k < 2000 ==> s.page[k] == CellAt(t, 80 * t.top + k))
    && (forall i: nat :: i >= 80 * t.top + 2000 ==> CellAt(t, i) == BLANK)
  }

  /** Where the place goes: on the tape it is the same place, in view. */
  lemma PlaceMoves(s: Screen, t: Tape, c: byte)
    requires Shows(s, t) && !(c == BACKSPACE && AtOrigin(s))
    ensures c == BACKSPACE ==> t.pos > 0
    ensures var s', t' := Put(s, c), TapePut(t, c);
            && t'.pos == NUM_COLS * (t'.top + s'.y) + s'.x
            && t'.top == t.top + (if Advanced(s.x, s.y, c).1 == NUM_ROWS then 1 else 0)
  {
    assert t.pos / NUM_COLS == t.top + s.y;
  }

  /** A cell of the window shows the tape after a character, also when the window has scrolled. */
  lemma CellShows(s: Screen, t: Tape, c: byte, k: nat)
    requires Shows(s, t) && !(c == BACKSPACE && AtOrigin(s)) && k < CELLS
    ensures c == BACKSPACE ==> t.pos > 0
    ensures Put(s, c).page[k] == CellAt(TapePut(t, c), NUM_COLS * TapePut(t, c).top + k)
  {
    PlaceMoves(s, t, c);
    if TapePut(t, c).top == t.top {
      assert s.page[k] == CellAt(t, NUM_COLS * t.top + k);
    } else if k < CELLS - NUM_COLS {
      assert s.page[k + NUM_COLS] == CellAt(t, NUM_COLS * t.top + (k + NUM_COLS));
    } else {
      assert CellAt(t, NUM_COLS * t.top + (k + NUM_COLS)) == BLANK;
    }
  }

  /** The screen is a window on the tape: what a character does to one, it does to the other. */
  lemma PutShows(s: Screen, t: Tape, c: byte)
    requires Shows(s, t) && !(c == BACKSPACE && AtOrigin(s))
    ensures c == BACKSPACE ==> t.pos > 0
    ensures Shows(Put(s, c), TapePut(t, c))
  {
    PlaceMoves(s, t, c);
    var s', t' := Put(s, c), TapePut(t, c);
    forall k | 0 <= k < CELLS ensures s'.page[k] == CellAt(t', NUM_COLS * t'.top + k) { CellShows(s, t, c, k); }
    forall i: nat | i >= NUM_COLS * t'.top + CELLS ensures CellAt(t', i) == BLANK { assert CellAt(t, i) == BLANK; }
  }

  /** A screen's own rows as a tape, with nothing above them. */
  function TapeOf(s: Screen): Tape
    requires InWindow(s)
  {
    Tape(s.page[..CELLS], NUM_COLS * s.y + s.x, 0)
  }

  /** Every screen is a window on some tape, whatever is on it. */
  lemma ShowsOwnTape(s: Screen)
    requires InWindow(s)
    ensures Shows(s, TapeOf(s))
  {
  }

  /** On the tape, the origin of the window is the start of the first row in view. */
  lemma OriginIsTop(s: Screen, t: Tape)
    requires Shows(s, t)
    ensures AtOrigin(s) <==> t.pos == NUM_COLS * t.top
  {
  }
}
