/**
 * The two frames of the fish, read side by side, one character at a time
 * (fish/fish.c), and the blinkers that are asked for.
 */
module Frames {
  import opened Bytes
  import opened Blinks

  const OFFSET := 40
  const LENGTH: word := 15
  const DIGIT_0: byte := 0x30

  // ---- What is asked for ---------------------------------------------------------------

  /** The rows of a text from `i` on: what stands between its newlines, the last row included even if it is empty. */
  function Rows(text: seq<byte>, i: nat): (rows: seq<seq<byte>>)
    requires i <= |text|
    ensures rows != []
    decreases |text| - i
  {
    var e := LineEnd(text, i);
    if e < |text| then [text[i..e]] + Rows(text, e + 1) else [text[i..e]]
  }

  function RowAt(rows: seq<seq<byte>>, r: nat): seq<byte> {
    if r < |rows| then rows[r] else []
  }

  function CharAt(row: seq<byte>, col: nat): byte {
    if col < |row| then row[col] else SPACE
  }

  function Longer(m: nat, n: nat): nat {
    if m < n then n else m
  }

  /** The request for one cell; the location is sixteen bits wide. */
  function Request(row0: seq<byte>, row1: seq<byte>, r: nat, col: nat): Blinker {
    Blinker((r * 80 + col + OFFSET) % 0x1_0000, CharAt(row0, col), CharAt(row1, col), LENGTH, LENGTH, 0, false)
  }

  function CellRequest(row0: seq<byte>, row1: seq<byte>, r: nat, col: nat): seq<Blinker> {
    if CharAt(row0, col) != SPACE || CharAt(row1, col) != SPACE then [Request(row0, row1, r, col)] else []
  }

  /** The cells of a row from `col` on where at least one of the two rows, padded with spaces, has a character. */
  function RowRequests(row0: seq<byte>, row1: seq<byte>, r: nat, col: nat): seq<Blinker>
    decreases Longer(|row0|, |row1|) - col
  {
    if col >= Longer(|row0|, |row1|) then []
    else CellRequest(row0, row1, r, col) + RowRequests(row0, row1, r, col + 1)
  }

  /** The requests for all rows of the longer text from `r` on, row by row. */
  function Requests(rows0: seq<seq<byte>>, rows1: seq<seq<byte>>, r: nat): seq<Blinker>
    decreases Longer(|rows0|, |rows1|) - r
  {
    if r >= Longer(|rows0|, |rows1|) then []
    else RowRequests(RowAt(rows0, r), RowAt(rows1, r), r, 0) + Requests(rows0, rows1, r + 1)
  }

  // ---- The cells of two texts ---------------------------------------------------------------

  /** The rows with newlines between them. */
  function Spelled(rows: seq<seq<byte>>): seq<byte> {
    if rows == [] then [] else if |rows| == 1 then rows[0] else rows[0] + [0x0A] + Spelled(rows[1..])
  }

  lemma SpelledCons(row: seq<byte>, rows: seq<seq<byte>>)
    requires rows != []
    ensures Spelled([row] + rows) == row + [0x0A] + Spelled(rows)
  {
    assert ([row] + rows)[1..] == rows;
  }

  /** The rows of a text, with newlines between them, spell the text. */
  lemma {:induction false} RowsSpell(text: seq<byte>, i: nat)
    requires i <= |text|
    ensures Spelled(Rows(text, i)) == text[i..]
    decreases |text| - i
  {
    var e := LineEnd(text, i);
    if e < |text| {
      RowsSpell(text, e + 1);
      SpelledCons(text[i..e], Rows(text, e + 1));
      assert Spelled(Rows(text, i)) == text[i..e] + [0x0A] + text[e + 1..];
      CutAtNewline(text, i, e);
    } else {
      assert Spelled([text[i..e]]) == text[i..];
    }
  }

  lemma CutAtNewline(text: seq<byte>, i: nat, e: nat)
    requires i <= e < |text| && text[e] == 0x0A
    ensures text[i..e] + [0x0A] + text[e + 1..] == text[i..]
  {
  }

  /** And no row has a newline in it. */
  lemma {:induction false} RowsHaveNoNewline(text: seq<byte>, i: nat, row: seq<byte>)
    requires i <= |text| && row in Rows(text, i)
    ensures 0x0A !in row
    decreases |text| - i
  {
    var e := LineEnd(text, i);
    if row != text[i..e] { RowsHaveNoNewline(text, e + 1, row); }
  }

  /** The character at a column of a row of a text; a blank where the text has none. */
  function TextAt(text: seq<byte>, r: nat, col: nat): byte {
    var rows := Rows(text, 0);
    if r < |rows| && col < |rows[r]| then rows[r][col] else 0x20
  }

  /** What is asked for at a cell of two texts: the first one's character on and the second's off, for 15 ticks each. */
  function Asked(text0: seq<byte>, text1: seq<byte>, r: nat, col: nat): Blinker {
    Blinker((r * 80 + col + 40) % 0x1_0000, TextAt(text0, r, col), TextAt(text1, r, col), 15, 15, 0, false)
  }

  predicate Blank(text0: seq<byte>, text1: seq<byte>, r: nat, col: nat) {
    TextAt(text0, r, col) == 0x20 && TextAt(text1, r, col) == 0x20
  }

  ghost predicate FromCell(text0: seq<byte>, text1: seq<byte>, q: Blinker) {
    exists r: nat, col: nat :: !Blank(text0, text1, r, col) && q == Asked(text0, text1, r, col)
  }

  lemma {:induction false} CellInRow(row0: seq<byte>, row1: seq<byte>, r: nat, from: nat, col: nat)
    requires from <= col && (CharAt(row0, col) != SPACE || CharAt(row1, col) != SPACE)
    ensures Request(row0, row1, r, col) in RowRequests(row0, row1, r, from)
    decreases col - from
  {
    if from < col { CellInRow(row0, row1, r, from + 1, col); }
  }

  lemma {:induction false} CellInRows(rows0: seq<seq<byte>>, rows1: seq<seq<byte>>, from: nat, r: nat, col: nat)
    requires from <= r && (CharAt(RowAt(rows0, r), col) != SPACE || CharAt(RowAt(rows1, r), col) != SPACE)
    ensures Request(RowAt(rows0, r), RowAt(rows1, r), r, col) in Requests(rows0, rows1, from)
    decreases r - from
  {
    assert r < Longer(|rows0|, |rows1|);
    var row, rest := RowRequests(RowAt(rows0, from), RowAt(rows1, from), from, 0), Requests(rows0, rows1, from + 1);
    assert Requests(rows0, rows1, from) == row + rest;
    if from < r {
      CellInRows(rows0, rows1, from + 1, r, col);
    } else {
      CellInRow(RowAt(rows0, r), RowAt(rows1, r), r, 0, col);
    }
  }

  lemma {:induction false} RowHasCell(row0: seq<byte>, row1: seq<byte>, r: nat, from: nat, q: Blinker)
    returns (col: nat)
    requires q in RowRequests(row0, row1, r, from)
    ensures q == Request(row0, row1, r, col) && (CharAt(row0, col) != SPACE || CharAt(row1, col) != SPACE)
    decreases Longer(|row0|, |row1|) - from
  {
    if q in CellRequest(row0, row1, r, from) {
      col := from;
    } else {
      col := RowHasCell(row0, row1, r, from + 1, q);
    }
  }

  lemma {:induction false} RowsHaveCell(rows0: seq<seq<byte>>, rows1: seq<seq<byte>>, from: nat, q: Blinker)
    returns (r: nat, col: nat)
    requires q in Requests(rows0, rows1, from)
    ensures q == Request(RowAt(rows0, r), RowAt(rows1, r), r, col)
    ensures CharAt(RowAt(rows0, r), col) != SPACE || CharAt(RowAt(rows1, r), col) != SPACE
    decreases Longer(|rows0|, |rows1|) - from
  {
    if q in RowRequests(RowAt(rows0, from), RowAt(rows1, from), from, 0) {
      r := from;
      col := RowHasCell(RowAt(rows0, from), RowAt(rows1, from), from, 0, q);
    } else {
      r, col := RowsHaveCell(rows0, rows1, from + 1, q);
    }
  }

  /**
   * The requests are those of the cells at which one of the texts has a
   * character: each such cell is asked for, with the character of either text,
   * and nothing else is.
   */
  lemma CellsAsked(text0: seq<byte>, text1: seq<byte>)
    ensures var reqs := Requests(Rows(text0, 0), Rows(text1, 0), 0);
            && (forall r: nat, col: nat :: !Blank(text0, text1, r, col) ==> Asked(text0, text1, r, col) in reqs)
            && (forall q :: q in reqs ==> FromCell(text0, text1, q))
  {
    var rows0, rows1 := Rows(text0, 0), Rows(text1, 0);
    var reqs := Requests(rows0, rows1, 0);
    forall r: nat, col: nat | !Blank(text0, text1, r, col) ensures Asked(text0, text1, r, col) in reqs {
      CellInRows(rows0, rows1, 0, r, col);
    }
    forall q | q in reqs ensures FromCell(text0, text1, q) {
      var r, col := RowsHaveCell(rows0, rows1, 0, q);
      assert !Blank(text0, text1, r, col) && q == Asked(text0, text1, r, col);
    }
  }

  // ---- Reading one file ------------------------------------------------------------------

  /** An open file, the last character read from it, and whether its end has been met. */
  datatype Reader = Reader(text: seq<byte>, pos: nat, c: byte, eof: bool)

  /** Reads on unless the row has ended; the end of the file ends the row. */
  function ReadOn(f: Reader): Reader {
    if f.c == NEWLINE then f
    else if f.pos >= |f.text| then f.(c := NEWLINE, eof := true)
    else f.(c := f.text[f.pos], pos := f.pos + 1)
  }

  function NextRow(f: Reader): Reader {
    f.(c := if f.eof then NEWLINE else DIGIT_0)
  }

  /** Row `r` of the text starts at `starts[r]` and is followed by the next row, or by the end of the text. */
  ghost predicate CutAt(text: seq<byte>, rows: seq<seq<byte>>, starts: seq<nat>, r: nat)
    requires r < |rows| == |starts|
  {
    && starts[r] <= |text|
    && var e := LineEnd(text, starts[r]);
    && rows[r] == text[starts[r]..e]
    && (if r + 1 < |rows| then e < |text| && starts[r + 1] == e + 1 else e == |text|)
  }

  ghost predicate Cut(text: seq<byte>, rows: seq<seq<byte>>, starts: seq<nat>) {
    |rows| == |starts| > 0 && forall r :: 0 <= r < |rows| ==> CutAt(text, rows, starts, r)
  }

  lemma {:induction false} RowsCut(text: seq<byte>, i: nat) returns (starts: seq<nat>)
    requires i <= |text|
    ensures Cut(text, Rows(text, i), starts) && starts[0] == i
    decreases |text| - i
  {
    var e := LineEnd(text, i);
    starts := [i];
    if e < |text| {
      var rest := RowsCut(text, e + 1);
      starts := [i] + rest;
      forall r | 0 <= r < |starts| ensures CutAt(text, Rows(text, i), starts, r) {
        if r > 0 { assert CutAt(text, Rows(text, e + 1), rest, r - 1); }
      }
    }
  }

  /** Before row `r`: either there are rows left and the file stands at the start of the next, or it is exhausted. */
  ghost predicate AtRow(f: Reader, rows: seq<seq<byte>>, starts: seq<nat>, r: nat) {
    && Cut(f.text, rows, starts)
    && if f.eof then f.c == NEWLINE && r >= |rows| else f.c != NEWLINE && r < |rows| && f.pos == starts[r]
  }

  /** The file `f` after `col` characters were asked of row `r`, at which `f0` stood. */
  ghost predicate InRow(f: Reader, f0: Reader, rows: seq<seq<byte>>, r: nat, col: nat) {
    f.text == f0.text &&
    if f0.eof then f == f0
    else if col <= |RowAt(rows, r)| then f.c != NEWLINE && !f.eof && f.pos == f0.pos + col
    else f.c == NEWLINE && f.eof == (r + 1 >= |rows|) && (!f.eof ==> f.pos == f0.pos + |RowAt(rows, r)| + 1)
  }

  lemma {:induction false} ReadOnStep(f: Reader, f0: Reader, rows: seq<seq<byte>>, starts: seq<nat>, r: nat, col: nat)
    requires AtRow(f0, rows, starts, r) && InRow(f, f0, rows, r, col)
    ensures InRow(ReadOn(f), f0, rows, r, col + 1)
    ensures ReadOn(f).c == (if col < |RowAt(rows, r)| then RowAt(rows, r)[col] else NEWLINE)
    ensures ReadOn(f).c == NEWLINE <==> col >= |RowAt(rows, r)|
  {
    if !f0.eof { assert CutAt(f0.text, rows, starts, r); }
  }

  lemma {:induction false} RowEnds(f: Reader, f0: Reader, rows: seq<seq<byte>>, starts: seq<nat>, r: nat, col: nat)
    requires AtRow(f0, rows, starts, r) && InRow(f, f0, rows, r, col) && col > |RowAt(rows, r)|
    ensures AtRow(NextRow(f), rows, starts, r + 1)
  {
    if !f0.eof { assert CutAt(f0.text, rows, starts, r); }
  }

  lemma {:induction false} Rejoin(a: seq<Blinker>, b: seq<Blinker>, c: seq<Blinker>)
    ensures a + (b + c) == (a + b) + c
  {
  }

  // ---- Reading both ----------------------------------------------------------------------

  /** The request for a cell, if one of the two characters is not a blank; a newline stands for a blank. */
  method AddCell(c0: byte, c1: byte, r: nat, col: nat, ghost row0: seq<byte>, ghost row1: seq<byte>)
    returns (cell: seq<Blinker>)
    requires if col < |row0| then c0 == row0[col] != NEWLINE else c0 == NEWLINE
    requires if col < |row1| then c1 == row1[col] != NEWLINE else c1 == NEWLINE
    ensures cell == CellRequest(row0, row1, r, col)
  {
    if (c0 != SPACE && c0 != NEWLINE) || (c1 != SPACE && c1 != NEWLINE) {
      var onChar := if c0 == NEWLINE then SPACE else c0;
      var offChar := if c1 == NEWLINE then SPACE else c1;
      return [Blinker((r * 80 + col + OFFSET) % 0x1_0000, onChar, offChar, LENGTH, LENGTH, 0, false)];
    }
    return [];
  }

  /** Reads one row of both files, asking for a blinker wherever one of them has a character. */
  method AddRow(f0: Reader, f1: Reader, r: nat,
                ghost rows0: seq<seq<byte>>, ghost starts0: seq<nat>, ghost rows1: seq<seq<byte>>,
                ghost starts1: seq<nat>)
    returns (g0: Reader, g1: Reader, requests: seq<Blinker>)
    requires AtRow(f0, rows0, starts0, r) && AtRow(f1, rows1, starts1, r)
    ensures AtRow(NextRow(g0), rows0, starts0, r + 1) && AtRow(NextRow(g1), rows1, starts1, r + 1)
    ensures requests == RowRequests(RowAt(rows0, r), RowAt(rows1, r), r, 0)
  {
    g0, g1, requests := f0, f1, [];
    var col := 0;
    ghost var row0, row1 := RowAt(rows0, r), RowAt(rows1, r);
    while true
      invariant 0 <= col <= Longer(|row0|, |row1|)
      invariant InRow(g0, f0, rows0, r, col) && InRow(g1, f1, rows1, r, col)
      invariant requests + RowRequests(row0, row1, r, col) == RowRequests(row0, row1, r, 0)
      decreases Longer(|row0|, |row1|) - col
    {
      ReadOnStep(g0, f0, rows0, starts0, r, col);
      ReadOnStep(g1, f1, rows1, starts1, r, col);
      g0, g1 := ReadOn(g0), ReadOn(g1);
      if g0.c == NEWLINE && g1.c == NEWLINE { break; }
      Rejoin(requests, CellRequest(row0, row1, r, col), RowRequests(row0, row1, r, col + 1));
      var cell := AddCell(g0.c, g1.c, r, col, row0, row1);
      requests := requests + cell;
      col := col + 1;
    }
    RowEnds(g0, f0, rows0, starts0, r, col + 1);
    RowEnds(g1, f1, rows1, starts1, r, col + 1);
  }

  /** `plan[r]` is what is still to be asked for before row `r`. */
  ghost predicate IsPlan(plan: seq<seq<Blinker>>, rows0: seq<seq<byte>>, rows1: seq<seq<byte>>) {
    && |plan| == Longer(|rows0|, |rows1|) + 1 && plan[|plan| - 1] == []
    && forall r :: 0 <= r < |plan| - 1 ==> plan[r] == RowRequests(RowAt(rows0, r), RowAt(rows1, r), r, 0) + plan[r + 1]
  }

  lemma {:induction false} Planned(rows0: seq<seq<byte>>, rows1: seq<seq<byte>>) returns (plan: seq<seq<Blinker>>)
    ensures IsPlan(plan, rows0, rows1) && plan[0] == Requests(rows0, rows1, 0)
  {
    plan := seq(Longer(|rows0|, |rows1|) + 1, r requires 0 <= r => Requests(rows0, rows1, r));
  }

  /** Reads both frames to their ends; `requests` are the calls made to the driver, in order. */
  method AddFrames(text0: seq<byte>, text1: seq<byte>) returns (requests: seq<Blinker>)
    ensures requests == Requests(Rows(text0, 0), Rows(text1, 0), 0)
  {
    ghost var rows0, rows1 := Rows(text0, 0), Rows(text1, 0);
    ghost var starts0 := RowsCut(text0, 0);
    ghost var starts1 := RowsCut(text1, 0);
    ghost var plan := Planned(rows0, rows1);
    requests := ReadFrames(Reader(text0, 0, DIGIT_0, false), Reader(text1, 0, DIGIT_0, false), rows0, starts0, rows1,
      starts1, plan);
  }

  method ReadFrames(g0: Reader, g1: Reader,
                    ghost rows0: seq<seq<byte>>, ghost starts0: seq<nat>, ghost rows1: seq<seq<byte>>,
                    ghost starts1: seq<nat>,
                    ghost plan: seq<seq<Blinker>>)
    returns (requests: seq<Blinker>)
    requires !g0.eof && !g1.eof && AtRow(g0, rows0, starts0, 0) && AtRow(g1, rows1, starts1, 0)
             && IsPlan(plan, rows0, rows1)
    ensures requests == plan[0]
  {
    var f0, f1, r := g0, g1, 0;
    requests := [];
    while !f0.eof || !f1.eof
      invariant AtRow(f0, rows0, starts0, r) && AtRow(f1, rows1, starts1, r)
      invariant 0 <= r < |plan| && requests + plan[r] == plan[0]
      decreases |plan| - r
    {
      var row;
      f0, f1, row := AddRow(f0, f1, r, rows0, starts0, rows1, starts1);
      Rejoin(requests, row, plan[r + 1]);
      requests := requests + row;
      f0, f1 := NextRow(f0), NextRow(f1);
      r := r + 1;
    }
  }
}
