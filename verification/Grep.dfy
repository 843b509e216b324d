/**
 * The streaming search of one file (syscalls/tmntgrep.c, syscalls/tmntsupport.c):
 * a fixed buffer carries the unfinished line from one read to the next.
 */
module Grep {
  import opened Bytes
  import opened Collections

  const BUFSIZE := 1024
  const COLON: byte := 0x3A

  // ---- The simple search -------------------------------------------------------

  /** The lines of the file from `i` on. */
  function Lines(f: seq<byte>, i: nat): seq<seq<byte>>
    decreases |f| - i
  {
    if i >= |f| then [] else [f[i..LineEnd(f, i)]] + Lines(f, LineEnd(f, i) + 1)
  }

  /** The lines, each ended by a newline, spell the file; only a last newline may have been missing. */
  lemma {:induction false} LinesSpell(f: seq<byte>, i: nat)
    requires i <= |f|
    ensures Unlines(Lines(f, i)) == f[i..] + (if i < |f| && f[|f| - 1] != 0x0A then [0x0A] else [])
    ensures forall line :: line in Lines(f, i) ==> 0x0A !in line
    decreases |f| - i
  {
    if i < |f| {
      var e := LineEnd(f, i);
      UnlinesCons(f[i..e], Lines(f, e + 1));
      if e < |f| {
        LinesSpell(f, e + 1);
        Respell(f, i, e, if f[|f| - 1] != NEWLINE then [NEWLINE] else []);
      }
    }
  }

  lemma {:induction false} Respell(f: seq<byte>, i: nat, e: nat, tail: seq<byte>)
    requires i <= e < |f| && f[e] == NEWLINE
    ensures f[i..e] + [NEWLINE] + (f[e + 1..] + tail) == f[i..] + tail
  {
    assert f[i..] == f[i..e] + [NEWLINE] + f[e + 1..];
  }

  function Unlines(lines: seq<seq<byte>>): seq<byte> {
    if lines == [] then [] else lines[0] + [0x0A] + Unlines(lines[1..])
  }

  lemma {:induction false} UnlinesCons(line: seq<byte>, rest: seq<seq<byte>>)
    ensures Unlines([line] + rest) == line + [NEWLINE] + Unlines(rest)
  {
    assert ([line] + rest)[1..] == rest;
  }

  predicate OccursAt(s: seq<byte>, pat: seq<byte>, i: int) {
    0 <= i && i + |pat| <= |s| && forall k :: 0 <= k < |pat| ==> s[i + k] == pat[k]
  }

  ghost predicate Contains(s: seq<byte>, pat: seq<byte>) {
    exists i :: OccursAt(s, pat, i)
  }

  /** A line contains the pattern exactly when it can be cut so that the pattern stands between two parts. */
  lemma ContainsMeans(s: seq<byte>, pat: seq<byte>)
    ensures Contains(s, pat) <==> exists before: seq<byte>, after: seq<byte> :: s == before + pat + after
  {
    if Contains(s, pat) {
      var i :| OccursAt(s, pat, i);
      assert s == s[..i] + pat + s[i + |pat|..];
    }
    if before: seq<byte>, after: seq<byte> :| s == before + pat + after {
      assert OccursAt(s, pat, |before|);
    }
  }

  /** What grep is for: the lines that contain the pattern, in order. */
  ghost function Matching(lines: seq<seq<byte>>, pat: seq<byte>): seq<seq<byte>> {
    if lines == [] then []
    else (if Contains(lines[0], pat) then [lines[0]] else []) + Matching(lines[1..], pat)
  }

  /** The bytes printed for a list of lines. */
  function Report(fname: seq<byte>, lines: seq<seq<byte>>): seq<byte> {
    if lines == [] then [] else fname + [0x3A] + lines[0] + [0x0A] + Report(fname, lines[1..])
  }

  // ---- What a full buffer makes of long lines -----------------------------------------

  /** Where the piece that starts at `i` ends: at the end of its line or when the buffer is full. */
  function PieceEnd(f: seq<byte>, i: nat): (j: nat)
    requires i <= |f|
    ensures i <= j <= |f|
  {
    if LineEnd(f, i) <= i + BUFSIZE then LineEnd(f, i) else i + BUFSIZE
  }

  /** Where the next piece starts: after the newline, if the buffer had room for it. */
  function NextPiece(f: seq<byte>, i: nat): (j: nat)
    requires i < |f|
    ensures j > i
  {
    if LineEnd(f, i) < i + BUFSIZE then LineEnd(f, i) + 1 else i + BUFSIZE
  }

  /** The lines of the file, each cut into pieces of the size of the buffer. */
  function Pieces(f: seq<byte>, i: nat): seq<seq<byte>>
    decreases |f| - i
  {
    if i >= |f| then [] else [f[i..PieceEnd(f, i)]] + Pieces(f, NextPiece(f, i))
  }

  /** What is printed from `i` on. An empty pattern finds nothing. */
  ghost function Printed(fname: seq<byte>, pat: seq<byte>, f: seq<byte>, i: nat): seq<byte> {
    if pat == [] then [] else Report(fname, Matching(Pieces(f, i), pat))
  }

  // ---- When the two agree --------------------------------------------------------------

  lemma {:induction false} MatchingCons(line: seq<byte>, rest: seq<seq<byte>>, pat: seq<byte>)
    ensures Matching([line] + rest, pat) == (if Contains(line, pat) then [line] else []) + Matching(rest, pat)
  {
    assert ([line] + rest)[1..] == rest;
  }

  lemma {:induction false} MatchingElement(lines: seq<seq<byte>>, pat: seq<byte>, x: seq<byte>)
    ensures x in Matching(lines, pat) <==> x in lines && Contains(x, pat)
  {
    if lines != [] { MatchingElement(lines[1..], pat, x); }
  }

  lemma {:induction false} PiecesFit(f: seq<byte>, i: nat, x: seq<byte>)
    requires x in Pieces(f, i)
    ensures |x| <= BUFSIZE
    decreases |f| - i
  {
    if i < |f| && x != f[i..PieceEnd(f, i)] { PiecesFit(f, NextPiece(f, i), x); }
  }

  /** A piece inside a line without the pattern does not have it either. */
  lemma {:induction false} PartContains(f: seq<byte>, i: nat, j: nat, k: nat, l: nat, pat: seq<byte>)
    requires i <= j <= k <= l <= |f| && Contains(f[j..k], pat)
    ensures Contains(f[i..l], pat)
  {
    var n :| OccursAt(f[j..k], pat, n);
    forall m | 0 <= m < |pat| ensures f[i..l][n + j - i + m] == pat[m] { assert f[j..k][n + m] == pat[m]; }
    assert OccursAt(f[i..l], pat, n + j - i);
  }

  /** The end of a line is also the end of every rest of it. */
  lemma {:induction false} LineEndInside(f: seq<byte>, i: nat, j: nat)
    requires i <= |f| && i <= j <= LineEnd(f, i)
    ensures LineEnd(f, j) == LineEnd(f, i)
    decreases j - i
  {
    if i < j { LineEndInside(f, i + 1, j); }
  }

  /** A line without the pattern adds nothing, in however many pieces it is searched. */
  lemma {:induction false} NoMatchInLine(f: seq<byte>, i: nat, j: nat, pat: seq<byte>)
    requires pat != [] && i < |f| && i <= j <= LineEnd(f, i)
    requires !Contains(f[i..LineEnd(f, i)], pat)
    ensures Matching(Pieces(f, j), pat) == Matching(Pieces(f, LineEnd(f, i) + 1), pat)
    decreases |f| - j
  {
    var e := LineEnd(f, i);
    LineEndInside(f, i, j);
    if j < |f| {
      MatchingCons(f[j..PieceEnd(f, j)], Pieces(f, NextPiece(f, j)), pat);
      if Contains(f[j..PieceEnd(f, j)], pat) { PartContains(f, i, j, PieceEnd(f, j), e, pat); }
      if NextPiece(f, j) <= e { NoMatchInLine(f, i, NextPiece(f, j), pat); }
    }
  }

  /** From `i` on, no line longer than the buffer has the pattern. */
  ghost predicate LongLinesQuiet(f: seq<byte>, i: nat, pat: seq<byte>)
    decreases |f| - i
  {
    || i >= |f|
    || ((Contains(f[i..LineEnd(f, i)], pat) ==> LineEnd(f, i) <= i + BUFSIZE)
      && LongLinesQuiet(f, LineEnd(f, i) + 1, pat))
  }

  ghost predicate ShortMatches(lines: seq<seq<byte>>, pat: seq<byte>) {
    forall line :: line in lines && Contains(line, pat) ==> |line| <= 1024
  }

  lemma ShortMatchesCons(line: seq<byte>, rest: seq<seq<byte>>, pat: seq<byte>)
    ensures ShortMatches([line] + rest, pat) <==> (Contains(line, pat) ==> |line| <= BUFSIZE) && ShortMatches(rest, pat)
  {
    assert forall x :: x in [line] + rest <==> x == line || x in rest;
  }

  lemma {:induction false} QuietLines(f: seq<byte>, i: nat, pat: seq<byte>)
    ensures LongLinesQuiet(f, i, pat) <==> ShortMatches(Lines(f, i), pat)
    decreases |f| - i
  {
    if i < |f| {
      ShortMatchesCons(f[i..LineEnd(f, i)], Lines(f, LineEnd(f, i) + 1), pat);
      QuietLines(f, LineEnd(f, i) + 1, pat);
    }
  }

  lemma {:induction false} EmptyLine(pat: seq<byte>)
    requires pat != []
    ensures !Contains([], pat)
  {
  }

  lemma {:induction false} MatchInLine(f: seq<byte>, i: nat, pat: seq<byte>)
    requires pat != [] && i < |f| && LineEnd(f, i) <= i + BUFSIZE && Contains(f[i..LineEnd(f, i)], pat)
    ensures Matching(Pieces(f, i), pat) == [f[i..LineEnd(f, i)]] + Matching(Pieces(f, LineEnd(f, i) + 1), pat)
  {
    var e := LineEnd(f, i);
    MatchingCons(f[i..e], Pieces(f, NextPiece(f, i)), pat);
    if e == i + BUFSIZE && e < |f| {
      EmptyLine(pat);
      assert f[e..e] == [];
      MatchingCons([], Pieces(f, e + 1), pat);
    }
  }

  /** The line that starts at `i`, if it contains the pattern. */
  ghost function Hit(f: seq<byte>, i: nat, pat: seq<byte>): seq<seq<byte>>
    requires i <= |f|
  {
    var line := f[i..LineEnd(f, i)];
    if Contains(line, pat) then [line] else []
  }

  lemma LinesYield(f: seq<byte>, i: nat, pat: seq<byte>)
    requires i < |f|
    ensures Matching(Lines(f, i), pat) == Hit(f, i, pat) + Matching(Lines(f, LineEnd(f, i) + 1), pat)
  {
    MatchingCons(f[i..LineEnd(f, i)], Lines(f, LineEnd(f, i) + 1), pat);
  }

  /** The pieces of a line that is short, or does not match, yield what the line yields. */
  lemma PiecesYield(f: seq<byte>, i: nat, pat: seq<byte>)
    requires pat != [] && i < |f| && (Contains(f[i..LineEnd(f, i)], pat) ==> LineEnd(f, i) <= i + BUFSIZE)
    ensures Matching(Pieces(f, i), pat) == Hit(f, i, pat) + Matching(Pieces(f, LineEnd(f, i) + 1), pat)
  {
    if Contains(f[i..LineEnd(f, i)], pat) { MatchInLine(f, i, pat); } else { NoMatchInLine(f, i, i, pat); }
  }

  lemma {:induction false} ShortMatchesAgree(f: seq<byte>, i: nat, pat: seq<byte>)
    requires pat != [] && LongLinesQuiet(f, i, pat)
    ensures Matching(Pieces(f, i), pat) == Matching(Lines(f, i), pat)
    decreases |f| - i
  {
    if i < |f| {
      LinesYield(f, i, pat);
      PiecesYield(f, i, pat);
      ShortMatchesAgree(f, LineEnd(f, i) + 1, pat);
    }
  }

  /**
   * The search through the buffer prints the lines that contain the pattern,
   * each once and in order, exactly when none of those lines is longer than the
   * buffer.
   */
  lemma {:induction false} BufferedIsSimple(f: seq<byte>, pat: seq<byte>)
    requires pat != []
    ensures Matching(Pieces(f, 0), pat) == Matching(Lines(f, 0), pat)
       <==> forall line :: line in Lines(f, 0) && Contains(line, pat) ==> |line| <= 1024
  {
    QuietLines(f, 0, pat);
    if LongLinesQuiet(f, 0, pat) {
      ShortMatchesAgree(f, 0, pat);
    } else {
      var line :| line in Lines(f, 0) && Contains(line, pat) && |line| > BUFSIZE;
      MatchingElement(Lines(f, 0), pat, line);
      MatchingElement(Pieces(f, 0), pat, line);
      if line in Pieces(f, 0) { PiecesFit(f, 0, line); }
    }
  }

  // ---- The program ---------------------------------------------------------------------

  /** The byte at `i` of a NUL-terminated pattern. */
  function PatternAt(pat: seq<byte>, i: nat): (c: byte)
    requires i <= |pat|
  {
    if i < |pat| then pat[i] else NUL
  }

  predicate NulFree(s: seq<byte>) {
    forall k :: 0 <= k < |s| ==> s[k] != 0x00
  }

  /** The end of the string that starts at `i` of a buffer. */
  function TextEnd(d: seq<byte>, i: nat): (j: nat)
    requires i <= |d|
    ensures i <= j <= |d| && (forall k :: i <= k < j ==> d[k] != NUL) && (j < |d| ==> d[j] == NUL)
    decreases |d| - i
  {
    if i == |d| || d[i] == NUL then i else TextEnd(d, i + 1)
  }

  lemma {:induction false} TextEndIs(d: seq<byte>, i: nat, j: nat)
    requires i <= j < |d| && (forall k :: i <= k < j ==> d[k] != NUL) && d[j] == NUL
    ensures TextEnd(d, i) == j
    decreases j - i
  {
    if i < j { TextEndIs(d, i + 1, j); }
  }

  /** Copies the string at `src`, with its NUL, down to the start of the same buffer. */
  method Strcpy(data: array<byte>, src: nat)
    requires src < data.Length && TextEnd(data[..], src) < data.Length
    modifies data
    ensures var end := old(TextEnd(data[..], src));
            && (forall k :: 0 <= k <= end - src ==> data[k] == old(data[src + k]))
            && (forall k :: end - src < k < data.Length ==> data[k] == old(data[k]))
  {
    ghost var end := TextEnd(data[..], src);
    assert data[..][end] == NUL;
    var i := 0;
    while true
      invariant 0 <= i <= end - src
      invariant forall k :: 0 <= k < i ==> data[k] == old(data[src + k])
      invariant forall k :: i <= k < data.Length ==> data[k] == old(data[k])
      decreases end - src - i
    {
      data[i] := data[src + i];
      assert old(data[..])[src + i] == old(data[src + i]);
      if data[i] == NUL { break; }
      i := i + 1;
    }
  }

  /** Compares at most `|pat|` bytes; the result is zero exactly on a match. */
  method Strncmp(data: array<byte>, at: nat, pat: seq<byte>) returns (r: int)
    requires at < data.Length && NulFree(pat) && exists z :: at <= z < data.Length && data[z] == NUL
    ensures r == 0 <==> OccursAt(data[..], pat, at)
  {
    var n := |pat|;
    if n == 0 { return 0; }
    var i := 0;
    ghost var z :| at <= z < data.Length && data[z] == NUL;
    while data[at + i] == PatternAt(pat, i)
      invariant 0 <= i < |pat| && n == |pat| - i && at + i <= z
      invariant forall k :: 0 <= k < i ==> data[at + k] == pat[k]
      decreases n
    {
      n := n - 1;
      if data[at + i] == NUL || n == 0 { return 0; }
      i := i + 1;
    }
    r := data[at + i] - PatternAt(pat, i);
    assert data[..][at + i] != pat[i];
  }

  /** Looks for the pattern in the line that was made a string in place. */
  method Search(data: array<byte>, from: nat, end: nat, pat: seq<byte>) returns (found: bool)
    requires from <= end < data.Length && data[end] == NUL && NulFree(pat)
    ensures NulFree(data[from..end]) ==> (found <==> pat != [] && Contains(data[from..end], pat))
  {
    var check := from;
    ghost var line := data[from..end];
    while check < end
      invariant from <= check <= end
      invariant NulFree(line) && pat != [] ==> forall i :: 0 <= i < check - from ==> !OccursAt(line, pat, i)
    {
      if PatternAt(pat, 0) == data[check] {
        var r := Strncmp(data, check, pat);
        if NulFree(line) && pat != [] { SameOccurrence(data[..], from, end, pat, check); }
        if r == 0 {
          if NulFree(line) { assert line[check - from] == data[check]; }
          return true;
        }
      }
      check := check + 1;
    }
    return false;
  }

  /** Up to the NUL at its end, the buffer has the pattern where the line has it. */
  lemma {:induction false} SameOccurrence(d: seq<byte>, from: nat, end: nat, pat: seq<byte>, at: nat)
    requires from <= at < end < |d| && d[end] == NUL && NulFree(pat) && pat != []
    ensures OccursAt(d, pat, at) <==> OccursAt(d[from..end], pat, at - from)
  {
    if OccursAt(d, pat, at) && end - at < |pat| { NoNulInside(d, pat, at, end - at); }
    var line := d[from..end];
    if OccursAt(line, pat, at - from) {
      forall k | 0 <= k < |pat| ensures d[at + k] == pat[k] { assert line[at - from + k] == pat[k]; }
    }
  }

  lemma NoNulInside(d: seq<byte>, pat: seq<byte>, at: nat, k: nat)
    requires OccursAt(d, pat, at) && k < |pat| && NulFree(pat)
    ensures d[at + k] != NUL
  {
    assert d[at + k] == pat[k];
  }

  /** What one line adds to the output. */
  ghost function Added(fname: seq<byte>, pat: seq<byte>, line: seq<byte>): seq<byte> {
    if pat != [] && Contains(line, pat) then fname + [COLON] + line + [NEWLINE] else []
  }

  lemma ReportCons(fname: seq<byte>, line: seq<byte>, rest: seq<seq<byte>>)
    ensures Report(fname, [line] + rest) == fname + [COLON] + line + [NEWLINE] + Report(fname, rest)
  {
    assert ([line] + rest)[1..] == rest;
  }

  /** What is printed from a piece on is what the piece adds and what follows. */
  lemma {:induction false} PrintedStep(fname: seq<byte>, pat: seq<byte>, f: seq<byte>, i: nat)
    requires i < |f|
    ensures Printed(fname, pat, f, i)
         == Added(fname, pat, f[i..PieceEnd(f, i)]) + Printed(fname, pat, f, NextPiece(f, i))
  {
    var piece, rest := f[i..PieceEnd(f, i)], Pieces(f, NextPiece(f, i));
    MatchingCons(piece, rest, pat);
    ReportCons(fname, piece, Matching(rest, pat));
    assert [] + Matching(rest, pat) == Matching(rest, pat);
  }

  lemma {:induction false} LineEndBeyond(f: seq<byte>, i: nat, j: nat)
    requires i <= j <= |f| && forall k :: i <= k < j ==> f[k] != NEWLINE
    ensures LineEnd(f, i) >= j
    decreases j - i
  {
    if i < j { LineEndBeyond(f, i + 1, j); }
  }

  /** The bytes of the buffer from `from` on are the last ones read from the file. */
  ghost predicate Holds(d: seq<byte>, from: nat, last: nat, f: seq<byte>, pos: nat) {
    from <= last <= |d| && last <= pos <= |f| && forall k :: from <= k < last ==> d[k] == f[pos - last + k]
  }

  /** Ends the line in place, searches it and prints it. */
  method SearchLine(pat: seq<byte>, fname: seq<byte>, data: array<byte>, from: nat, end: nat) returns (out: seq<byte>)
    requires from <= end < data.Length && NulFree(pat)
    modifies data
    ensures data[..] == old(data[..])[end := NUL]
    ensures NulFree(old(data[from..end])) ==> out == Added(fname, pat, old(data[from..end]))
  {
    ghost var line := data[from..end];
    data[end] := NUL;
    assert data[from..end] == line;
    var found := Search(data, from, end, pat);
    out := [];
    if found {
      if NulFree(line) {
        forall k | from <= k < end ensures data[..][k] != NUL { assert data[..][k] == line[k - from]; }
        TextEndIs(data[..], from, end);
      }
      out := fname + [COLON] + data[from..TextEnd(data[..], from)] + [NEWLINE];
    }
  }

  /** A line with its newline in the buffer, or the last bytes there are: one piece of the file. */
  lemma {:induction false} PieceInBuffer(d: seq<byte>, from: nat, end: nat, last: nat, f: seq<byte>, pos: nat)
    requires Holds(d, from, last, f, pos) && from <= end <= last <= BUFSIZE && pos - last + from < |f|
    requires forall k :: from <= k < end ==> d[k] != NEWLINE
    requires end < last ==> d[end] == NEWLINE
    requires end == last ==> pos == |f| || last - from == BUFSIZE
    ensures var i := pos - last + from;
            && f[i..PieceEnd(f, i)] == d[from..end]
            && (if end < last then NextPiece(f, i) == i + (end - from) + 1
                else NextPiece(f, i) >= pos && (NextPiece(f, i) == pos || pos == |f|))
  {
    var i := pos - last + from;
    var e := i + (end - from);
    forall k | i <= k < e ensures f[k] != NEWLINE { assert d[from + (k - i)] == f[pos - last + (from + (k - i))]; }
    if end < last || pos == |f| { LineEndIs(f, i, e); } else { LineEndBeyond(f, i, e); }
    assert PieceEnd(f, i) == e;
    assert f[i..e] == d[from..end];
  }

  method FindNewline(data: array<byte>, from: nat, last: nat) returns (end: nat)
    requires from <= last < data.Length
    ensures from <= end <= last && (forall k :: from <= k < end ==> data[k] != NEWLINE)
    ensures end < last ==> data[end] == NEWLINE
  {
    end := from;
    while end < last && data[end] != NEWLINE
      invariant from <= end <= last
      invariant forall k :: from <= k < end ==> data[k] != NEWLINE
    {
      end := end + 1;
    }
  }

  /** `owed[i]` is what must still be printed when the file has been searched up to `i`. */
  ghost predicate IsOwed(owed: seq<seq<byte>>, fname: seq<byte>, pat: seq<byte>, f: seq<byte>) {
    && |owed| == |f| + 1 && owed[|f|] == []
    && forall i :: 0 <= i < |f| ==> PaysPiece(owed, fname, pat, f, i)
  }

  ghost predicate PaysPiece(owed: seq<seq<byte>>, fname: seq<byte>, pat: seq<byte>, f: seq<byte>, i: nat)
    requires i < |f| && |owed| == |f| + 1
  {
    var next := NextPiece(f, i);
    owed[i] == Added(fname, pat, f[i..PieceEnd(f, i)]) + owed[if next <= |f| then next else |f|]
  }

  lemma PrintedIsOwed(fname: seq<byte>, pat: seq<byte>, f: seq<byte>) returns (owed: seq<seq<byte>>)
    ensures IsOwed(owed, fname, pat, f) && owed[0] == Printed(fname, pat, f, 0)
  {
    owed := seq(|f| + 1, i requires 0 <= i => Printed(fname, pat, f, i));
    forall i | 0 <= i < |f| ensures PaysPiece(owed, fname, pat, f, i) { PrintedStep(fname, pat, f, i); }
  }

  /** Where the file has been searched up to once the piece in the buffer is done. */
  function After(pos: nat, end: nat, last: nat): (i: nat)
    requires end <= last <= pos
  {
    if end < last then pos - last + end + 1 else pos
  }

  lemma {:induction false} PieceAdds(owed: seq<seq<byte>>, fname: seq<byte>, pat: seq<byte>, d: seq<byte>, from: nat,
                                     end: nat, last: nat, f: seq<byte>, pos: nat)
    requires IsOwed(owed, fname, pat, f) && NulFree(f) && Holds(d, from, last, f, pos) && from <= end <= last <= BUFSIZE
    requires forall k :: from <= k < end ==> d[k] != NEWLINE
    requires end < last ==> d[end] == NEWLINE
    requires end == last ==> pos == |f| || last - from == BUFSIZE
    ensures NulFree(d[from..end]) && After(pos, end, last) <= |f|
    ensures owed[pos - last + from] == Added(fname, pat, d[from..end]) + owed[After(pos, end, last)]
  {
    var i := pos - last + from;
    if i < |f| {
      PieceInBuffer(d, from, end, last, f, pos);
      assert PaysPiece(owed, fname, pat, f, i);
    } else {
      assert d[from..end] == [];
      if pat != [] { EmptyLine(pat); }
    }
  }

  /** Searches one piece of the file and prints what it adds. */
  method SearchPiece(pat: seq<byte>, fname: seq<byte>, data: array<byte>, from: nat, end: nat, last: nat,
                     ghost f: seq<byte>, ghost pos: nat, ghost owed: seq<seq<byte>>)
    returns (out: seq<byte>)
    requires from <= end <= last <= BUFSIZE < data.Length && last <= pos <= |f| && NulFree(pat)
             && IsOwed(owed, fname, pat, f)
    requires NulFree(f) ==> Holds(data[..], from, last, f, pos)
    requires forall k :: from <= k < end ==> data[k] != NEWLINE
    requires end < last ==> data[end] == NEWLINE
    requires end == last ==> pos == |f| || last - from == BUFSIZE
    modifies data
    ensures data[..] == old(data[..])[end := NUL] && After(pos, end, last) <= |f|
    ensures NulFree(f) ==> owed[pos - last + from] == out + owed[After(pos, end, last)]
  {
    ghost var d := data[..];
    assert d[from..end] == data[from..end];
    out := SearchLine(pat, fname, data, from, end);
    if NulFree(f) { PieceAdds(owed, fname, pat, d, from, end, last, f, pos); }
  }

  /**
   * Searches the complete lines in the buffer and moves an unfinished one down
   * to its start. `rest` is the number of bytes kept for the next read.
   */
  method SearchBuffer(pat: seq<byte>, fname: seq<byte>, data: array<byte>, last: nat, cnt: nat,
                      ghost f: seq<byte>, ghost pos: nat, ghost owed: seq<seq<byte>>)
    returns (rest: nat, out: seq<byte>)
    requires data.Length == BUFSIZE + 1 && last <= BUFSIZE && last <= pos <= |f| && NulFree(pat)
             && IsOwed(owed, fname, pat, f)
    requires forall k :: last <= k < data.Length ==> data[k] != NEWLINE
    requires NulFree(f) ==> Holds(data[..], 0, last, f, pos)
    requires (last == BUFSIZE && cnt > 0) || pos == |f|
    modifies data
    ensures forall k :: 0 <= k < data.Length ==> data[k] != NEWLINE
    ensures rest < BUFSIZE && rest <= pos && (cnt == 0 ==> rest == 0)
    ensures NulFree(f) ==> Holds(data[..], 0, rest, f, pos)
    ensures NulFree(f) ==> owed[pos - last] == out + owed[pos - rest]
  {
    out := [];
    var lineStart := 0;
    while true
      invariant 0 <= lineStart <= last && (lineStart > 0 ==> lineStart < last)
      invariant forall k :: 0 <= k < lineStart || last <= k < data.Length ==> data[k] != NEWLINE
      invariant NulFree(f) ==> Holds(data[..], lineStart, last, f, pos)
      invariant NulFree(f) ==> owed[pos - last] == out + owed[pos - last + lineStart]
      decreases last - lineStart
    {
      var lineEnd := FindNewline(data, lineStart, last);
      if data[lineEnd] != NEWLINE && cnt != 0 && lineStart != 0 {
        rest := MoveDown(data, lineStart, last, f, pos);
        return;
      }
      var printed := SearchPiece(pat, fname, data, lineStart, lineEnd, last, f, pos, owed);
      assert out + (printed + owed[After(pos, lineEnd, last)]) == (out + printed) + owed[After(pos, lineEnd, last)];
      out := out + printed;
      lineStart := lineEnd + 1;
      if lineStart >= last {
        rest := 0;
        return;
      }
    }
  }

  /** Moves the unfinished line at `from` down to the start of the buffer. */
  method MoveDown(data: array<byte>, from: nat, last: nat, ghost f: seq<byte>, ghost pos: nat) returns (rest: nat)
    requires from < last < data.Length && last <= pos
    requires NulFree(f) ==> Holds(data[..], from, last, f, pos)
    requires forall k :: 0 <= k < data.Length ==> data[k] != NEWLINE
    modifies data
    ensures rest == last - from && forall k :: 0 <= k < data.Length ==> data[k] != NEWLINE
    ensures NulFree(f) ==> Holds(data[..], 0, rest, f, pos)
  {
    data[last] := NUL;
    if NulFree(f) {
      forall k | from <= k < last ensures data[k] != NUL { assert data[k] == f[pos - last + k]; }
      TextEndIs(data[..], from, last);
    }
    Strcpy(data, from);
    rest := last - from;
  }

  // The messages "file open failed", "file read failed" and "file close failed", each with its newline.
  const OPEN_FAILED: seq<byte> :=
    [0x66, 0x69, 0x6C, 0x65, 0x20, 0x6F, 0x70, 0x65, 0x6E, 0x20, 0x66, 0x61, 0x69, 0x6C, 0x65, 0x64, 0x0A]
  const READ_FAILED: seq<byte> :=
    [0x66, 0x69, 0x6C, 0x65, 0x20, 0x72, 0x65, 0x61, 0x64, 0x20, 0x66, 0x61, 0x69, 0x6C, 0x65, 0x64, 0x0A]
  const CLOSE_FAILED: seq<byte> :=
    [0x66, 0x69, 0x6C, 0x65, 0x20, 0x63, 0x6C, 0x6F, 0x73, 0x65, 0x20, 0x66, 0x61, 0x69, 0x6C, 0x65, 0x64, 0x0A]

  /** Reads up to `n` bytes of the file; fewer only at its end. */
  method Read(f: seq<byte>, pos: nat, data: array<byte>, at: nat, n: nat) returns (cnt: nat)
    requires pos <= |f| && at + n <= data.Length
    modifies data
    ensures cnt == (if n <= |f| - pos then n else |f| - pos)
    ensures forall k :: 0 <= k < data.Length ==> data[k] == if at <= k < at + cnt then f[pos + (k - at)]
            else old(data[k])
  {
    cnt := 0;
    while cnt < n && pos + cnt < |f|
      invariant cnt <= n && pos + cnt <= |f|
      invariant forall k :: 0 <= k < data.Length ==> data[k] == if at <= k < at + cnt then f[pos + (k - at)]
                else old(data[k])
    {
      data[at + cnt] := f[pos + cnt];
      cnt := cnt + 1;
    }
  }

  /** The beginning of the whole output, and then the message about the read that failed. */
  ghost predicate CutShort(out: seq<byte>, whole: seq<byte>) {
    exists n :: 0 <= n <= |whole| && out == whole[..n] + READ_FAILED
  }

  /**
   * Searches one file, which is absent if it cannot be opened; `fails` is the
   * number of the read that fails, if one does, and `closes` says whether the
   * file can be closed. The buffer holds whatever was there before, but no newlines.
   */
  method DoOneFile(pat: seq<byte>, fname: seq<byte>, file: Option<seq<byte>>, fails: Option<nat>, closes: bool,
                   data: array<byte>)
    returns (status: int, out: seq<byte>)
    requires data.Length == BUFSIZE + 1 && NulFree(pat)
    requires forall k :: 0 <= k < data.Length ==> data[k] != NEWLINE
    modifies data
    ensures file.None? ==> status == -1 && out == OPEN_FAILED
    ensures status == 0 ==> file.Some? && closes
    ensures file.Some? && fails.None? ==> status == if closes then 0 else -1
    ensures file.Some? && NulFree(file.value) ==>
              var whole := Printed(fname, pat, file.value, 0);
              || out == whole + (if closes then [] else CLOSE_FAILED)
              || (fails.Some? && status == -1 && CutShort(out, whole))
  {
    if file.None? { return -1, OPEN_FAILED; }
    var f := file.value;
    ghost var owed := PrintedIsOwed(fname, pat, f);
    out := [];
    var pos: nat, last: nat, done: nat := 0, 0, 0;
    while true
      invariant last < BUFSIZE && last <= pos <= |f|
      invariant forall k :: 0 <= k < data.Length ==> data[k] != NEWLINE
      invariant NulFree(f) ==> Holds(data[..], 0, last, f, pos)
      invariant NulFree(f) ==> owed[0] == out + owed[pos - last]
      decreases |f| - pos
    {
      if fails == Some(done) {
        assert NulFree(f) ==> owed[0][..|out|] == out;
        return -1, out + READ_FAILED;
      }
      var cnt := Read(f, pos, data, last, BUFSIZE - last);
      pos, last, done := pos + cnt, last + cnt, done + 1;
      var printed;
      last, printed := SearchBuffer(pat, fname, data, last, cnt, f, pos, owed);
      assert out + (printed + owed[pos - last]) == (out + printed) + owed[pos - last];
      out := out + printed;
      if cnt == 0 { break; }
    }
    if !closes { return -1, out + CLOSE_FAILED; }
    return 0, out;
  }
}
