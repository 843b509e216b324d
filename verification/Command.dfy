/**
 * The command line of an execute call and its way to the program that asks
 * for its arguments (student-distrib/sys_call.c, student-distrib/lib.c).
 *
 * A command is the string before its terminating NUL.
 */
module Command {
  import opened Bytes

  const MAX_CMD_SIZE := 128
  const MAX_ARG_SIZE := 128

  // ---- What a command means ------------------------------------------------

  /** Leading spaces, the word naming the program, a gap, the argument and what is dropped. */
  datatype Parts = Parts(lead: seq<byte>, word: seq<byte>, gap: seq<byte>, arg: seq<byte>, tail: seq<byte>)

  /** `p` is a way to read the command `s`. */
  ghost predicate Splits(s: seq<byte>, p: Parts) {
    s == Joined(p) && WellSplit(p)
  }

  function Joined(p: Parts): seq<byte> {
    p.lead + (p.word + (p.gap + (p.arg + p.tail)))
  }

  ghost predicate WellSplit(p: Parts) {
    && AllSpaces(p.lead) && AllSpaces(p.gap)
    && 0x20 !in p.word && 0x0A !in p.word
    && 0x0A !in p.arg && (p.arg != [] ==> p.arg[0] != 0x20)
    && (p.tail != [] ==> p.tail[0] == 0x0A)
    && (p.word == [] ==> p.gap == [])
    && (p.arg != [] ==> p.gap != [])
  }

  predicate AllSpaces(s: seq<byte>) {
    forall i :: 0 <= i < |s| ==> s[i] == 0x20
  }

  /** A newline ends the word and the argument; a space ends the word. */
  predicate Stops(c: byte, stopAtSpace: bool) {
    c == NEWLINE || (stopAtSpace && c == SPACE)
  }

  predicate StopFree(s: seq<byte>, stopAtSpace: bool) {
    forall i :: 0 <= i < |s| ==> !Stops(s[i], stopAtSpace)
  }

  // ---- What the scanning loops compute ---------------------------------------

  /** The first index from `i` on that does not hold a space. */
  function AfterSpaces(s: seq<byte>, i: nat): (j: nat)
    requires i <= |s|
    ensures i <= j <= |s| && (forall k :: i <= k < j ==> s[k] == SPACE) && (j < |s| ==> s[j] != SPACE)
    decreases |s| - i
  {
    if i == |s| || s[i] != SPACE then i else AfterSpaces(s, i + 1)
  }

  /** The first index from `i` on that holds a stopping byte. */
  function AfterRun(s: seq<byte>, i: nat, stopAtSpace: bool): (j: nat)
    requires i <= |s|
    ensures i <= j <= |s| && (forall k :: i <= k < j ==> !Stops(s[k], stopAtSpace))
            && (j < |s| ==> Stops(s[j], stopAtSpace))
    decreases |s| - i
  {
    if i == |s| || Stops(s[i], stopAtSpace) then i else AfterRun(s, i + 1, stopAtSpace)
  }

  /** The split that scanning from left to right finds. */
  function Scan(s: seq<byte>): Parts {
    var word := AfterSpaces(s, 0);
    var gap := AfterRun(s, word, true);
    var arg := AfterSpaces(s, gap);
    var tail := AfterRun(s, arg, false);
    PartsAt(s, word, gap, arg, tail)
  }

  function PartsAt(s: seq<byte>, word: nat, gap: nat, arg: nat, tail: nat): Parts
    requires word <= gap <= arg <= tail <= |s|
  {
    Parts(s[..word], s[word..gap], s[gap..arg], s[arg..tail], s[tail..])
  }

  /** The string in a fixed buffer, filled up with NULs. */
  function Padded(s: seq<byte>, size: nat): (r: seq<byte>)
    requires |s| <= size
    ensures |r| == size
  {
    s + Fill(NUL, size - |s|)
  }

  lemma {:induction false} Cut(s: seq<byte>, i: nat, j: nat, k: nat, l: nat)
    requires i <= j <= k <= l <= |s|
    ensures Joined(Parts(s[..i], s[i..j], s[j..k], s[k..l], s[l..])) == s
  {
    assert s[k..l] + s[l..] == s[k..];
    assert s[j..k] + s[k..] == s[j..];
    assert s[i..j] + s[j..] == s[i..];
  }

  lemma {:induction false} StopFreeSlice(s: seq<byte>, i: nat, j: nat, stopAtSpace: bool)
    requires i <= j <= |s| && forall k :: i <= k < j ==> !Stops(s[k], stopAtSpace)
    ensures StopFree(s[i..j], stopAtSpace)
  {
  }

  /** Scanning does find a split of the command. */
  lemma {:induction false} SplitExists(s: seq<byte>)
    ensures Splits(s, Scan(s))
  {
    var word := AfterSpaces(s, 0);
    var gap := AfterRun(s, word, true);
    var arg := AfterSpaces(s, gap);
    var tail := AfterRun(s, arg, false);
    StopFreeSlice(s, word, gap, true);
    StopFreeSlice(s, arg, tail, false);
    assert WellSplit(Scan(s));
    Cut(s, word, gap, arg, tail);
  }

  /** The indices are determined by what lies before and at them. */
  lemma {:induction false} AfterSpacesIs(s: seq<byte>, i: nat, j: nat)
    requires i <= j <= |s| && (forall k :: i <= k < j ==> s[k] == SPACE) && (j < |s| ==> s[j] != SPACE)
    ensures AfterSpaces(s, i) == j
    decreases j - i
  {
    if i < j { AfterSpacesIs(s, i + 1, j); }
  }

  lemma {:induction false} AfterRunIs(s: seq<byte>, i: nat, j: nat, stopAtSpace: bool)
    requires i <= j <= |s| && (forall k :: i <= k < j ==> !Stops(s[k], stopAtSpace))
             && (j < |s| ==> Stops(s[j], stopAtSpace))
    ensures AfterRun(s, i, stopAtSpace) == j
    decreases j - i
  {
    if i < j { AfterRunIs(s, i + 1, j, stopAtSpace); }
  }

  lemma Slices(p: Parts, word: nat, gap: nat, arg: nat, tail: nat)
    requires word == |p.lead| && gap == word + |p.word| && arg == gap + |p.gap| && tail == arg + |p.arg|
    ensures tail + |p.tail| == |Joined(p)| && p == PartsAt(Joined(p), word, gap, arg, tail)
  {
  }

  lemma Spaces(s: seq<byte>, i: nat, j: nat, part: seq<byte>)
    requires i <= j <= |s| && s[i..j] == part && AllSpaces(part) && (j < |s| ==> s[j] != SPACE)
    ensures AfterSpaces(s, i) == j
  {
    forall k | i <= k < j ensures s[k] == SPACE { assert s[k] == part[k - i]; }
    AfterSpacesIs(s, i, j);
  }

  lemma NoStops(s: seq<byte>, i: nat, j: nat, part: seq<byte>, stopAtSpace: bool)
    requires i <= j <= |s| && s[i..j] == part && StopFree(part, stopAtSpace) && (j < |s| ==> Stops(s[j], stopAtSpace))
    ensures AfterRun(s, i, stopAtSpace) == j
  {
    forall k | i <= k < j ensures !Stops(s[k], stopAtSpace) { assert s[k] == part[k - i]; }
    AfterRunIs(s, i, j, stopAtSpace);
  }

  /** What each part of a split is followed by ends it. */
  lemma Ends(s: seq<byte>, word: nat, gap: nat, arg: nat, tail: nat)
    requires word <= gap <= arg <= tail <= |s| && WellSplit(PartsAt(s, word, gap, arg, tail))
    ensures word < |s| ==> s[word] != SPACE
    ensures gap < |s| ==> Stops(s[gap], true)
    ensures arg < |s| ==> s[arg] != SPACE
    ensures tail < |s| ==> Stops(s[tail], false)
  {
  }

  /** There is only one split: every way to read the command is the one scanning finds. */
  lemma {:induction false} SplitUnique(s: seq<byte>, p: Parts)
    requires Splits(s, p)
    ensures p == Scan(s)
  {
    var word := |p.lead|;
    var gap := word + |p.word|;
    var arg := gap + |p.gap|;
    var tail := arg + |p.arg|;
    Slices(p, word, gap, arg, tail);
    Ends(s, word, gap, arg, tail);
    assert s[0..word] == p.lead;
    Spaces(s, 0, word, p.lead);
    NoStops(s, word, gap, p.word, true);
    Spaces(s, gap, arg, p.gap);
    NoStops(s, arg, tail, p.arg, false);
  }

  // ---- The loops themselves ----------------------------------------------------

  /** One byte of a NUL-terminated string, its terminator included. */
  function CharAt(s: seq<byte>, i: nat): (c: byte)
    requires i <= |s|
  {
    if i < |s| then s[i] else NUL
  }

  method SkipSpaces(s: seq<byte>, from: nat) returns (i: nat)
    requires from <= |s|
    ensures i == AfterSpaces(s, from)
  {
    i := from;
    while CharAt(s, i) == SPACE
      invariant from <= i <= |s| && AfterSpaces(s, i) == AfterSpaces(s, from)
      decreases |s| - i
    {
      i := i + 1;
    }
  }

  /** Copies the run that starts at `from` into a buffer of NULs. */
  method CopyRun(s: seq<byte>, from: nat, stopAtSpace: bool) returns (i: nat, dest: array<byte>)
    requires from <= |s| < MAX_CMD_SIZE && NUL !in s
    ensures fresh(dest) && i == AfterRun(s, from, stopAtSpace)
    ensures dest[..] == Padded(s[from..i], MAX_CMD_SIZE)
  {
    dest := new byte[MAX_CMD_SIZE](_ => NUL);
    i := from;
    while CharAt(s, i) != NUL && !Stops(CharAt(s, i), stopAtSpace)
      invariant from <= i <= |s| && AfterRun(s, i, stopAtSpace) == AfterRun(s, from, stopAtSpace)
      invariant forall k :: 0 <= k < i - from ==> dest[k] == s[from + k]
      invariant forall k :: i - from <= k < dest.Length ==> dest[k] == NUL
      decreases |s| - i
    {
      dest[i - from] := s[i];
      i := i + 1;
    }
  }

  /** Splits a command that fits the kernel's buffers into the program's name and its argument. */
  method Parse(s: seq<byte>) returns (cmd: array<byte>, arg: array<byte>)
    requires |s| < MAX_CMD_SIZE && NUL !in s
    ensures fresh(cmd) && fresh(arg)
    ensures cmd[..] == Padded(Scan(s).word, MAX_CMD_SIZE)
    ensures arg[..] == Padded(Scan(s).arg, MAX_CMD_SIZE)
  {
    var end, argStart, argEnd;
    var start := SkipSpaces(s, 0);
    end, cmd := CopyRun(s, start, true);
    argStart := SkipSpaces(s, end);
    argEnd, arg := CopyRun(s, argStart, false);
  }

  /** The string held in a NUL-terminated buffer. */
  function Text(buf: seq<byte>): (s: seq<byte>)
    ensures |s| <= |buf| && s == buf[..|s|] && NUL !in s && (|s| < |buf| ==> buf[|s|] == NUL)
  {
    if buf == [] || buf[0] == NUL then [] else [buf[0]] + Text(buf[1..])
  }

  lemma {:induction false} TextOfPadded(s: seq<byte>, size: nat)
    requires |s| <= size && NUL !in s
    ensures Text(Padded(s, size)) == s
  {
    if s != [] {
      TextOfPadded(s[1..], size - 1);
      assert Padded(s, size)[1..] == Padded(s[1..], size - 1);
    }
  }

  /** Copies at most `n` bytes of a terminated string and fills the rest with NULs. */
  method Strncpy(dest: array<byte>, src: array<byte>, n: nat)
    requires n <= dest.Length && NUL in src[..] && dest != src
    modifies dest
    ensures dest[n..] == old(dest[n..])
    ensures |Text(src[..])| <= n ==> dest[..n] == Padded(Text(src[..]), n)
    ensures |Text(src[..])| > n ==> dest[..n] == src[..n]
  {
    var i := 0;
    ghost var text := Text(src[..]);
    while src[i] != NUL && i < n
      invariant i <= n && i <= |text| < src.Length
      invariant forall k :: 0 <= k < i ==> dest[k] == src[k]
      invariant forall k :: i <= k < dest.Length ==> dest[k] == old(dest[k])
      decreases n - i
    {
      dest[i] := src[i];
      i := i + 1;
    }
    ghost var copied := i;
    while i < n
      invariant copied <= i <= n
      invariant forall k :: 0 <= k < copied ==> dest[k] == src[k]
      invariant forall k :: copied <= k < i ==> dest[k] == NUL
      invariant forall k :: i <= k < dest.Length ==> dest[k] == old(dest[k])
    {
      dest[i] := NUL;
      i := i + 1;
    }
  }

  // ---- getargs -------------------------------------------------------------------

  const VIRTUAL_BEGIN := 128 * 0x10_0000
  const VIRTUAL_END := 132 * 0x10_0000

  /** What getargs does with the argument buffer of the running process. */
  function Delivered(args: seq<byte>, address: int, nbytes: int): (r: (int, seq<byte>)) {
    if address < VIRTUAL_BEGIN || address > VIRTUAL_END || nbytes < 0 || args == [] || args[0] == NUL then (-1, [])
    else (0, if nbytes <= |Text(args)| then args[..nbytes] else Text(args) + [NUL])
  }

  /** Writes the argument and its NUL, or as much of it as fits, to the start of the user's buffer. */
  method GetArgs(args: seq<byte>, address: int, buf: array<byte>, nbytes: int) returns (status: int)
    requires |args| == MAX_ARG_SIZE && NUL in args && nbytes <= buf.Length
    modifies buf
    ensures status == Delivered(args, address, nbytes).0
    ensures buf[..] == Delivered(args, address, nbytes).1 + old(buf[|Delivered(args, address, nbytes).1|..])
  {
    if address < VIRTUAL_BEGIN || address > VIRTUAL_END { return -1; }
    if nbytes < 0 { return -1; }
    if args[0] == NUL { return -1; }
    CopyOut(args, buf, nbytes);
    return 0;
  }

  /** Copies up to and including the NUL, but no more than `nbytes` bytes. */
  method CopyOut(args: seq<byte>, buf: array<byte>, nbytes: nat)
    requires NUL in args && nbytes <= buf.Length
    modifies buf
    ensures var n := |Text(args)|;
            var done := if nbytes <= n then args[..nbytes] else Text(args) + [NUL];
            buf[..] == done + old(buf[|done|..])
  {
    ghost var text := Text(args);
    var i := 0;
    while i < nbytes
      invariant 0 <= i <= nbytes && i <= |text| < |args|
      invariant forall k :: 0 <= k < i ==> buf[k] == args[k]
      invariant forall k :: i <= k < buf.Length ==> buf[k] == old(buf[k])
    {
      buf[i] := args[i];
      if args[i] == NUL {
        assert i == |text|;
        break;
      }
      i := i + 1;
    }
  }

  /** What a program that asks for `nbytes` bytes at `address` is to receive of the argument `arg`. */
  function Received(arg: seq<byte>, address: int, nbytes: int): (int, seq<byte>) {
    var text := arg + [0x00];
    if arg == [] || nbytes < 0 || !(0x800_0000 <= address <= 0x840_0000) then (-1, [])
    else (0, if nbytes < |text| then text[..nbytes] else text)
  }

  /**
   * From the command to getargs: the program receives the argument of the
   * command's only split and its NUL, or as much of them as it asked for; it is
   * refused exactly when that argument is empty, the count is negative or the
   * address is not in the program's own memory.
   */
  lemma {:induction false} ArgumentRoundTrip(s: seq<byte>, p: Parts, address: int, nbytes: int)
    requires |s| < MAX_CMD_SIZE && NUL !in s && Splits(s, p)
    ensures Delivered(Padded(Scan(s).arg, MAX_ARG_SIZE), address, nbytes) == Received(p.arg, address, nbytes)
  {
    SplitUnique(s, p);
    TextOfPadded(p.arg, MAX_ARG_SIZE);
    var args, text := Padded(p.arg, MAX_ARG_SIZE), p.arg + [NUL];
    assert args[0] == if p.arg == [] then NUL else p.arg[0];
    if 0 <= nbytes < |text| { assert args[..nbytes] == text[..nbytes]; }
  }
}
