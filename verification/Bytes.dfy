/** Bytes, the few byte values that every component gives a meaning to, and where lines end. */
module Bytes {
  type byte = x: int | 0 <= x < 256

  const NUL: byte := 0x00
  const BACKSPACE: byte := 0x08
  const TAB: byte := 0x09
  const NEWLINE: byte := 0x0A
  const RETURN: byte := 0x0D
  const SPACE: byte := 0x20

  /** `n` copies of `c`. */
  function Fill(c: byte, n: nat): (s: seq<byte>)
    ensures |s| == n && forall i :: 0 <= i < n ==> s[i] == c
  {
    seq(n, _ => c)
  }

  /** The end of the line that starts at `i`. */
  function LineEnd(f: seq<byte>, i: nat): (j: nat)
    requires i <= |f|
    ensures i <= j <= |f| && (forall k :: i <= k < j ==> f[k] != NEWLINE) && (j < |f| ==> f[j] == NEWLINE)
    decreases |f| - i
  {
    if i == |f| || f[i] == NEWLINE then i else LineEnd(f, i + 1)
  }

  lemma {:induction false} LineEndIs(f: seq<byte>, i: nat, j: nat)
    requires i <= j <= |f| && (forall k :: i <= k < j ==> f[k] != NEWLINE) && (j < |f| ==> f[j] == NEWLINE)
    ensures LineEnd(f, i) == j
    decreases j - i
  {
    if i < j { LineEndIs(f, i + 1, j); }
  }
}
