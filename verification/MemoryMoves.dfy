/**
 * The kernel's memory primitives (student-distrib/lib.c): byte by byte up to an
 * aligned address, then four bytes at a time, then the rest. Addresses are
 * indices into `mem`.
 */
module MemoryMoves {
  import opened Bytes

  /** Four bytes in their order in memory. */
  datatype Word = Word(b0: byte, b1: byte, b2: byte, b3: byte)

  method StoreWord(mem: array<byte>, at: nat, w: Word)
    requires at + 4 <= mem.Length
    modifies mem
    ensures forall i :: 0 <= i < mem.Length && !(at <= i < at + 4) ==> mem[i] == old(mem[i])
    ensures mem[at] == w.b0 && mem[at + 1] == w.b1 && mem[at + 2] == w.b2 && mem[at + 3] == w.b3
  {
    mem[at], mem[at + 1], mem[at + 2], mem[at + 3] := w.b0, w.b1, w.b2, w.b3;
  }

  method LoadWord(mem: array<byte>, at: nat) returns (w: Word)
    requires at + 4 <= mem.Length
    ensures w == Word(mem[at], mem[at + 1], mem[at + 2], mem[at + 3])
  {
    w := Word(mem[at], mem[at + 1], mem[at + 2], mem[at + 3]);
  }

  /** Section 7.24.6.1 of ISO/IEC 9899:2011: the low eight bits of `c` in each of the `n` bytes at `s`. */
  method Memset(mem: array<byte>, s: nat, c: int, n: nat)
    requires s + n <= mem.Length
    modifies mem
    ensures forall i :: 0 <= i < mem.Length ==> mem[i] == if s <= i < s + n then c % 256 else old(mem[i])
  {
    var b: byte := c % 256;
    var edi, ecx := s, n;
    while ecx != 0 && edi % 4 != 0
      invariant s <= edi && 0 <= ecx && edi + ecx == s + n
      invariant forall i :: 0 <= i < mem.Length ==> mem[i] == if s <= i < edi then b else old(mem[i])
    {
      mem[edi] := b;
      edi, ecx := edi + 1, ecx - 1;
    }
    if ecx == 0 { return; }
    var edx := ecx % 4;
    ecx := ecx / 4;
    while ecx != 0
      invariant s <= edi && 0 <= ecx && edi + 4 * ecx + edx == s + n
      invariant forall i :: 0 <= i < mem.Length ==> mem[i] == if s <= i < edi then b else old(mem[i])
    {
      StoreWord(mem, edi, Word(b, b, b, b));
      edi, ecx := edi + 4, ecx - 1;
    }
    while edx != 0
      invariant s <= edi && 0 <= edx && edi + edx == s + n
      invariant forall i :: 0 <= i < mem.Length ==> mem[i] == if s <= i < edi then b else old(mem[i])
    {
      mem[edi] := b;
      edi, edx := edi + 1, edx - 1;
    }
  }

  /** Of the memory `m0`, the first `done` bytes at `src` have been copied to `dest`, and nothing else has changed. */
  ghost predicate Copied(mem: array<byte>, m0: seq<byte>, dest: nat, src: nat, n: nat, done: int)
    reads mem
  {
    && dest + n <= mem.Length == |m0| && src + n <= mem.Length && 0 <= done <= n
    && (forall i :: 0 <= i < mem.Length && !(dest <= i < dest + done) ==> mem[i] == m0[i])
    && (Separate(dest, src, n) ==> forall i :: dest <= i < dest + done ==> mem[i] == m0[src + (i - dest)])
  }

  /** The source is not overwritten before it is read. */
  predicate Separate(dest: nat, src: nat, n: nat) {
    dest <= src || src + n <= dest
  }

  method CopyByte(mem: array<byte>, edi: nat, esi: nat, ghost m0: seq<byte>, ghost dest: nat, ghost src: nat,
                  ghost n: nat, ghost done: nat)
    requires Copied(mem, m0, dest, src, n, done) && done < n && edi == dest + done && esi == src + done
    modifies mem
    ensures Copied(mem, m0, dest, src, n, done + 1)
  {
    mem[edi] := mem[esi];
  }

  method CopyWord(mem: array<byte>, edi: nat, esi: nat, ghost m0: seq<byte>, ghost dest: nat, ghost src: nat,
                  ghost n: nat, ghost done: nat)
    requires Copied(mem, m0, dest, src, n, done) && done + 4 <= n && edi == dest + done && esi == src + done
    modifies mem
    ensures Copied(mem, m0, dest, src, n, done + 4)
  {
    var w := LoadWord(mem, esi);
    assert Separate(dest, src, n) ==> w == Word(m0[esi], m0[esi + 1], m0[esi + 2], m0[esi + 3]);
    StoreWord(mem, edi, w);
  }

  /**
   * Section 7.24.2.1 of ISO/IEC 9899:2011: the bytes at `src` come to stand at
   * `dest`. Unlike the standard, the areas may overlap if `dest` is the lower.
   */
  method Memcpy(mem: array<byte>, dest: nat, src: nat, n: nat)
    requires dest + n <= mem.Length && src + n <= mem.Length
    modifies mem
    ensures forall i :: 0 <= i < mem.Length && !(dest <= i < dest + n) ==> mem[i] == old(mem[i])
    ensures dest <= src || src + n <= dest ==> forall i :: dest <= i < dest + n ==> mem[i] == old(mem[src + (i - dest)])
  {
    ghost var m0 := mem[..];
    var edi, esi, ecx := dest, src, n;
    while ecx != 0 && edi % 4 != 0
      invariant 0 <= ecx <= n && edi == dest + (n - ecx) && esi == src + (n - ecx)
                && Copied(mem, m0, dest, src, n, n - ecx)
    {
      CopyByte(mem, edi, esi, m0, dest, src, n, n - ecx);
      edi, esi, ecx := edi + 1, esi + 1, ecx - 1;
    }
    if ecx == 0 { return; }
    var edx := ecx % 4;
    ecx := ecx / 4;
    while ecx != 0
      invariant 0 <= ecx && 0 <= edx && 4 * ecx + edx <= n
      invariant edi == dest + (n - 4 * ecx - edx) && esi == src + (n - 4 * ecx - edx)
                && Copied(mem, m0, dest, src, n, n - 4 * ecx - edx)
    {
      CopyWord(mem, edi, esi, m0, dest, src, n, n - 4 * ecx - edx);
      edi, esi, ecx := edi + 4, esi + 4, ecx - 1;
    }
    while edx != 0
      invariant 0 <= edx <= n && edi == dest + (n - edx) && esi == src + (n - edx)
                && Copied(mem, m0, dest, src, n, n - edx)
    {
      CopyByte(mem, edi, esi, m0, dest, src, n, n - edx);
      edi, esi, edx := edi + 1, esi + 1, edx - 1;
    }
  }

  /** Section 7.24.2.2 of ISO/IEC 9899:2011: as if through a copy, whatever the overlap. */
  method Memmove(mem: array<byte>, dest: nat, src: nat, n: nat)
    requires dest + n <= mem.Length && src + n <= mem.Length
    modifies mem
    ensures forall i :: 0 <= i < mem.Length ==> mem[i] == old(mem[if dest <= i < dest + n then src + (i - dest) else i])
  {
    if src >= dest {
      var done := 0;
      while done != n
        invariant 0 <= done <= n
        invariant forall i :: 0 <= i < mem.Length ==>
                    mem[i] == old(mem[if dest <= i < dest + done then src + (i - dest) else i])
        decreases n - done
      {
        mem[dest + done] := mem[src + done];
        done := done + 1;
      }
    } else {
      var left := n;
      while left != 0
        invariant 0 <= left <= n
        invariant forall i :: 0 <= i < mem.Length ==>
                    mem[i] == old(mem[if dest + left <= i < dest + n then src + (i - dest) else i])
      {
        mem[dest + left - 1] := mem[src + left - 1];
        left := left - 1;
      }
    }
  }
}
