/** Printing of numbers (student-distrib/lib.c): digits written lowest first and reversed in place. */
module Numbers {
  import opened Bytes

  const DIGIT_0: byte := 0x30
  const LETTER_A: byte := 0x41
  const MINUS: byte := 0x2D

  // ---- What digits mean ------------------------------------------------------------------

  /** The character for a digit. */
  function Lookup(d: int): (c: byte)
    requires 0 <= d < 36
  {
    if d < 10 then DIGIT_0 + d else LETTER_A + (d - 10)
  }

  /** The digit for a character. */
  function DigitValue(c: byte): int {
    if c < 0x41 then c - 0x30 else c - 0x41 + 10
  }

  /** The number that a row of digits stands for. */
  function Eval(s: seq<byte>, radix: int): int {
    if s == [] then 0 else Eval(s[..|s| - 1], radix) * radix + DigitValue(s[|s| - 1])
  }

  /** The digits of a number, lowest first; none for zero. */
  function LowDigits(v: nat, radix: int): (s: seq<byte>)
    requires 2 <= radix <= 36
    decreases v
  {
    if v == 0 then []
    else
      Quotient(v, radix);
      [Lookup(v % radix)] + LowDigits(v / radix, radix)
  }

  lemma Quotient(v: nat, radix: int)
    requires radix >= 2
    ensures v == v / radix * radix + v % radix && 0 <= v / radix && (v > 0 ==> v / radix < v)
  {
  }

  function Reversed(s: seq<byte>): (r: seq<byte>)
    ensures |r| == |s| && forall i :: 0 <= i < |s| ==> r[i] == s[|s| - 1 - i]
  {
    seq(|s|, i requires 0 <= i < |s| => s[|s| - 1 - i])
  }

  /** The text printed for a number. */
  function Digits(v: nat, radix: int): seq<byte>
    requires 2 <= radix <= 36
  {
    if v == 0 then [DIGIT_0] else Reversed(LowDigits(v, radix))
  }

  lemma {:induction false} EvalDigits(v: nat, radix: int)
    requires 2 <= radix <= 36
    ensures Eval(Reversed(LowDigits(v, radix)), radix) == v
    ensures v > 0 ==> Reversed(LowDigits(v, radix)) != [] && Reversed(LowDigits(v, radix))[0] != DIGIT_0
    decreases v
  {
    if v > 0 {
      Quotient(v, radix);
      var rest := LowDigits(v / radix, radix);
      EvalDigits(v / radix, radix);
      var r := Reversed(LowDigits(v, radix));
      assert r[..|r| - 1] == Reversed(rest);
      if v / radix == 0 { assert rest == []; } else { assert r[0] == Reversed(rest)[0]; }
    }
  }

  function Power(b: int, n: nat): int {
    if n == 0 then 1 else b * Power(b, n - 1)
  }

  lemma {:induction false} DigitCount(v: nat, radix: int, n: nat)
    requires 2 <= radix <= 36 && v < Power(radix, n)
    ensures |LowDigits(v, radix)| <= n
    decreases n
  {
    if v > 0 {
      Quotient(v, radix);
      if n > 0 {
        Smaller(v, radix, Power(radix, n - 1));
        DigitCount(v / radix, radix, n - 1);
      }
    }
  }

  lemma Smaller(v: nat, radix: int, p: int)
    requires radix >= 2 && v < radix * p
    ensures v / radix < p
  {
  }

  lemma {:induction false} PowerGrows(a: int, b: int, n: nat)
    requires 2 <= a <= b
    ensures 1 <= Power(a, n) <= Power(b, n)
  {
    if n > 0 {
      PowerGrows(a, b, n - 1);
      Products(a, b, Power(a, n - 1), Power(b, n - 1));
    }
  }

  lemma Products(a: int, b: int, p: int, q: int)
    requires 2 <= a <= b && 1 <= p <= q
    ensures 1 <= a * p <= b * q
  {
  }

  /** A digit of the radix: one of "0123456789" or a capital letter. */
  predicate IsDigit(c: byte, radix: int) {
    (0x30 <= c <= 0x39 && c - 0x30 < radix) || (0x41 <= c <= 0x5A && c - 0x41 + 10 < radix)
  }

  predicate AllDigits(s: seq<byte>, radix: int) {
    forall k :: 0 <= k < |s| ==> IsDigit(s[k], radix)
  }

  lemma {:induction false} LowDigitsAreDigits(v: nat, radix: int)
    requires 2 <= radix <= 36
    ensures AllDigits(LowDigits(v, radix), radix)
    decreases v
  {
    if v > 0 {
      Quotient(v, radix);
      LowDigitsAreDigits(v / radix, radix);
    }
  }

  /**
   * For every 32-bit number and radix, what is printed are digits of the radix
   * that stand for the number, without a leading zero, and at most 32.
   */
  lemma {:induction false} PrintedNumber(v: nat, radix: int)
    requires v < 0x1_0000_0000 && 2 <= radix <= 36
    ensures var s := Digits(v, radix);
            && Eval(s, radix) == v && 1 <= |s| <= 32 && (v > 0 ==> s[0] != 0x30) && (radix == 16 ==> |s| <= 8)
            && AllDigits(s, radix) && (v == 0 ==> s == [0x30])
  {
    LowDigitsAreDigits(v, radix);
    EvalDigits(v, radix);
    DigitLength(v, radix);
    if v == 0 { assert Eval([], radix) == 0; }
  }

  lemma {:induction false} DigitLength(v: nat, radix: int)
    requires v < 0x1_0000_0000 && 2 <= radix <= 36
    ensures 1 <= |Digits(v, radix)| <= 32 && |LowDigits(v, radix)| <= 32 && (radix == 16 ==> |Digits(v, radix)| <= 8)
  {
    Powers();
    PowerGrows(2, radix, 32);
    DigitCount(v, radix, 32);
    if radix == 16 { DigitCount(v, 16, 8); }
  }

  lemma Powers()
    ensures Power(2, 32) == 0x1_0000_0000 && Power(16, 8) == 0x1_0000_0000
  {
    assert Power(2, 8) == 256;
    assert Power(2, 16) == 65536;
    assert Power(2, 24) == 0x100_0000;
    assert Power(16, 4) == 65536;
  }

  // ---- In place -------------------------------------------------------------------------

  /** The length of the string at `at`. */
  method Strlen(buf: array<byte>, at: nat) returns (len: nat)
    requires exists z :: at <= z < buf.Length && buf[z] == 0x00
    ensures at + len < buf.Length && buf[at + len] == 0x00 && forall k :: at <= k < at + len ==> buf[k] != 0x00
  {
    len := 0;
    ghost var z :| at <= z < buf.Length && buf[z] == NUL;
    while buf[at + len] != NUL
      invariant at + len <= z && forall k :: at <= k < at + len ==> buf[k] != NUL
      decreases z - at - len
    {
      len := len + 1;
    }
  }

  /** The buffer holds the text at `at`. */
  ghost predicate Holds(buf: array<byte>, at: nat, s: seq<byte>)
    reads buf
  {
    at + |s| <= buf.Length && forall k :: at <= k < at + |s| ==> buf[k] == s[k - at]
  }

  /** The buffer has not changed outside of the `n` bytes at `at`. */
  twostate predicate Elsewhere(buf: array<byte>, at: nat, n: nat)
    reads buf
  {
    forall k :: 0 <= k < buf.Length && !(at <= k < at + n) ==> buf[k] == old(buf[k])
  }

  /** Reverses the string at `at` in place. */
  method Strrev(buf: array<byte>, at: nat, ghost s: seq<byte>)
    requires Holds(buf, at, s) && at + |s| < buf.Length && buf[at + |s|] == NUL
             && forall k :: 0 <= k < |s| ==> s[k] != NUL
    modifies buf
    ensures Holds(buf, at, Reversed(s)) && Elsewhere(buf, at, |s|)
  {
    var n := Strlen(buf, at);
    assert n == |s|;
    var beg: int, end: int := 0, n - 1;
    while beg < end
      invariant 0 <= beg <= n && end == n - 1 - beg && Elsewhere(buf, at, n)
      invariant forall k :: at <= k < at + beg || at + end < k < at + n ==> buf[k] == s[n - 1 - (k - at)]
      invariant forall k :: at + beg <= k <= at + end ==> buf[k] == s[k - at]
    {
      var tmp := buf[at + end];
      buf[at + end] := buf[at + beg];
      buf[at + beg] := tmp;
      beg, end := beg + 1, end - 1;
    }
  }

  /** The digits still to be written once `n` of them have been. */
  ghost predicate Remaining(low: seq<byte>, n: nat, v: nat, radix: int)
    requires 2 <= radix <= 36
  {
    n <= |low| && LowDigits(v, radix) == low[n..]
  }

  lemma {:induction false} NextDigit(low: seq<byte>, n: nat, v: nat, radix: int)
    requires 2 <= radix <= 36 && v > 0 && Remaining(low, n, v, radix)
    ensures 0 <= v / radix < v && n < |low| && low[n] == Lookup(v % radix) && Remaining(low, n + 1, v / radix, radix)
  {
    Quotient(v, radix);
    assert low[n] == low[n..][0] && low[n + 1..] == low[n..][1..];
  }

  /** Writes the digits of a positive number, lowest first. */
  method WriteLow(value: nat, buf: array<byte>, at: nat, radix: int) returns (n: nat)
    requires value > 0 && 2 <= radix <= 36 && at + |LowDigits(value, radix)| < buf.Length
    modifies buf
    ensures n == |LowDigits(value, radix)| && Holds(buf, at, LowDigits(value, radix)) && Elsewhere(buf, at, n)
  {
    ghost var low := LowDigits(value, radix);
    var newval := value;
    n := 0;
    while newval > 0
      invariant 0 <= newval && Remaining(low, n, newval, radix) && Elsewhere(buf, at, n)
      invariant forall k :: at <= k < at + n ==> buf[k] == low[k - at]
      decreases newval
    {
      NextDigit(low, n, newval, radix);
      buf[at + n] := Lookup(newval % radix);
      n := n + 1;
      newval := newval / radix;
    }
  }

  /** Writes the digits of `value` and a NUL at `at`. */
  method Itoa(value: nat, buf: array<byte>, at: nat, radix: int)
    requires value < 0x1_0000_0000 && 2 <= radix <= 36 && at + 33 <= buf.Length
    modifies buf
    ensures var s := Digits(value, radix);
            1 <= |s| <= 32 && Holds(buf, at, s) && buf[at + |s|] == 0x00 && Elsewhere(buf, at, |s| + 1)
  {
    DigitLength(value, radix);
    if value == 0 {
      buf[at] := DIGIT_0;
      buf[at + 1] := NUL;
      return;
    }
    LowDigitsPrint(value, radix);
    var n := WriteLow(value, buf, at, radix);
    EndAndReverse(buf, at, n, LowDigits(value, radix));
  }

  method EndAndReverse(buf: array<byte>, at: nat, n: nat, ghost s: seq<byte>)
    requires Holds(buf, at, s) && n == |s| && at + n < buf.Length && forall k :: 0 <= k < |s| ==> s[k] != NUL
    modifies buf
    ensures Holds(buf, at, Reversed(s)) && buf[at + n] == NUL && Elsewhere(buf, at, n + 1)
  {
    buf[at + n] := NUL;
    Strrev(buf, at, s);
  }

  lemma {:induction false} LowDigitsPrint(v: nat, radix: int)
    requires 2 <= radix <= 36
    ensures forall k :: 0 <= k < |LowDigits(v, radix)| ==> LowDigits(v, radix)[k] >= DIGIT_0
    decreases v
  {
    if v > 0 {
      Quotient(v, radix);
      LowDigitsPrint(v / radix, radix);
    }
  }

  // ---- printf ------------------------------------------------------------------------------

  lemma {:induction false} LeadingZeros(n: nat, s: seq<byte>, radix: int)
    ensures Eval(Fill(DIGIT_0, n) + s, radix) == Eval(s, radix)
    decreases |s|, n
  {
    var z := Fill(DIGIT_0, n) + s;
    if s != [] {
      assert z[..|z| - 1] == Fill(DIGIT_0, n) + s[..|s| - 1];
      LeadingZeros(n, s[..|s| - 1], radix);
    } else if n > 0 {
      assert z[..|z| - 1] == Fill(DIGIT_0, n - 1) + [];
      LeadingZeros(n - 1, [], radix);
    }
  }

  /** What is put on the screen for the string at `at`. */
  method Puts(buf: array<byte>, at: nat, ghost text: seq<byte>) returns (s: seq<byte>)
    requires Holds(buf, at, text) && at + |text| < buf.Length && buf[at + |text|] == NUL
             && forall k :: 0 <= k < |text| ==> text[k] != NUL
    ensures s == text
  {
    var index := 0;
    s := [];
    while buf[at + index] != NUL
      invariant 0 <= index <= |text| && s == text[..index]
      decreases |text| - index
    {
      s := s + [buf[at + index]];
      index := index + 1;
    }
    assert index == |text|;
  }

  /** The digits of a number filled up with zeros to eight. */
  function Padded(value: nat): (s: seq<byte>)
    requires value < 0x1_0000_0000
    ensures |s| == 8
  {
    DigitLength(value, 16);
    Fill(DIGIT_0, 8 - |Digits(value, 16)|) + Digits(value, 16)
  }

  lemma {:induction false} PaddedValue(value: nat)
    requires value < 0x1_0000_0000
    ensures Eval(Padded(value), 16) == value
  {
    PrintedNumber(value, 16);
    LeadingZeros(8 - |Digits(value, 16)|, Digits(value, 16), 16);
  }

  /** What `%#x` prints: eight digits with the same value. */
  method PrintHex(value: nat) returns (s: seq<byte>)
    requires value < 0x1_0000_0000
    ensures |s| == 8 && Eval(s, 16) == value && AllDigits(s, 16)
  {
    PrintedNumber(value, 16);
    var convBuf := new byte[64](_ => NUL);
    DigitLength(value, 16);
    DigitsPrint(value, 16);
    Itoa(value, convBuf, 8, 16);
    var start := Strlen(convBuf, 8);
    PadZeros(convBuf, start, Digits(value, 16));
    s := Puts(convBuf, start, Padded(value));
    PaddedValue(value);
  }

  method PadZeros(convBuf: array<byte>, start: nat, ghost digits: seq<byte>)
    requires start == |digits| <= 8 && 16 < convBuf.Length && Holds(convBuf, 8, digits) && convBuf[8 + start] == NUL
    modifies convBuf
    ensures Holds(convBuf, start, Fill(DIGIT_0, 8 - start) + digits) && convBuf[8 + start] == NUL
  {
    var i := start;
    while i < 8
      invariant start <= i <= 8 && convBuf[8 + start] == NUL && Holds(convBuf, 8, digits)
      invariant forall k :: start <= k < i ==> convBuf[k] == DIGIT_0
    {
      convBuf[i] := DIGIT_0;
      i := i + 1;
    }
  }

  lemma DigitsPrint(v: nat, radix: int)
    requires 2 <= radix <= 36
    ensures forall k :: 0 <= k < |Digits(v, radix)| ==> Digits(v, radix)[k] >= DIGIT_0
  {
    LowDigitsPrint(v, radix);
  }

  /** The number that a text with an optional minus sign stands for. */
  function SignedEval(s: seq<byte>): int {
    if s != [] && s[0] == 0x2D then -Eval(s[1..], 10) else Eval(s, 10)
  }

  /** Digits stand for their number, and behind a minus sign for its opposite. */
  lemma SignedDigits(v: int)
    requires 0 <= v <= 0x8000_0000
    ensures SignedEval(Digits(v, 10)) == v && SignedEval([MINUS] + Digits(v, 10)) == -v
  {
    DigitsPrint(v, 10);
    PrintedNumber(v, 10);
    assert ([MINUS] + Digits(v, 10))[1..] == Digits(v, 10);
  }

  /** What `%d` prints. */
  method PrintDecimal(value: int) returns (s: seq<byte>)
    requires -0x8000_0000 <= value < 0x8000_0000
    ensures SignedEval(s) == value
    ensures s == if value < 0 then [0x2D] + Digits(-value, 10) else Digits(value, 10)
  {
    var convBuf := new byte[36](_ => NUL);
    ghost var digits := Digits(if value < 0 then -value else value, 10);
    DigitsPrint(if value < 0 then -value else value, 10);
    SignedDigits(if value < 0 then -value else value);
    if value < 0 {
      convBuf[0] := MINUS;
      Itoa(-value, convBuf, 1, 10);
      s := Puts(convBuf, 0, [MINUS] + digits);
    } else {
      Itoa(value, convBuf, 0, 10);
      s := Puts(convBuf, 0, digits);
    }
  }
}
