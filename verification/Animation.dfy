/**
 * The whole of fish/fish.c up to its first loop: both frames are read, a
 * blinker is added for every cell, and the clock ticks. What is then on the
 * screen is one frame or the other.
 */
module Animation {
  import opened Bytes
  import opened Blinks
  import opened BlinkArray
  import opened Frames

  // ---- The requests are in the order of their locations ----------------------------------

  ghost predicate Rising(reqs: seq<Blinker>) {
    forall i, j :: 0 <= i < j < |reqs| ==> reqs[i].location < reqs[j].location
  }

  ghost predicate Within(reqs: seq<Blinker>, lo: int, hi: int) {
    forall i :: 0 <= i < |reqs| ==> lo <= reqs[i].location < hi
  }

  lemma {:induction false} RisingJoin(a: seq<Blinker>, b: seq<Blinker>, lo: int, mid: int, hi: int)
    requires Rising(a) && Rising(b) && Within(a, lo, mid) && Within(b, mid, hi) && lo <= mid <= hi
    ensures Rising(a + b) && Within(a + b, lo, hi)
  {
  }

  lemma {:induction false} RowRising(row0: seq<byte>, row1: seq<byte>, r: nat, col: nat)
    requires |row0| <= 80 && |row1| <= 80 && col <= 80 && r * 80 + 80 + OFFSET <= 0x1_0000
    ensures Rising(RowRequests(row0, row1, r, col))
    ensures Within(RowRequests(row0, row1, r, col), r * 80 + col + OFFSET, r * 80 + 80 + OFFSET)
    decreases 80 - col
  {
    if col < Longer(|row0|, |row1|) {
      RowRising(row0, row1, r, col + 1);
      var at := r * 80 + col + OFFSET;
      RisingJoin(CellRequest(row0, row1, r, col), RowRequests(row0, row1, r, col + 1), at, at + 1,
        r * 80 + 80 + OFFSET);
    }
  }

  /** Rows of at most 80 characters, and few enough of them for a 16-bit location. */
  ghost predicate FitsScreen(rows0: seq<seq<byte>>, rows1: seq<seq<byte>>) {
    && Longer(|rows0|, |rows1|) * 80 + OFFSET <= 0x1_0000
    && (forall r :: 0 <= r < |rows0| ==> |rows0[r]| <= 80)
    && (forall r :: 0 <= r < |rows1| ==> |rows1[r]| <= 80)
  }

  lemma {:induction false} AllRising(rows0: seq<seq<byte>>, rows1: seq<seq<byte>>, r: nat)
    requires FitsScreen(rows0, rows1) && r <= Longer(|rows0|, |rows1|)
    ensures Rising(Requests(rows0, rows1, r))
            && Within(Requests(rows0, rows1, r), r * 80 + OFFSET, Longer(|rows0|, |rows1|) * 80 + OFFSET)
    decreases Longer(|rows0|, |rows1|) - r
  {
    var n := Longer(|rows0|, |rows1|);
    if r < n {
      AllRising(rows0, rows1, r + 1);
      RowRising(RowAt(rows0, r), RowAt(rows1, r), r, 0);
      RisingJoin(RowRequests(RowAt(rows0, r), RowAt(rows1, r), r, 0), Requests(rows0, rows1, r + 1), r * 80 + OFFSET,
        (r + 1) * 80 + OFFSET, n * 80 + OFFSET);
    }
  }

  // ---- What is kept of the requests ---------------------------------------------------------

  predicate OnScreen(q: Blinker) {
    q.location < LOCATIONS
  }

  /** The requests that get into a list with room for `n` more: the first `n` that are on the screen. */
  function Kept(reqs: seq<Blinker>, n: nat): seq<Blinker> {
    if reqs == [] || n == 0 then []
    else if OnScreen(reqs[0]) then [reqs[0]] + Kept(reqs[1..], n - 1)
    else Kept(reqs[1..], n)
  }

  lemma {:induction false} KeptFrom(reqs: seq<Blinker>, n: nat, q: Blinker)
    requires q in Kept(reqs, n)
    ensures q in reqs && OnScreen(q)
    decreases |reqs|
  {
    if OnScreen(reqs[0]) {
      if q != reqs[0] { KeptFrom(reqs[1..], n - 1, q); }
    } else {
      KeptFrom(reqs[1..], n, q);
    }
  }

  /** Requests in the order of their locations are all kept. */
  lemma {:induction false} RisingKept(reqs: seq<Blinker>, n: nat, q: Blinker)
    requires Rising(reqs) && q in reqs && OnScreen(q)
    requires forall i :: 0 <= i < |reqs| ==> reqs[i].location >= LOCATIONS - n
    ensures q in Kept(reqs, n)
    decreases |reqs|
  {
    assert OnScreen(reqs[0]) by {
      var i :| 0 <= i < |reqs| && reqs[i] == q;
    }
    if q != reqs[0] { RisingKept(reqs[1..], n - 1, q); }
  }

  // ---- Adding ----------------------------------------------------------------------------

  function Adds(reqs: seq<Blinker>): (ops: seq<Op>) {
    if reqs == [] then [] else [Add(reqs[0])] + Adds(reqs[1..])
  }

  /** `x` is one of the requests, as it entered the list. */
  ghost predicate CameFrom(x: Blinker, reqs: seq<Blinker>) {
    exists q :: q in reqs && x == Fresh(q)
  }

  ghost predicate Untouched(reqs: seq<Blinker>, k: int) {
    forall q :: q in reqs && OnScreen(q) ==> 2 * q.location != k
  }

  /** How many more requests the list takes. */
  function RoomIn(s: State): nat
    requires |s.list| <= LOCATIONS
  {
    LOCATIONS - |s.list|
  }

  lemma {:induction false} AddsStep(s: State, reqs: seq<Blinker>)
    requires StateOk(s) && |s.list| <= LOCATIONS && reqs != []
    ensures var s1 := Step(s, Add(reqs[0])).0;
            && |s1.list| <= LOCATIONS && Run(s, Adds(reqs)) == Run(s1, Adds(reqs[1..]))
            && Kept(reqs, RoomIn(s)) == (if s1 == s then [] else [reqs[0]]) + Kept(reqs[1..], RoomIn(s1))
  {
    assert Adds(reqs)[1..] == Adds(reqs[1..]);
    if RoomIn(s) > 0 && OnScreen(reqs[0]) {
      assert |Step(s, Add(reqs[0])).0.list| == |s.list| + 1;
    }
  }

  /** The list then holds what it held and the requests kept, and only bytes at the locations of these have changed. */
  lemma {:induction false} AddsList(s: State, reqs: seq<Blinker>)
    requires StateOk(s) && |s.list| <= LOCATIONS
    ensures var s' := Run(s, Adds(reqs));
            && (forall x :: x in s'.list <==> x in s.list || CameFrom(x, Kept(reqs, RoomIn(s))))
            && (forall k :: 0 <= k < SCREEN_BYTES && Untouched(Kept(reqs, RoomIn(s)), k) ==>
                 s'.screen[k] == s.screen[k])
    decreases |reqs|
  {
    if reqs != [] {
      var q, s1 := reqs[0], Step(s, Add(reqs[0])).0;
      AddsStep(s, reqs);
      AddsList(s1, reqs[1..]);
      var kept, rest := Kept(reqs, RoomIn(s)), Kept(reqs[1..], RoomIn(s1));
      forall x ensures x in s1.list || CameFrom(x, rest) <==> x in s.list || CameFrom(x, kept) {
        if s1 != s {
          assert x in s1.list <==> x == Fresh(q) || x in s.list;
          assert kept[0] == q && forall y :: y in kept <==> y == q || y in rest;
        }
      }
      forall k | 0 <= k < SCREEN_BYTES && Untouched(kept, k) ensures Untouched(rest, k) && s1.screen[k] == s.screen[k] {
        if s1 != s { assert kept[0] == q; }
      }
    }
  }

  /** Blinkers that share a location are the same, and each shows its face. */
  ghost predicate Agreeing(s: State) {
    && StateOk(s)
    && (forall i :: 0 <= i < |s.list| ==> OnlyLike(s.list, 0, s.list[i]))
    && (forall i :: 0 <= i < |s.list| ==> s.screen[2 * s.list[i].location] == Face(s.list[i]))
  }

  /** Requests on the screen that share a location are the same. */
  ghost predicate Alike(reqs: seq<Blinker>) {
    forall p, q :: p in reqs && q in reqs && OnScreen(q) && p.location == q.location ==> p == q
  }

  /** A blinker in the list is the same as every request at its location. */
  ghost predicate AlikeIn(list: seq<Blinker>, reqs: seq<Blinker>) {
    forall x, q :: x in list && q in reqs && OnScreen(q) && x.location == q.location ==> x == Fresh(q)
  }

  lemma {:induction false} OneAgrees(s: State, q: Blinker)
    requires Agreeing(s) && AlikeIn(s.list, [q])
    ensures Agreeing(Step(s, Add(q)).0)
  {
    var s' := Step(s, Add(q)).0;
    assert q in [q];
    if s' != s {
      forall i | 0 <= i < |s'.list| ensures OnlyLike(s'.list, 0, s'.list[i]) {
        forall k | 0 <= k < |s'.list| && s'.list[k].location == s'.list[i].location ensures s'.list[k] == s'.list[i] {
          assert i > 0 ==> s'.list[i] == s.list[i - 1] && s.list[i - 1] in s.list;
          assert k > 0 ==> s'.list[k] == s.list[k - 1] && s.list[k - 1] in s.list;
          if i > 0 && k > 0 { assert OnlyLike(s.list, 0, s.list[i - 1]); }
        }
      }
    }
  }

  lemma {:induction false} AddsAgree(s: State, reqs: seq<Blinker>)
    requires Agreeing(s) && |s.list| <= LOCATIONS && Alike(reqs) && AlikeIn(s.list, reqs)
    ensures Agreeing(Run(s, Adds(reqs)))
    decreases |reqs|
  {
    if reqs != [] {
      var s1, rest := Step(s, Add(reqs[0])).0, reqs[1..];
      forall q | q in [reqs[0]] ensures q in reqs {}
      OneAgrees(s, reqs[0]);
      AddsStep(s, reqs);
      forall q | q in rest ensures q in reqs {}
      forall x, q | x in s1.list && q in rest && OnScreen(q) && x.location == q.location ensures x == Fresh(q) {
        assert x in s.list || x == Fresh(reqs[0]);
      }
      AddsAgree(s1, rest);
    }
  }

  // ---- Ticking ---------------------------------------------------------------------------

  function Ticks(t: nat): (ops: seq<Op>)
    ensures forall i :: 0 <= i < |ops| ==> ops[i] == Tick
  {
    if t == 0 then [] else [Tick] + Ticks(t - 1)
  }

  lemma {:induction false} TickedFirst(b: Blinker, t: nat)
    ensures TickedTimes(Ticked(b), t) == TickedTimes(b, t + 1)
  {
    if t > 0 { TickedFirst(b, t - 1); }
  }

  lemma TickAgrees(s: State)
    requires Agreeing(s)
    ensures Agreeing(Step(s, Tick).0)
  {
    var s' := Step(s, Tick).0;
    forall j | 0 <= j < |s.list| ensures s'.screen[2 * s.list[j].location] == Face(Ticked(s.list[j])) {
      TickScreenShows(s.list, 0, s.screen, j);
    }
    forall i | 0 <= i < |s.list| ensures OnlyLike(s'.list, 0, s'.list[i]) { assert OnlyLike(s.list, 0, s.list[i]); }
  }

  lemma {:induction false} TicksAgree(s: State, t: nat)
    requires Agreeing(s)
    ensures Agreeing(Run(s, Ticks(t)))
    decreases t
  {
    if t > 0 {
      TickAgrees(s);
      assert Ticks(t)[1..] == Ticks(t - 1);
      TicksAgree(Step(s, Tick).0, t - 1);
    }
  }

  lemma {:induction false} TicksList(s: State, t: nat, i: nat)
    requires StateOk(s) && i < |s.list|
    ensures var s' := Run(s, Ticks(t)); |s'.list| == |s.list| && s'.list[i] == TickedTimes(s.list[i], t)
    decreases t
  {
    if t > 0 {
      assert Ticks(t)[1..] == Ticks(t - 1);
      TicksList(Step(s, Tick).0, t - 1, i);
      TickedFirst(s.list[i], t - 1);
    }
  }

  lemma {:induction false} TicksScreen(s: State, t: nat, k: nat)
    requires StateOk(s) && k < SCREEN_BYTES && forall i :: 0 <= i < |s.list| ==> 2 * s.list[i].location != k
    ensures Run(s, Ticks(t)).screen[k] == s.screen[k]
    decreases t
  {
    if t > 0 {
      assert Ticks(t)[1..] == Ticks(t - 1);
      TickScreenOnly(s.list, 0, s.screen, k);
      TicksScreen(Step(s, Tick).0, t - 1, k);
    }
  }

  // ---- The animation -------------------------------------------------------------------------

  /** What fish asks for: fifteen ticks on, fifteen ticks off. */
  ghost predicate Plain15(q: Blinker) {
    q == Blinker(q.location, q.onChar, q.offChar, LENGTH, LENGTH, 0, false)
  }

  ghost predicate AllPlain15(reqs: seq<Blinker>) {
    forall i :: 0 <= i < |reqs| ==> Plain15(reqs[i])
  }

  lemma {:induction false} RowLengths(row0: seq<byte>, row1: seq<byte>, r: nat, col: nat)
    ensures AllPlain15(RowRequests(row0, row1, r, col))
    decreases Longer(|row0|, |row1|) - col
  {
    if col < Longer(|row0|, |row1|) { RowLengths(row0, row1, r, col + 1); }
  }

  lemma {:induction false} AllLengths(rows0: seq<seq<byte>>, rows1: seq<seq<byte>>, r: nat)
    ensures AllPlain15(Requests(rows0, rows1, r))
    decreases Longer(|rows0|, |rows1|) - r
  {
    if r < Longer(|rows0|, |rows1|) {
      RowLengths(RowAt(rows0, r), RowAt(rows1, r), r, 0);
      AllLengths(rows0, rows1, r + 1);
    }
  }

  /** The character of a request that frame time `t` calls for. */
  function FrameChar(q: Blinker, t: nat): byte {
    if t % 30 < 15 then q.onChar else q.offChar
  }

  /** Where a request stands after `t` ticks: fifteen ticks one character, fifteen ticks the other. */
  lemma {:induction false} FaceOf(q: Blinker, t: nat)
    requires Plain15(q)
    ensures TickedTimes(Fresh(q), t).location == q.location
    ensures Face(TickedTimes(Fresh(q), t)) == FrameChar(q, t)
  {
    ClosedForm(q, t);
    TickedKeeps(Fresh(q), t);
  }

  ghost function AfterAdds(reqs: seq<Blinker>, screen: seq<byte>): (s: State)
    requires |screen| == SCREEN_BYTES
    ensures StateOk(s)
  {
    Run(State([], screen), Adds(reqs))
  }

  /** The screen after all requests were made and `t` ticks have passed. */
  ghost function ScreenAfter(reqs: seq<Blinker>, screen: seq<byte>, t: nat): (r: seq<byte>)
    requires |screen| == SCREEN_BYTES
    ensures |r| == SCREEN_BYTES
  {
    Run(AfterAdds(reqs, screen), Ticks(t)).screen
  }

  /** Every cell asked for that lies on the screen shows the character it should. */
  ghost predicate FrameShown(reqs: seq<Blinker>, screen: seq<byte>, t: nat)
    requires |screen| == SCREEN_BYTES
  {
    forall q :: q in reqs && OnScreen(q) ==> ScreenAfter(reqs, screen, t)[2 * q.location] == FrameChar(q, t)
  }

  /** Requests for one cell of the screen agree in both characters. */
  ghost predicate Consistent(reqs: seq<Blinker>) {
    forall p, q :: p in reqs && q in reqs && OnScreen(q) && p.location == q.location ==>
      p.onChar == q.onChar && p.offChar == q.offChar
  }

  /** Every cell asked for is asked for before the list is full. */
  ghost predicate Covered(reqs: seq<Blinker>) {
    forall q :: q in reqs && OnScreen(q) ==> InKept(reqs, q.location)
  }

  ghost predicate InKept(reqs: seq<Blinker>, location: int) {
    exists p :: p in Kept(reqs, LOCATIONS) && p.location == location
  }

  /** A byte at no location that was kept does not change, whatever the requests. */
  lemma OthersStay(reqs: seq<Blinker>, screen: seq<byte>, t: nat, k: nat)
    requires |screen| == SCREEN_BYTES && k < SCREEN_BYTES && Untouched(Kept(reqs, LOCATIONS), k)
    ensures ScreenAfter(reqs, screen, t)[k] == screen[k]
  {
    var s0, s1 := State([], screen), AfterAdds(reqs, screen);
    AddsList(s0, reqs);
    forall i | 0 <= i < |s1.list| ensures 2 * s1.list[i].location != k {
      assert s1.list[i] in s1.list;
      var q :| q in Kept(reqs, LOCATIONS) && s1.list[i] == Fresh(q);
      KeptFrom(reqs, LOCATIONS, q);
    }
    TicksScreen(s1, t, k);
  }

  lemma AgreeingShows(reqs: seq<Blinker>, screen: seq<byte>, t: nat, q: Blinker)
    requires |screen| == SCREEN_BYTES && Alike(reqs) && q in Kept(reqs, LOCATIONS) && OnScreen(q) && Plain15(q)
    ensures ScreenAfter(reqs, screen, t)[2 * q.location] == FrameChar(q, t)
  {
    var s0, s1 := State([], screen), AfterAdds(reqs, screen);
    AddsList(s0, reqs);
    AddsAgree(s0, reqs);
    TicksAgree(s1, t);
    FaceOf(q, t);
    assert CameFrom(Fresh(q), Kept(reqs, LOCATIONS)) && Fresh(q) in s1.list;
    var j :| 0 <= j < |s1.list| && s1.list[j] == Fresh(q);
    TicksList(s1, t, j);
  }

  lemma ConsistentShown(reqs: seq<Blinker>, screen: seq<byte>, t: nat)
    requires |screen| == SCREEN_BYTES && AllPlain15(reqs) && Consistent(reqs) && Covered(reqs)
    ensures FrameShown(reqs, screen, t)
  {
    assert Alike(reqs);
    forall q | q in reqs && OnScreen(q) ensures ScreenAfter(reqs, screen, t)[2 * q.location] == FrameChar(q, t) {
      assert InKept(reqs, q.location);
      var p :| p in Kept(reqs, LOCATIONS) && p.location == q.location;
      KeptFrom(reqs, LOCATIONS, p);
      AgreeingShows(reqs, screen, t, q);
    }
  }

  /** A cell that was asked for only when the list was full keeps what is on the screen. */
  lemma UncoveredFails(reqs: seq<Blinker>, q: Blinker)
    requires q in reqs && OnScreen(q) && !InKept(reqs, q.location)
    ensures exists screen: seq<byte> :: |screen| == SCREEN_BYTES && !FrameShown(reqs, screen, 0)
  {
    var other: byte := if q.onChar == NUL then SPACE else NUL;
    var screen := Fill(other, SCREEN_BYTES);
    forall p | p in Kept(reqs, LOCATIONS) && OnScreen(p) ensures 2 * p.location != 2 * q.location {}
    OthersStay(reqs, screen, 0, 2 * q.location);
    assert !FrameShown(reqs, screen, 0);
  }

  lemma ShownConsistent(reqs: seq<Blinker>, screen: seq<byte>, t0: nat, t1: nat)
    requires |screen| == SCREEN_BYTES && t0 % 30 < 15 <= t1 % 30
    requires FrameShown(reqs, screen, t0) && FrameShown(reqs, screen, t1)
    ensures Consistent(reqs)
  {
    forall p, q | p in reqs && q in reqs && OnScreen(q) && p.location == q.location
      ensures p.onChar == q.onChar && p.offChar == q.offChar
    {
      assert FrameChar(q, t0) == ScreenAfter(reqs, screen, t0)[2 * q.location] == FrameChar(p, t0);
      assert FrameChar(q, t1) == ScreenAfter(reqs, screen, t1)[2 * q.location] == FrameChar(p, t1);
    }
  }

  ghost predicate AlwaysShown(reqs: seq<Blinker>) {
    forall screen: seq<byte>, t: nat :: |screen| == SCREEN_BYTES ==> FrameShown(reqs, screen, t)
  }

  /**
   * On the list, the frames are shown exactly when requests for one cell agree
   * and each cell is asked for before the list is full.
   */
  lemma {:induction false} ListAnimates(reqs: seq<Blinker>)
    requires AllPlain15(reqs)
    ensures AlwaysShown(reqs) <==> Consistent(reqs) && Covered(reqs)
  {
    if Consistent(reqs) && Covered(reqs) {
      forall screen: seq<byte>, t: nat | |screen| == SCREEN_BYTES ensures FrameShown(reqs, screen, t) {
        ConsistentShown(reqs, screen, t);
      }
    }
    if AlwaysShown(reqs) {
      ShownConsistent(reqs, Fill(NUL, SCREEN_BYTES), 0, 15);
      forall q | q in reqs && OnScreen(q) ensures InKept(reqs, q.location) {
        if !InKept(reqs, q.location) { UncoveredFails(reqs, q); }
      }
    }
  }

  // ---- In the array --------------------------------------------------------------------------

  ghost predicate AnyOnScreen(reqs: seq<Blinker>) {
    exists q :: q in reqs && OnScreen(q)
  }

  /**
   * Among the requests that are taken into a list with room for `room` more, one
   * at location 0 is followed by another request on the screen.
   */
  ghost predicate LoopsIn(reqs: seq<Blinker>, room: nat) {
    && reqs != [] && room > 0
    && if !OnScreen(reqs[0]) then LoopsIn(reqs[1..], room)
       else (reqs[0].location == 0 && AnyOnScreen(reqs[1..])) || LoopsIn(reqs[1..], room - 1)
  }

  /** The array and the head of its list after all requests, whatever has become of the list. */
  function AddedAll(slots: seq<Slot>, head: int, reqs: seq<Blinker>): (r: (seq<Slot>, int))
    requires |slots| == LOCATIONS
    ensures |r.0| == LOCATIONS
    decreases |reqs|
  {
    if reqs == [] then (slots, head)
    else
      var (slots', head', _) := Added(slots, head, reqs[0]);
      AddedAll(slots', head', reqs[1..])
  }

  lemma {:induction false} EndlessForGood(slots: seq<Slot>, head: int, reqs: seq<Blinker>)
    requires |slots| == LOCATIONS && Endless(slots, head)
    ensures var (slots', head') := AddedAll(slots, head, reqs); Endless(slots', head')
    decreases |reqs|
  {
    if reqs != [] {
      StaysEndless(slots, head, reqs[0]);
      var (slots', head', _) := Added(slots, head, reqs[0]);
      EndlessForGood(slots', head', reqs[1..]);
    }
  }

  /** The requests leave an endless list, or the array of the run; and which of the two is known. */
  ghost predicate AddsTo(p: Pool, reqs: seq<Blinker>, loops: bool)
    requires PoolOk(p)
  {
    var (slots, head) := AddedAll(p.slots, p.head, reqs);
    var p' := PoolRun(p, Adds(reqs));
    && (Endless(slots, head) <==> loops) && (p'.Looped? <==> loops)
    && (p'.Pool? ==> p'.slots == slots && p'.head == head)
  }

  lemma OneMore(p: Pool, reqs: seq<Blinker>, loops: bool)
    requires PoolOk(p) && reqs != [] && !Loops(p, Add(reqs[0]))
    requires PoolOk(PoolStep(p, Add(reqs[0]))) && AddsTo(PoolStep(p, Add(reqs[0])), reqs[1..], loops)
    ensures AddsTo(p, reqs, loops)
  {
    StepPool(p, Add(reqs[0]));
    assert Adds(reqs)[1..] == Adds(reqs[1..]);
  }

  /** The first slot with location 0 is in the list: the next request on the screen closes the loop. */
  lemma {:induction false} OnTheBrink(p: Pool, reqs: seq<Blinker>)
    requires PoolOk(p) && FirstFreeSlot(p.slots, 0) in p.order
    ensures AddsTo(p, reqs, AnyOnScreen(reqs))
    decreases |reqs|
  {
    if reqs == [] {
      ListEnds(p.slots, p.head, p.order);
    } else if OnScreen(reqs[0]) {
      AddEndless(p.slots, p.head, p.order, reqs[0]);
      StepPool(p, Add(reqs[0]));
      var (slots', head', _) := Added(p.slots, p.head, reqs[0]);
      EndlessForGood(slots', head', reqs[1..]);
    } else {
      OnTheBrink(p, reqs[1..]);
      StepPool(p, Add(reqs[0]));
      assert AnyOnScreen(reqs) <==> AnyOnScreen(reqs[1..]);
      OneMore(p, reqs, AnyOnScreen(reqs));
    }
  }

  lemma BrinkReached(p: Pool, q: Blinker)
    requires PoolOk(p) && PoolAgrees(p.slots, p.order) && q.location == 0 && |p.order| < LOCATIONS
    ensures var p' := PoolStep(p, Add(q)); PoolOk(p') && FirstFreeSlot(p'.slots, 0) in p'.order
  {
    AddAgrees(p, q);
    FullIsAll(p.order);
    var node := FirstFreeSlot(p.slots, 0);
    assert node < LOCATIONS by {
      var k :| 0 <= k < LOCATIONS && k !in p.order;
    }
    var p' := PoolStep(p, Add(q));
    FirstFreeSlotIs(p'.slots, 0, node);
    assert p'.order[0] == node;
  }

  /** A request at another location, or one that is not taken, leaves list and allocator in agreement. */
  lemma StillAgrees(p: Pool, q: Blinker)
    requires PoolOk(p) && PoolAgrees(p.slots, p.order)
    requires q.location != 0 || |p.order| == LOCATIONS
    ensures !Loops(p, Add(q))
    ensures var p' := PoolStep(p, Add(q));
            && PoolOk(p') && PoolAgrees(p'.slots, p'.order)
            && |p'.order| == |p.order| + (if OnScreen(q) && |p.order| < LOCATIONS then 1 else 0)
  {
    AddAgrees(p, q);
    AddStep(p, q);
    FullIsAll(p.order);
    FullIsAll(PoolStep(p, Add(q)).order);
    assert |Listed(PoolStep(p, Add(q))).list| == |Step(Listed(p), Add(q)).0.list|;
  }

  /** From a list that agrees with the allocator, the requests loop exactly as `LoopsIn` says. */
  lemma {:induction false} AddsInArray(p: Pool, reqs: seq<Blinker>)
    requires PoolOk(p) && PoolAgrees(p.slots, p.order) && |p.order| <= LOCATIONS
    ensures AddsTo(p, reqs, LoopsIn(reqs, LOCATIONS - |p.order|))
    decreases |reqs|
  {
    var room := LOCATIONS - |p.order|;
    if reqs == [] {
      ListEnds(p.slots, p.head, p.order);
    } else if reqs[0].location == 0 && room > 0 {
      AddAgrees(p, reqs[0]);
      BrinkReached(p, reqs[0]);
      OnTheBrink(PoolStep(p, Add(reqs[0])), reqs[1..]);
      OnlyAfterFirst(reqs[1..], room - 1);
      OneMore(p, reqs, AnyOnScreen(reqs[1..]));
    } else {
      StillAgrees(p, reqs[0]);
      var p' := PoolStep(p, Add(reqs[0]));
      FullIsAll(p'.order);
      AddsInArray(p', reqs[1..]);
      OneMore(p, reqs, LoopsIn(reqs[1..], LOCATIONS - |p'.order|));
    }
  }

  lemma {:induction false} OnlyAfterFirst(reqs: seq<Blinker>, room: nat)
    ensures LoopsIn(reqs, room) ==> AnyOnScreen(reqs)
    decreases |reqs|
  {
    if reqs != [] && room > 0 && !OnScreen(reqs[0]) {
      OnlyAfterFirst(reqs[1..], room);
      if q :| q in reqs[1..] && OnScreen(q) { assert q in reqs; }
    }
  }

  /** The array as it is loaded, all zeros. */
  function Loaded(screen: seq<byte>): Pool {
    Pool(seq(LOCATIONS, _ => ZEROED), NULL, [], screen)
  }

  lemma LoadedOk(screen: seq<byte>)
    requires |screen| == SCREEN_BYTES
    ensures PoolOk(Loaded(screen)) && PoolAgrees(Loaded(screen).slots, [])
    ensures Listed(Loaded(screen)) == State([], screen)
  {
  }

  /** The array after all requests and `t` ticks; looped if going through its list never ends. */
  ghost function ArrayAfter(reqs: seq<Blinker>, screen: seq<byte>, t: nat): Pool
    requires |screen| == SCREEN_BYTES
  {
    LoadedOk(screen);
    EveryPoolRun(Loaded(screen), Adds(reqs));
    PoolRun(PoolRun(Loaded(screen), Adds(reqs)), Ticks(t))
  }

  /** Without a loop the array holds the list of Blinks.dfy, and the screen is the same. */
  lemma ArrayFollows(reqs: seq<Blinker>, screen: seq<byte>, t: nat)
    requires |screen| == SCREEN_BYTES
    ensures var p := ArrayAfter(reqs, screen, t);
            && (p.Looped? <==> LoopsIn(reqs, LOCATIONS))
            && (p.Pool? ==> PoolOk(p) && Listed(p) == Run(AfterAdds(reqs, screen), Ticks(t)))
  {
    LoadedOk(screen);
    EveryPoolRun(Loaded(screen), Adds(reqs));
    AddsInArray(Loaded(screen), reqs);
    var p1 := PoolRun(Loaded(screen), Adds(reqs));
    if p1.Pool? {
      OnlyAddsLoop(p1, Ticks(t));
      EveryPoolRun(p1, Ticks(t));
    }
  }

  /** The ticks come to an end, and every cell asked for that lies on the screen shows the character it should. */
  ghost predicate FrameInArray(reqs: seq<Blinker>, screen: seq<byte>, t: nat)
    requires |screen| == SCREEN_BYTES
  {
    ArrayFollows(reqs, screen, t);
    var p := ArrayAfter(reqs, screen, t);
    p.Pool? && forall q :: q in reqs && OnScreen(q) ==> p.screen[2 * q.location] == FrameChar(q, t)
  }

  ghost predicate Animated(reqs: seq<Blinker>) {
    forall screen: seq<byte>, t: nat :: |screen| == SCREEN_BYTES ==> FrameInArray(reqs, screen, t)
  }

  lemma FrameInArrayIs(reqs: seq<Blinker>, screen: seq<byte>, t: nat)
    requires |screen| == SCREEN_BYTES
    ensures FrameInArray(reqs, screen, t) <==> FrameShown(reqs, screen, t) && !LoopsIn(reqs, LOCATIONS)
  {
    ArrayFollows(reqs, screen, t);
  }

  /**
   * For any two texts: once both frames have been added to the array, every tick
   * comes to an end and every cell asked for shows the character of the first
   * frame for fifteen ticks and of the second for the next fifteen, at all times
   * and on all screens, exactly when requests for one cell agree, the list does
   * not fill up before each cell has one, and no request that is taken at
   * location 0 is followed by another on the screen. That last failure leaves
   * the list endless.
   */
  lemma {:induction false} Animates(text0: seq<byte>, text1: seq<byte>)
    ensures var reqs := Requests(Rows(text0, 0), Rows(text1, 0), 0);
            Animated(reqs) <==> Consistent(reqs) && Covered(reqs) && !LoopsIn(reqs, LOCATIONS)
    ensures var reqs := Requests(Rows(text0, 0), Rows(text1, 0), 0);
            var (slots, head) := AddedAll(Loaded([]).slots, NULL, reqs);
            Endless(slots, head) <==> LoopsIn(reqs, LOCATIONS)
  {
    var reqs := Requests(Rows(text0, 0), Rows(text1, 0), 0);
    AllLengths(Rows(text0, 0), Rows(text1, 0), 0);
    ListAnimates(reqs);
    forall screen: seq<byte>, t: nat | |screen| == SCREEN_BYTES
      ensures FrameInArray(reqs, screen, t) <==> FrameShown(reqs, screen, t) && !LoopsIn(reqs, LOCATIONS)
    {
      FrameInArrayIs(reqs, screen, t);
    }
    var blank := Fill(NUL, SCREEN_BYTES);
    if Animated(reqs) { assert FrameInArray(reqs, blank, 0); }
    LoadedOk(blank);
    AddsInArray(Loaded(blank), reqs);
  }

  lemma {:induction false} NoZeroNoLoopIn(reqs: seq<Blinker>, room: nat)
    requires forall i :: 0 <= i < |reqs| ==> reqs[i].location != 0
    ensures !LoopsIn(reqs, room)
    decreases |reqs|
  {
    if reqs != [] && room > 0 { NoZeroNoLoopIn(reqs[1..], if OnScreen(reqs[0]) then room - 1 else room); }
  }

  lemma RisingFits(reqs: seq<Blinker>)
    requires Rising(reqs) && forall i :: 0 <= i < |reqs| ==> reqs[i].location != 0
    ensures Consistent(reqs) && Covered(reqs) && !LoopsIn(reqs, LOCATIONS)
  {
    forall q | q in reqs && OnScreen(q) ensures InKept(reqs, q.location) { RisingKept(reqs, LOCATIONS, q); }
    NoZeroNoLoopIn(reqs, LOCATIONS);
  }

  /** Texts whose rows fit the width of the screen meet the condition. */
  lemma FittingAnimates(text0: seq<byte>, text1: seq<byte>)
    requires FitsScreen(Rows(text0, 0), Rows(text1, 0))
    ensures Animated(Requests(Rows(text0, 0), Rows(text1, 0), 0))
  {
    AllRising(Rows(text0, 0), Rows(text1, 0), 0);
    RisingFits(Requests(Rows(text0, 0), Rows(text1, 0), 0));
    Animates(text0, text1);
  }

  /** The array after both frames have been added and `t` ticks. */
  ghost function Fish(text0: seq<byte>, text1: seq<byte>, screen: seq<byte>, t: nat): (p: Pool)
    requires |screen| == SCREEN_BYTES
    ensures p.Pool? ==> |p.screen| == SCREEN_BYTES
  {
    var reqs := Requests(Rows(text0, 0), Rows(text1, 0), 0);
    ArrayFollows(reqs, screen, t);
    ArrayAfter(reqs, screen, t)
  }

  /**
   * Where the condition holds, the screen at every cell of the texts that is on
   * it shows the first text's character for fifteen ticks and the second's for
   * the next fifteen.
   */
  lemma ShowsTexts(text0: seq<byte>, text1: seq<byte>, screen: seq<byte>, t: nat, r: nat, col: nat)
    requires Animated(Requests(Rows(text0, 0), Rows(text1, 0), 0)) && |screen| == SCREEN_BYTES
    requires !Blank(text0, text1, r, col) && Asked(text0, text1, r, col).location < 2000
    ensures var p, at := Fish(text0, text1, screen, t), Asked(text0, text1, r, col).location;
            p.Pool? && p.screen[2 * at] == if t % 30 < 15 then TextAt(text0, r, col) else TextAt(text1, r, col)
  {
    var reqs := Requests(Rows(text0, 0), Rows(text1, 0), 0);
    CellsAsked(text0, text1);
    var q := Asked(text0, text1, r, col);
    assert FrameInArray(reqs, screen, t) && q in reqs && OnScreen(q);
  }

  /** Neither text has a character at the cell of this byte, or it is an attribute. */
  ghost predicate Unasked(text0: seq<byte>, text1: seq<byte>, k: nat) {
    forall r: nat, col: nat :: !Blank(text0, text1, r, col) ==> 2 * Asked(text0, text1, r, col).location != k
  }

  /** Every other byte of the screen stays as it was. */
  lemma SparesTheRest(text0: seq<byte>, text1: seq<byte>, screen: seq<byte>, t: nat, k: nat)
    requires |screen| == SCREEN_BYTES && k < SCREEN_BYTES && Unasked(text0, text1, k)
    ensures var p := Fish(text0, text1, screen, t); p.Pool? ==> p.screen[k] == screen[k]
  {
    var reqs := Requests(Rows(text0, 0), Rows(text1, 0), 0);
    CellsAsked(text0, text1);
    ArrayFollows(reqs, screen, t);
    forall q | q in Kept(reqs, LOCATIONS) && OnScreen(q) ensures 2 * q.location != k {
      KeptFrom(reqs, LOCATIONS, q);
      assert FromCell(text0, text1, q);
      var r: nat, col: nat :| !Blank(text0, text1, r, col) && q == Asked(text0, text1, r, col);
    }
    OthersStay(reqs, screen, t, k);
  }

  lemma NoWrap(text0: seq<byte>, text1: seq<byte>, r: nat, col: nat)
    requires r * 80 + col + 40 < 2000
    ensures Asked(text0, text1, r, col).location == r * 80 + col + 40
  {
  }

  /**
   * The fish: of two texts with rows of at most 80 characters, the character at
   * row r and column col is shown 40 cells further on, the first text's for
   * fifteen ticks and the second's for the next fifteen.
   */
  lemma FishShown(text0: seq<byte>, text1: seq<byte>, screen: seq<byte>, t: nat, r: nat, col: nat)
    requires FitsScreen(Rows(text0, 0), Rows(text1, 0)) && |screen| == SCREEN_BYTES
    requires !Blank(text0, text1, r, col) && r * 80 + col + 40 < 2000
    ensures var p := Fish(text0, text1, screen, t);
            p.Pool? && p.screen[2 * (r * 80 + col + 40)]
                       == if t % 30 < 15 then TextAt(text0, r, col) else TextAt(text1, r, col)
  {
    FittingAnimates(text0, text1);
    NoWrap(text0, text1, r, col);
    ShowsTexts(text0, text1, screen, t, r, col);
  }

  // ---- A text that is not animated ---------------------------------------------------------

  /** A row that is blank up to a column: the requests are those of the rest. */
  lemma {:induction false} BlankSoFar(row: seq<byte>, r: nat, col: nat, end: nat)
    requires col <= end <= |row| && forall i :: col <= i < end ==> row[i] == SPACE
    ensures RowRequests(row, row, r, col) == RowRequests(row, row, r, end)
    decreases end - col
  {
    if col < end { BlankSoFar(row, r, col + 1, end); }
  }

  /**
   * One long row, blank but for its last two characters: they ask for locations
   * 0 and 1, because locations are sixteen bits wide, and the list is endless.
   */
  lemma WrapsAround(c: byte)
    requires c != SPACE && c != NEWLINE
    ensures var text := Fill(SPACE, 0x1_0000 - OFFSET) + [c, c];
            var reqs := Requests(Rows(text, 0), Rows(text, 0), 0);
            && reqs == [Blinker(0, c, c, LENGTH, LENGTH, 0, false), Blinker(1, c, c, LENGTH, LENGTH, 0, false)]
            && Consistent(reqs) && Covered(reqs) && !Animated(reqs)
  {
    var n := 0x1_0000 - OFFSET;
    var text := Fill(SPACE, n) + [c, c];
    LineEndIs(text, 0, |text|);
    assert text[0..|text|] == text;
    BlankSoFar(text, 0, 0, n);
    var q0, q1 := Request(text, text, 0, n), Request(text, text, 0, n + 1);
    assert RowRequests(text, text, 0, n + 2) == [];
    assert RowRequests(text, text, 0, n + 1) == [q1];
    assert RowRequests(text, text, 0, n) == [q0, q1];
    var reqs := Requests(Rows(text, 0), Rows(text, 0), 0);
    assert Requests(Rows(text, 0), Rows(text, 0), 1) == [];
    assert reqs == [q0, q1];
    TwoLoop(q0, q1);
    Animates(text, text);
  }

  lemma TwoLoop(q0: Blinker, q1: Blinker)
    requires q0.location == 0 && q1.location == 1
    ensures Consistent([q0, q1]) && Covered([q0, q1]) && LoopsIn([q0, q1], LOCATIONS)
  {
    assert [q0, q1][1..] == [q1] && q1 in [q1] && OnScreen(q1);
    assert Kept([q1], LOCATIONS - 1) == [q1] + Kept([], LOCATIONS - 2) by { assert [q1][1..] == []; }
    assert Kept([q0, q1], LOCATIONS) == [q0, q1];
    assert q0 in [q0, q1] && q1 in [q0, q1];
  }
}
