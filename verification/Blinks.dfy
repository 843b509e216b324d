/**
 * The blinkers of fish/blink.S as a list with the newest first, the text screen
 * they write to, and where both stand after any number of ticks.
 */
module Blinks {
  import opened Bytes

  const LOCATIONS := 2000  // 80 * 25
  const SCREEN_BYTES := 4096

  type word = x: int | 0 <= x < 0x1_0000

  datatype Blinker = Blinker(location: word, onChar: byte, offChar: byte, onLength: word, offLength: word,
    countdown: word, on: bool)

  datatype State = State(list: seq<Blinker>, screen: seq<byte>)

  datatype Op =
    | Add(request: Blinker)
    | Remove(location: word)
    | Sync(from: word, to: word)
    | Tick

  // ---- One blinker -----------------------------------------------------------------

  /** A request as it enters the list: on, with its whole on-time ahead. */
  function Fresh(r: Blinker): Blinker {
    r.(on := true, countdown := r.onLength)
  }

  /** A 16-bit count goes down by one; it has run out when it is not positive as a signed number. */
  function Decremented(w: word): word {
    if w == 0 then 0xFFFF else w - 1
  }

  predicate RunOut(w: word) {
    w == 0 || w >= 0x8000
  }

  predicate Toggles(b: Blinker) {
    RunOut(Decremented(b.countdown))
  }

  function Ticked(b: Blinker): Blinker {
    if !Toggles(b) then b.(countdown := Decremented(b.countdown))
    else b.(on := !b.on, countdown := if b.on then b.offLength else b.onLength)
  }

  function TickedTimes(b: Blinker, t: nat): Blinker {
    if t == 0 then b else Ticked(TickedTimes(b, t - 1))
  }

  /** How many ticks a length lasts: a length of zero, or one that is negative as a signed number, lasts one. */
  function Lasts(w: word): (n: int)
    ensures 1 <= n <= 0x8000
  {
    if 1 <= w <= 0x8000 then w else 1
  }

  function Period(r: Blinker): (n: int)
    ensures n >= 2
  {
    Lasts(r.onLength) + Lasts(r.offLength)
  }

  /** The blinker `p` ticks into its period. */
  function AtPhase(r: Blinker, p: nat): Blinker
    requires p < Period(r)
  {
    if p < Lasts(r.onLength) then r.(on := true, countdown := r.onLength - p)
    else r.(on := false, countdown := r.offLength - (p - Lasts(r.onLength)))
  }

  lemma PhaseStep(r: Blinker, p: nat)
    requires p < Period(r)
    ensures Ticked(AtPhase(r, p)) == AtPhase(r, if p + 1 == Period(r) then 0 else p + 1)
  {
  }

  lemma {:induction false} AtLeast(n: nat, d: nat)
    requires d >= 1
    ensures n * d >= n
  {
    if d > 1 {
      AtLeast(n, d - 1);
      assert n * d == n * (d - 1) + n;
    }
  }

  lemma SmallMultiple(n: int, d: int)
    requires -n < n * d < n
    ensures d == 0
  {
    assert n * d == -(n * -d);
    if d >= 1 { AtLeast(n, d); } else if d <= -1 { AtLeast(n, -d); }
  }

  lemma ModIs(n: int, q: int, r: int)
    requires 0 <= r < n
    ensures (n * q + r) % n == r
  {
    var t := n * q + r;
    var d := t / n - q;
    assert t == n * (t / n) + t % n;
    assert n * d == n * (t / n) - n * q;
    SmallMultiple(n, d);
  }

  lemma ModStep(t: nat, n: int)
    requires n > 0
    ensures (t + 1) % n == if t % n + 1 == n then 0 else t % n + 1
  {
    var q, r := t / n, t % n;
    if r + 1 == n {
      assert t + 1 == n * (q + 1) + 0;
      ModIs(n, q + 1, 0);
    } else {
      assert t + 1 == n * q + (r + 1);
      ModIs(n, q, r + 1);
    }
  }

  /** Where a blinker stands after any number of ticks, whatever its lengths. */
  lemma {:induction false} ClosedForm(r: Blinker, t: nat)
    ensures TickedTimes(Fresh(r), t) == AtPhase(r, t % Period(r))
    ensures TickedTimes(Fresh(r), t).on <==> t % Period(r) < Lasts(r.onLength)
  {
    if t > 0 {
      ClosedForm(r, t - 1);
      PhaseStep(r, (t - 1) % Period(r));
      ModStep(t - 1, Period(r));
    }
  }

  /** After `t` ticks the blinker is on or off as the lengths asked for say. */
  ghost predicate OnTime(r: Blinker, t: nat) {
    var period := r.onLength + r.offLength;
    period > 0 && (TickedTimes(Fresh(r), t).on <==> t % period < r.onLength)
  }

  lemma OnTimeAt(r: Blinker, t: nat)
    requires t < Period(r) && t < r.onLength + r.offLength
    ensures OnTime(r, t) <==> (t < Lasts(r.onLength) <==> t < r.onLength)
  {
    ClosedForm(r, t);
    ModIs(Period(r), 0, t);
    ModIs(r.onLength + r.offLength, 0, t);
  }

  /**
   * A blinker is on and off for the lengths asked for, for ever, exactly when
   * both are between 1 and 0x8000. An on-length of 0 fails at tick 0 and one
   * above 0x8000 at tick 1; an off-length of 0 fails when the on-time is over and
   * one above 0x8000 one tick later.
   */
  lemma LengthsKept(r: Blinker)
    ensures (forall t: nat :: OnTime(r, t)) <==> 1 <= r.onLength <= 0x8000 && 1 <= r.offLength <= 0x8000
  {
    if 1 <= r.onLength <= 0x8000 && 1 <= r.offLength <= 0x8000 {
      forall t: nat ensures OnTime(r, t) { ClosedForm(r, t); }
    } else if r.onLength + r.offLength == 0 {
      assert !OnTime(r, 0);
    } else if r.onLength == 0 {
      OnTimeAt(r, 0);
    } else if r.onLength > 0x8000 {
      OnTimeAt(r, 1);
    } else {
      NotOffInTime(r);
    }
  }

  lemma NotOffInTime(r: Blinker)
    requires 1 <= r.onLength <= 0x8000 && !(1 <= r.offLength <= 0x8000)
    ensures exists t: nat :: !OnTime(r, t)
  {
    var t := if r.offLength == 0 then r.onLength else r.onLength + 1;
    var period := r.onLength + r.offLength;
    ClosedForm(r, t);
    if r.offLength == 0 {
      ModIs(Period(r), 0, t);
      ModIs(period, 1, 0);
    } else {
      ModIs(Period(r), 1, 0);
      ModIs(period, 0, t);
    }
    assert !OnTime(r, t);
  }

  // ---- The list and the screen --------------------------------------------------------

  /** The index of the newest blinker at a location, or the length of the list. */
  function Find(list: seq<Blinker>, location: word, i: nat): (j: nat)
    requires i <= |list|
    ensures i <= j <= |list| && (j < |list| ==> list[j].location == location)
            && forall k :: i <= k < j ==> list[k].location != location
    decreases |list| - i
  {
    if i == |list| || list[i].location == location then i else Find(list, location, i + 1)
  }

  function Poke(screen: seq<byte>, location: word, c: byte): (r: seq<byte>)
    requires |screen| == SCREEN_BYTES && location < LOCATIONS
    ensures |r| == SCREEN_BYTES
  {
    screen[2 * location := c]
  }

  predicate Placed(list: seq<Blinker>) {
    forall i :: 0 <= i < |list| ==> list[i].location < LOCATIONS
  }

  predicate StateOk(s: State) {
    |s.screen| == SCREEN_BYTES && Placed(s.list)
  }

  function TickList(list: seq<Blinker>): (r: seq<Blinker>)
    ensures |r| == |list| && forall i :: 0 <= i < |list| ==> r[i] == Ticked(list[i])
  {
    seq(|list|, i requires 0 <= i < |list| => Ticked(list[i]))
  }

  /** The character a blinker shows. */
  function Face(b: Blinker): byte {
    if b.on then b.onChar else b.offChar
  }

  /** The screen after a tick has gone through the list from `i` on. */
  function TickScreen(list: seq<Blinker>, i: nat, screen: seq<byte>): (r: seq<byte>)
    requires |screen| == SCREEN_BYTES && Placed(list) && i <= |list|
    ensures |r| == SCREEN_BYTES
    decreases |list| - i
  {
    if i == |list| then screen
    else
      TickScreen(list, i + 1, if Toggles(list[i]) then Poke(screen, list[i].location, Face(Ticked(list[i])))
        else screen)
  }

  predicate Room(list: seq<Blinker>) {
    |list| < LOCATIONS
  }

  /** A list with its element at `n` taken out. */
  function Without<T>(s: seq<T>, n: nat): (r: seq<T>)
    requires n < |s|
    ensures |r| == |s| - 1 && forall i :: 0 <= i < |r| ==> r[i] == s[if i < n then i else i + 1]
  {
    s[..n] + s[n + 1..]
  }

  /** Each call returns 0 or -1 and leaves the list and the screen as they are when it fails. */
  function Step(s: State, op: Op): (r: (State, int))
    requires StateOk(s)
    ensures StateOk(r.0)
  {
    match op
    case Add(request) =>
      if request.location >= LOCATIONS || !Room(s.list) then (s, -1)
      else (State([Fresh(request)] + s.list, Poke(s.screen, request.location, request.onChar)), 0)
    case Remove(location) =>
      var i := Find(s.list, location, 0);
      if i == |s.list| then (s, -1) else (s.(list := Without(s.list, i)), 0)
    case Sync(from, to) =>
      var i, j := Find(s.list, from, 0), Find(s.list, to, 0);
      if i == |s.list| || j == |s.list| then (s, -1)
      else (State(s.list[j := Synced(s.list[i], s.list[j])], Poke(s.screen, to, s.list[j].offChar)), 0)
    case Tick =>
      (State(TickList(s.list), TickScreen(s.list, 0, s.screen)), 0)
  }

  ghost predicate At(list: seq<Blinker>, location: int) {
    exists i :: 0 <= i < |list| && list[i].location == location
  }

  /**
   * When a call succeeds: an add on the screen of 2000 cells while there are
   * fewer than 2000 blinkers; a remove or a sync if there are blinkers at the
   * locations it names. A call that fails changes nothing.
   */
  lemma Statuses(s: State, op: Op)
    requires StateOk(s)
    ensures var (s', status) := Step(s, op);
            && (status == 0 || (status == -1 && s' == s))
            && (status == 0 <==> match op
                                 case Add(request) => request.location < 2000 && |s.list| < 2000
                                 case Remove(location) => At(s.list, location)
                                 case Sync(from, to) => At(s.list, from) && At(s.list, to)
                                 case Tick => true)
  {
    match op
    case Add(_) =>
    case Remove(location) => FoundIfAt(s.list, location);
    case Sync(from, to) =>
      FoundIfAt(s.list, from);
      FoundIfAt(s.list, to);
    case Tick =>
  }

  lemma FoundIfAt(list: seq<Blinker>, location: word)
    ensures Find(list, location, 0) < |list| <==> At(list, location)
  {
    var i := Find(list, location, 0);
    if i < |list| { assert list[i].location == location; }
  }

  /** `b` with the times and the state of `a`. */
  function Synced(a: Blinker, b: Blinker): Blinker {
    b.(onLength := a.onLength, offLength := a.offLength, countdown := a.countdown, on := a.on)
  }

  function Run(s: State, ops: seq<Op>): (s': State)
    requires StateOk(s)
    ensures StateOk(s')
    decreases |ops|
  {
    if ops == [] then s else Run(Step(s, ops[0]).0, ops[1..])
  }

  // ---- Ages -------------------------------------------------------------------------

  /** A blinker remembered by the request it was added with and the ticks since then. */
  datatype Entry = Entry(request: Blinker, age: nat)

  function Now(e: Entry): Blinker {
    TickedTimes(Fresh(e.request), e.age)
  }

  function NowAll(entries: seq<Entry>): (r: seq<Blinker>)
    ensures |r| == |entries| && forall i :: 0 <= i < |r| ==> r[i] == Now(entries[i])
  {
    seq(|entries|, i requires 0 <= i < |entries| => Now(entries[i]))
  }

  /**
   * What a step does to the ages: a new blinker has age 0, a tick makes all older, a
   * synced one takes the other's times and age.
   */
  function Aged(entries: seq<Entry>, op: Op): (r: seq<Entry>) {
    match op
    case Add(request) =>
      if request.location >= LOCATIONS || |entries| >= LOCATIONS then entries else [Entry(request, 0)] + entries
    case Remove(location) =>
      var i := Find(NowAll(entries), location, 0);
      if i == |entries| then entries else Without(entries, i)
    case Sync(from, to) =>
      var i, j := Find(NowAll(entries), from, 0), Find(NowAll(entries), to, 0);
      if i == |entries| || j == |entries| then entries
      else
        var a, b := entries[i].request, entries[j].request;
        entries[j := Entry(b.(onLength := a.onLength, offLength := a.offLength), entries[i].age)]
    case Tick =>
      seq(|entries|, i requires 0 <= i < |entries| => entries[i].(age := entries[i].age + 1))
  }

  function AgedAll(entries: seq<Entry>, ops: seq<Op>): seq<Entry>
    decreases |ops|
  {
    if ops == [] then entries else AgedAll(Aged(entries, ops[0]), ops[1..])
  }

  /** Ticking changes neither where a blinker is nor its faces and lengths. */
  lemma {:induction false} TickedKeeps(r: Blinker, t: nat)
    ensures var b := TickedTimes(r, t); b.(on := r.on, countdown := r.countdown) == r
  {
    if t > 0 { TickedKeeps(r, t - 1); }
  }

  /** A blinker that took another's times and age stands where that one stands. */
  lemma {:induction false} SyncedNow(a: Blinker, b: Blinker, age: nat)
    ensures TickedTimes(Fresh(b.(onLength := a.onLength, offLength := a.offLength)), age)
         == Synced(TickedTimes(Fresh(a), age), TickedTimes(Fresh(b), age))
  {
    if age > 0 {
      SyncedNow(a, b, age - 1);
      TickedKeeps(Fresh(b), age);
      TickedKeeps(Fresh(b), age - 1);
      TickedKeeps(Fresh(a), age - 1);
    }
  }

  lemma {:induction false} AgesKept(s: State, entries: seq<Entry>, op: Op)
    requires StateOk(s) && s.list == NowAll(entries)
    ensures Step(s, op).0.list == NowAll(Aged(entries, op))
  {
    match op
    case Add(request) =>
    case Remove(location) =>
    case Sync(from, to) =>
      SyncKept(s, entries, from, to);
    case Tick =>
  }

  lemma SyncKept(s: State, entries: seq<Entry>, from: word, to: word)
    requires StateOk(s) && s.list == NowAll(entries)
    ensures Step(s, Sync(from, to)).0.list == NowAll(Aged(entries, Sync(from, to)))
  {
    var i, j := Find(s.list, from, 0), Find(s.list, to, 0);
    if i < |s.list| && j < |s.list| {
      var a, b := entries[i].request, entries[j].request;
      SyncedNow(a, b, entries[i].age);
      SyncedAnyAge(TickedTimes(Fresh(a), entries[i].age), b, entries[i].age, entries[j].age);
    }
  }

  /** What a blinker takes over from another leaves nothing of its own age. */
  lemma SyncedAnyAge(a: Blinker, b: Blinker, age: nat, age': nat)
    ensures Synced(a, TickedTimes(Fresh(b), age)) == Synced(a, TickedTimes(Fresh(b), age'))
  {
    TickedKeeps(Fresh(b), age);
    TickedKeeps(Fresh(b), age');
  }

  /** Over every run the list is determined by what was asked for and how long ago. */
  lemma {:induction false} EveryRun(s: State, entries: seq<Entry>, ops: seq<Op>)
    requires StateOk(s) && s.list == NowAll(entries)
    ensures Run(s, ops).list == NowAll(AgedAll(entries, ops))
    decreases |ops|
  {
    if ops != [] {
      AgesKept(s, entries, ops[0]);
      EveryRun(Step(s, ops[0]).0, Aged(entries, ops[0]), ops[1..]);
    }
  }

  // ---- The screen shows the list ----------------------------------------------------------

  ghost predicate Apart(list: seq<Blinker>) {
    forall i, j :: 0 <= i < j < |list| ==> list[i].location != list[j].location
  }

  /** No two blinkers share a location, and each shows its face. */
  ghost predicate Showing(s: State) {
    StateOk(s) && Apart(s.list) && forall i :: 0 <= i < |s.list| ==> s.screen[2 * s.list[i].location] == Face(s.list[i])
  }

  /** Only bytes at the blinkers' locations change, never the attributes between them. */
  lemma {:induction false} TickScreenOnly(list: seq<Blinker>, i: nat, screen: seq<byte>, k: nat)
    requires |screen| == SCREEN_BYTES && Placed(list) && i <= |list| && k < SCREEN_BYTES
    requires forall j :: i <= j < |list| ==> 2 * list[j].location != k
    ensures TickScreen(list, i, screen)[k] == screen[k]
    decreases |list| - i
  {
    if i < |list| {
      TickScreenOnly(list, i + 1,
        if Toggles(list[i]) then Poke(screen, list[i].location, Face(Ticked(list[i]))) else screen, k);
    }
  }

  /** Every blinker at the location of `b` from `i` on is the same as `b`. */
  ghost predicate OnlyLike(list: seq<Blinker>, i: nat, b: Blinker) {
    forall k :: i <= k < |list| && list[k].location == b.location ==> list[k] == b
  }

  lemma {:induction false} TickScreenStays(list: seq<Blinker>, i: nat, screen: seq<byte>, b: Blinker)
    requires |screen| == SCREEN_BYTES && Placed(list) && i <= |list| && b.location < LOCATIONS && OnlyLike(list, i, b)
    requires screen[2 * b.location] == Face(Ticked(b))
    ensures TickScreen(list, i, screen)[2 * b.location] == Face(Ticked(b))
    decreases |list| - i
  {
    if i < |list| {
      TickScreenStays(list, i + 1,
        if Toggles(list[i]) then Poke(screen, list[i].location, Face(Ticked(list[i]))) else screen, b);
    }
  }

  lemma {:induction false} TickScreenShows(list: seq<Blinker>, i: nat, screen: seq<byte>, j: nat)
    requires |screen| == SCREEN_BYTES && Placed(list) && i <= j < |list| && OnlyLike(list, i, list[j])
    requires screen[2 * list[j].location] in [Face(list[j]), Face(Ticked(list[j]))]
    ensures TickScreen(list, i, screen)[2 * list[j].location] == Face(Ticked(list[j]))
    decreases |list| - i
  {
    var screen' := if Toggles(list[i]) then Poke(screen, list[i].location, Face(Ticked(list[i]))) else screen;
    if i < j {
      TickScreenShows(list, i + 1, screen', j);
    } else {
      TickScreenStays(list, i + 1, screen', list[j]);
    }
  }

  /** A step that adds only at free places and does not sync. */
  ghost predicate Orderly(s: State, op: Op) {
    !op.Sync? && (op.Add? ==> Find(s.list, op.request.location, 0) == |s.list|)
  }

  lemma StepShows(s: State, op: Op)
    requires Showing(s) && Orderly(s, op)
    ensures Showing(Step(s, op).0)
  {
    if op == Tick { TickShows(s); }
    if op.Add? && Step(s, op).1 == 0 { AddShows(s, op.request); }
  }

  lemma AddShows(s: State, request: Blinker)
    requires Showing(s) && Orderly(s, Add(request)) && Step(s, Add(request)).1 == 0
    ensures Showing(Step(s, Add(request)).0)
  {
    var s' := Step(s, Add(request)).0;
    assert forall i :: 0 < i < |s'.list| ==> s'.list[i] == s.list[i - 1];
  }

  lemma TickShows(s: State)
    requires Showing(s)
    ensures Showing(Step(s, Tick).0)
  {
    forall j | 0 <= j < |s.list|
      ensures TickScreen(s.list, 0, s.screen)[2 * s.list[j].location] == Face(Ticked(s.list[j]))
    {
      TickScreenShows(s.list, 0, s.screen, j);
    }
  }

  lemma {:induction false} AttributesStay(s: State, op: Op, k: nat)
    requires StateOk(s) && k < SCREEN_BYTES && k % 2 == 1
    ensures Step(s, op).0.screen[k] == s.screen[k]
  {
    if op == Tick { TickScreenOnly(s.list, 0, s.screen, k); }
  }

  ghost predicate AllOrderly(s: State, ops: seq<Op>)
    requires StateOk(s)
    decreases |ops|
  {
    ops == [] || (Orderly(s, ops[0]) && AllOrderly(Step(s, ops[0]).0, ops[1..]))
  }

  /** Over every orderly run each blinker shows its face, and no attribute byte changes in any run. */
  lemma {:induction false} EveryRunShows(s: State, ops: seq<Op>)
    requires StateOk(s)
    ensures Showing(s) && AllOrderly(s, ops) ==> Showing(Run(s, ops))
    ensures forall k :: 0 <= k < SCREEN_BYTES && k % 2 == 1 ==> Run(s, ops).screen[k] == s.screen[k]
    decreases |ops|
  {
    if ops != [] {
      if Showing(s) && AllOrderly(s, ops) { StepShows(s, ops[0]); }
      forall k | 0 <= k < SCREEN_BYTES && k % 2 == 1 ensures Step(s, ops[0]).0.screen[k] == s.screen[k] {
        AttributesStay(s, ops[0], k);
      }
      EveryRunShows(Step(s, ops[0]).0, ops[1..]);
    }
  }

  /** A sync always writes the off character, so that the blinker shows its face exactly when that is its face. */
  lemma SyncShowsOff(s: State, from: word, to: word)
    requires Showing(s) && Step(s, Sync(from, to)).1 == 0
    ensures var i, j := Find(s.list, from, 0), Find(s.list, to, 0);
            Showing(Step(s, Sync(from, to)).0) <==> !s.list[i].on || s.list[j].onChar == s.list[j].offChar
  {
    var s' := Step(s, Sync(from, to)).0;
    var j := Find(s.list, to, 0);
    assert s'.screen[2 * s'.list[j].location] == s.list[j].offChar;
  }
}
