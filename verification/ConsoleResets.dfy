/**
 * The console with the clearing of screens among its steps, as at the halt of a
 * base shell (student-distrib/sys_call.c, student-distrib/lib.c). A reset moves
 * the cached place of the running task but not its terminal's record, so that
 * until the next tick, write or echo there are two places. Each terminal is
 * looked at together with the place its task will write at, and is still
 * changed by its own events only.
 */
module ConsoleResets {
  import opened Bytes
  import opened Collections
  import opened Screen
  import opened Terminal
  import opened Consoles
  import opened ConsoleState

  /** A terminal, and the place at which its task writes. */
  datatype Seat = Seat(term: Term, x: int, y: int)

  /** The steps of ConsoleState.dfy, and the clearing of the running task's screen. */
  datatype AnyOp = Plainly(op: Op) | Reset

  datatype SeatEvent =
    | Happened(ev: Event)
    | Wiped(lost: bool)  // the screen was cleared, unless the task writes astray
    | Saved              // a tick took the task off: its place is recorded
    | Restored           // a switch to the task's own terminal: the recorded place is taken up again

  ghost predicate SeatOk(s: Seat) {
    TermOk(s.term) && 0 <= s.x < NUM_COLS && 0 <= s.y < NUM_ROWS
  }

  function Writing(s: Seat): Screen {
    Screen(s.term.screen.page, s.x, s.y)
  }

  ghost predicate SeatAllows(s: Seat, ev: SeatEvent) {
    match ev
    case Happened(e) => if e.Wrote? then !(e.c == BACKSPACE && AtOrigin(Writing(s))) else Allowed(s.term, e)
    case _ => true
  }

  ghost function SeatAfter(s: Seat, ev: SeatEvent): (s': Seat)
    requires SeatOk(s) && SeatAllows(s, ev)
    ensures SeatOk(s')
  {
    match ev
    case Happened(e) => SeatAfterEvent(s, e)
    case Wiped(lost) =>
      var page := s.term.screen.page;
      Seat(s.term.(screen := s.term.screen.(page := if lost then page else ClearedPage(page))), 0, 0)
    case Saved => s.(term := s.term.(screen := Writing(s)))
    case Restored => s.(x := s.term.screen.x, y := s.term.screen.y)
  }

  ghost function SeatAfterEvent(s: Seat, e: Event): (s': Seat)
    requires SeatOk(s) && SeatAllows(s, Happened(e))
    ensures SeatOk(s')
  {
    if e.Wrote? then
      var screen := Put(Writing(s), e.c);
      Seat(s.term.(screen := if e.lost then screen.(page := s.term.screen.page) else screen), screen.x, screen.y)
    else
      var term := After(s.term, e);
      if e.Pressed? && Accepted(s.term.input, e.c) then Seat(term, term.screen.x, term.screen.y)
      else s.(term := term)
  }

  function SeatOf(m: Memory, t: nat): Seat
    requires Shape(m) && t < NUM_TERMINALS
  {
    var term := Logical(m, t);
    if t == m.current then Seat(term, m.x, m.y) else Seat(term, term.screen.x, term.screen.y)
  }

  // ---- Steps ----------------------------------------------------------------------------

  ghost predicate AnyAllowed(m: Memory, op: AnyOp)
    requires Mapped(m)
  {
    match op
    case Reset => true
    case Plainly(Tick) => true
    case Plainly(Switch(next)) => next < NUM_TERMINALS
    case Plainly(Write(c)) => !(c == BACKSPACE && m.x == 0 && m.y == 0)
    case Plainly(Poke(offset, _)) => offset < 2 * PAGE_CELLS
    case Plainly(Key(c)) => c < 0x80 && Allowed(Logical(m, m.active), Pressed(c))
    case Plainly(BeginRead) => true
    case Plainly(FinishRead(nbytes)) => m.records[m.current].input.ended || nbytes < 0
  }

  ghost function AnyStep(m: Memory, op: AnyOp): (m': Memory)
    requires Mapped(m) && AnyAllowed(m, op)
    ensures Shape(m')
  {
    match op
    case Reset => ResetStep(m)
    case Plainly(Tick) => TickStep(m)
    case Plainly(Switch(next)) => assert RecordOk(m, m.active) && RecordOk(m, next); SwitchStep(m, next)
    case Plainly(Write(c)) => WriteStep(m, c)
    case Plainly(Poke(offset, value)) => PokeStep(m, offset, value)
    case Plainly(Key(c)) => KeyStep(m, c)
    case Plainly(BeginRead) => BeginReadStep(m)
    case Plainly(FinishRead(nbytes)) => FinishReadStep(m, nbytes)
  }

  /** What a step is, to terminal `t`. */
  ghost function EventOf(m: Memory, op: AnyOp, t: nat): Option<SeatEvent> {
    match op
    case Reset => if t == m.current then Some(Wiped(Stray(m))) else None
    case Plainly(Tick) => if t == m.current then Some(Saved) else None
    case Plainly(Switch(next)) => if t == m.current == next != m.active then Some(Restored) else None
    case Plainly(Write(c)) => if t == m.current then Some(Happened(Wrote(c, Stray(m)))) else None
    case Plainly(Poke(offset, value)) =>
      if t == m.current && USER_VIDEO_MEM in m.vmap && !Stray(m) then Some(Happened(Poked(offset, value))) else None
    case Plainly(Key(c)) => if t == m.active then Some(Happened(Pressed(c))) else None
    case Plainly(BeginRead) => if t == m.current then Some(Happened(Asked)) else None
    case Plainly(FinishRead(nbytes)) => if t == m.active && nbytes >= 0 then Some(Happened(Cleared)) else None
  }

  /** Terminal `t` is in `m'` as the event, if there is one, leaves it. */
  ghost predicate Left(m: Memory, m': Memory, ev: Option<SeatEvent>, t: nat)
    requires Shape(m) && Shape(m') && t < NUM_TERMINALS
  {
    && SeatOk(SeatOf(m, t))
    && if ev.None? then SeatOf(m', t) == SeatOf(m, t)
       else SeatAllows(SeatOf(m, t), ev.value) && SeatOf(m', t) == SeatAfter(SeatOf(m, t), ev.value)
  }

  /** The step keeps records and map in order, and every terminal is left as its own event says. */
  ghost predicate StepKeeps(m: Memory, op: AnyOp)
    requires Mapped(m) && AnyAllowed(m, op)
  {
    var m' := AnyStep(m, op);
    Mapped(m') && forall t :: 0 <= t < NUM_TERMINALS ==> Left(m, m', EventOf(m, op, t), t)
  }

  lemma SeatsOk(m: Memory, t: nat)
    requires Mapped(m) && t < NUM_TERMINALS
    ensures SeatOk(SeatOf(m, t))
  {
    assert RecordOk(m, t);
  }

  lemma TickKeepsSeats(m: Memory)
    requires Mapped(m)
    ensures StepKeeps(m, Plainly(Tick))
  {
    TickSettles(m);
    var m' := TickStep(m);
    forall t | 0 <= t < NUM_TERMINALS ensures Left(m, m', EventOf(m, Plainly(Tick), t), t) { SeatsOk(m, t); }
  }

  lemma SwitchKeepsMap(m: Memory, next: nat)
    requires Mapped(m) && next < NUM_TERMINALS
    ensures IsPage(m.records[m.active].videoMem) && IsPage(m.records[next].videoMem)
    ensures Mapped(SwitchStep(m, next))
  {
    assert RecordOk(m, m.active) && RecordOk(m, next) && RecordOk(m, m.current);
    if next != m.active { SwitchRecords(m, next); }
  }

  lemma SwitchKeepsSeats(m: Memory, next: nat)
    requires Mapped(m) && next < NUM_TERMINALS
    ensures StepKeeps(m, Plainly(Switch(next)))
  {
    SwitchKeepsMap(m, next);
    if next != m.active { SwitchKeeps(m, next); }
    forall t | 0 <= t < NUM_TERMINALS
      ensures Left(m, SwitchStep(m, next), EventOf(m, Plainly(Switch(next)), t), t)
    {
      SeatsOk(m, t);
      assert RecordOk(m, t) && RecordOk(m, next);
    }
  }

  lemma WriteKeepsSeats(m: Memory, c: byte)
    requires Mapped(m) && !(c == BACKSPACE && m.x == 0 && m.y == 0)
    ensures StepKeeps(m, Plainly(Write(c)))
  {
    WritePage(m);
    var m' := WriteStep(m, c);
    forall t | 0 <= t < NUM_TERMINALS ensures RecordOk(m', t) && Left(m, m', EventOf(m, Plainly(Write(c)), t), t) {
      assert RecordOk(m, t);
    }
  }

  lemma PokeKeepsSeats(m: Memory, offset: nat, value: byte)
    requires Mapped(m) && offset < 2 * PAGE_CELLS
    ensures StepKeeps(m, Plainly(Poke(offset, value)))
  {
    WritePage(m);
    var m' := PokeStep(m, offset, value);
    forall t | 0 <= t < NUM_TERMINALS
      ensures RecordOk(m', t) && Left(m, m', EventOf(m, Plainly(Poke(offset, value)), t), t)
    {
      assert RecordOk(m, t);
    }
  }

  /** An echo puts the place at which the task on that terminal writes where the character ends. */
  lemma EchoKeepsSeats(m: Memory, c: byte, t: nat)
    requires Mapped(m) && !(c == BACKSPACE && AtOrigin(Logical(m, m.active).screen)) && t < NUM_TERMINALS
    ensures InWindow(Logical(m, m.active).screen)
    ensures var s := Put(Logical(m, m.active).screen, c);
            SeatOf(EchoStep(m, c), t) ==
              if t == m.active then Seat(Logical(m, t).(screen := s), s.x, s.y) else SeatOf(m, t)
  {
    EchoKeeps(m, c);
    assert RecordOk(m, m.current) && RecordOk(m, m.active) && RecordOk(m, t);
  }

  lemma InputOnlyMoves(m: Memory, t: nat, input: Input, u: nat)
    requires Shape(m) && t < NUM_TERMINALS && u < NUM_TERMINALS
    ensures var s := SeatOf(m, u);
            SeatOf(WithInput(m, t, input), u) == if u == t then s.(term := s.term.(input := input)) else s
  {
  }

  lemma InputKeepsMap(m: Memory, t: nat, input: Input)
    requires Mapped(m) && t < NUM_TERMINALS && InputOk(input)
    ensures Mapped(WithInput(m, t, input))
  {
    forall u | 0 <= u < NUM_TERMINALS ensures RecordOk(WithInput(m, t, input), u) { assert RecordOk(m, u); }
  }

  lemma KeyKeepsSeats(m: Memory, c: byte)
    requires Mapped(m) && c < 0x80 && Allowed(Logical(m, m.active), Pressed(c))
    ensures StepKeeps(m, Plainly(Key(c)))
  {
    assert RecordOk(m, m.active);
    var a, input := m.active, m.records[m.active].input;
    KeyEdits(input, c);
    var m' := KeyStep(m, c);
    if Accepted(input, c) {
      EchoKeeps(m, c);
      InputKeepsMap(EchoStep(m, c), a, KeyInput(input, c));
      assert m' == WithInput(EchoStep(m, c), a, KeyInput(input, c));
    }
    forall t | 0 <= t < NUM_TERMINALS ensures Left(m, m', EventOf(m, Plainly(Key(c)), t), t) {
      SeatsOk(m, t);
      if Accepted(input, c) {
        EchoKeepsSeats(m, c, t);
        InputOnlyMoves(EchoStep(m, c), a, KeyInput(input, c), t);
      }
    }
  }

  lemma InputKeepsSeats(m: Memory, t: nat, ev: Event)
    requires Mapped(m) && t < NUM_TERMINALS && (ev == Asked || ev == Cleared)
    ensures SeatOk(SeatOf(m, t))
    ensures var m' := WithInput(m, t, After(Logical(m, t), ev).input);
            && Mapped(m') && Left(m, m', Some(Happened(ev)), t)
            && forall u :: 0 <= u < NUM_TERMINALS && u != t ==> Left(m, m', None, u)
  {
    SeatsOk(m, t);
    var input := After(Logical(m, t), ev).input;
    InputKeepsMap(m, t, input);
    InputOnlyMoves(m, t, input, t);
    forall u | 0 <= u < NUM_TERMINALS && u != t ensures Left(m, WithInput(m, t, input), None, u) {
      SeatsOk(m, u);
      InputOnlyMoves(m, t, input, u);
    }
  }

  lemma BeginKeepsSeats(m: Memory)
    requires Mapped(m)
    ensures StepKeeps(m, Plainly(BeginRead))
  {
    InputKeepsSeats(m, m.current, Asked);
  }

  lemma FinishKeepsSeats(m: Memory, nbytes: int)
    requires Mapped(m) && (m.records[m.current].input.ended || nbytes < 0)
    ensures StepKeeps(m, Plainly(FinishRead(nbytes)))
  {
    forall t | 0 <= t < NUM_TERMINALS ensures SeatOk(SeatOf(m, t)) { SeatsOk(m, t); }
    if nbytes >= 0 { InputKeepsSeats(m, m.active, Cleared); }
  }

  lemma ResetKeepsSeats(m: Memory)
    requires Mapped(m)
    ensures StepKeeps(m, Reset)
  {
    WritePage(m);
    var m' := ResetStep(m);
    forall t | 0 <= t < NUM_TERMINALS ensures RecordOk(m', t) && Left(m, m', EventOf(m, Reset, t), t) {
      assert RecordOk(m, t);
    }
  }

  lemma AnyStepKeeps(m: Memory, op: AnyOp)
    requires Mapped(m) && AnyAllowed(m, op)
    ensures StepKeeps(m, op)
  {
    match op
    case Reset => ResetKeepsSeats(m);
    case Plainly(Tick) => TickKeepsSeats(m);
    case Plainly(Switch(next)) => SwitchKeepsSeats(m, next);
    case Plainly(Write(c)) => WriteKeepsSeats(m, c);
    case Plainly(Poke(offset, value)) => PokeKeepsSeats(m, offset, value);
    case Plainly(Key(c)) => KeyKeepsSeats(m, c);
    case Plainly(BeginRead) => BeginKeepsSeats(m);
    case Plainly(FinishRead(nbytes)) => FinishKeepsSeats(m, nbytes);
  }

  // ---- Whole runs ------------------------------------------------------------------------

  ghost function NextAny(m: Memory, op: AnyOp): (m': Memory)
    requires Mapped(m) && AnyAllowed(m, op)
    ensures Mapped(m')
  {
    AnyStepKeeps(m, op);
    AnyStep(m, op)
  }

  ghost predicate AllAnyAllowed(m: Memory, ops: seq<AnyOp>)
    requires Mapped(m)
    decreases |ops|
  {
    ops == [] || (AnyAllowed(m, ops[0]) && AllAnyAllowed(NextAny(m, ops[0]), ops[1..]))
  }

  ghost function AnyRun(m: Memory, ops: seq<AnyOp>): (m': Memory)
    requires Mapped(m) && AllAnyAllowed(m, ops)
    ensures Mapped(m')
    decreases |ops|
  {
    if ops == [] then m else AnyRun(NextAny(m, ops[0]), ops[1..])
  }

  /** The events that a run brings to terminal `t`. */
  ghost function SeatStream(m: Memory, ops: seq<AnyOp>, t: nat): seq<SeatEvent>
    requires Mapped(m) && AllAnyAllowed(m, ops)
    decreases |ops|
  {
    if ops == [] then []
    else
      var ev, rest := EventOf(m, ops[0], t), SeatStream(NextAny(m, ops[0]), ops[1..], t);
      if ev.None? then rest else [ev.value] + rest
  }

  ghost predicate AllSeatAllows(s: Seat, evs: seq<SeatEvent>)
    requires SeatOk(s)
    decreases |evs|
  {
    evs == [] || (SeatAllows(s, evs[0]) && AllSeatAllows(SeatAfter(s, evs[0]), evs[1..]))
  }

  ghost function SeatAfterAll(s: Seat, evs: seq<SeatEvent>): Seat
    requires SeatOk(s) && AllSeatAllows(s, evs)
    decreases |evs|
  {
    if evs == [] then s else SeatAfterAll(SeatAfter(s, evs[0]), evs[1..])
  }

  /**
   * Over every run, resets included, a terminal's screen and input and the place
   * at which its task writes are changed by that terminal's own events and by
   * nothing else.
   */
  lemma {:induction false} EveryRunWithResets(m: Memory, ops: seq<AnyOp>, t: nat)
    requires Mapped(m) && AllAnyAllowed(m, ops) && t < NUM_TERMINALS
    ensures SeatOk(SeatOf(m, t)) && AllSeatAllows(SeatOf(m, t), SeatStream(m, ops, t))
    ensures SeatOf(AnyRun(m, ops), t) == SeatAfterAll(SeatOf(m, t), SeatStream(m, ops, t))
    decreases |ops|
  {
    SeatsOk(m, t);
    if ops != [] {
      AnyStepKeeps(m, ops[0]);
      var m' := NextAny(m, ops[0]);
      assert Left(m, m', EventOf(m, ops[0], t), t);
      EveryRunWithResets(m', ops[1..], t);
      var evs := SeatStream(m, ops, t);
      if EventOf(m, ops[0], t).Some? { assert evs[1..] == SeatStream(m', ops[1..], t); }
    }
  }
}
