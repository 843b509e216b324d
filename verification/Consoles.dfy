/**
 * Three terminals as their users see them: each has a screen and a line of
 * input of its own, one task runs and one terminal is active. There are no
 * shared pages and no page map here; ConsoleState.dfy shows that the kernel's
 * juggling of both amounts to this.
 */
module Consoles {
  import opened Bytes
  import opened Screen
  import opened Terminal

  const NUM_TERMINALS := 3

  /**
   * The terminals; the task that runs, which is also the number of its terminal;
   * the active terminal; whether the running task's writes are lost, which they
   * are from a switch to another terminal until the next tick; and whether the
   * page for the task's own use of video memory is mapped yet.
   */
  datatype View = View(terms: seq<Term>, current: nat, active: nat, lost: bool, mapped: bool)

  datatype Op =
    | Tick
    | Switch(next: nat)
    | Write(c: byte)
    | Poke(offset: nat, value: byte)
    | Key(c: byte)
    | BeginRead
    | FinishRead(nbytes: int)

  ghost predicate ViewOk(v: View) {
    && |v.terms| == NUM_TERMINALS && v.current < NUM_TERMINALS && v.active < NUM_TERMINALS
    && (forall t :: 0 <= t < NUM_TERMINALS ==> TermOk(v.terms[t]))
  }

  /** What a step is, to terminal `t`. */
  ghost function Events(v: View, op: Op, t: nat): (evs: seq<Event>)
    ensures |evs| <= 1
  {
    match op
    case Tick => []
    case Switch(_) => []
    case Write(c) => if t == v.current then [Wrote(c, v.lost)] else []
    case Poke(offset, value) => if t == v.current && v.mapped && !v.lost then [Poked(offset, value)] else []
    case Key(c) => if t == v.active then [Pressed(c)] else []
    case BeginRead => if t == v.current then [Asked] else []
    case FinishRead(nbytes) => if t == v.active && nbytes >= 0 then [Cleared] else []
  }

  /** A step that stays within the windows and the buffers, with a read that returns only once the input has ended. */
  ghost predicate Legal(v: View, op: Op)
    requires ViewOk(v)
  {
    && (forall t :: 0 <= t < NUM_TERMINALS ==> AllAllowed(v.terms[t], Events(v, op, t)))
    && (op.Switch? ==> op.next < NUM_TERMINALS)
    && (op.Poke? ==> op.offset < 2 * PAGE_CELLS)
    && (op.Key? ==> op.c < 0x80)
    && (op.FinishRead? && op.nbytes >= 0 ==> v.terms[v.current].input.ended)
  }

  ghost function TermsAfter(v: View, op: Op): (r: seq<Term>)
    requires ViewOk(v) && Legal(v, op)
    ensures |r| == NUM_TERMINALS
            && forall t :: 0 <= t < NUM_TERMINALS ==> TermOk(r[t]) && r[t] == AfterAll(v.terms[t], Events(v, op, t))
  {
    seq(NUM_TERMINALS, t requires 0 <= t < NUM_TERMINALS => AfterAll(v.terms[t], Events(v, op, t)))
  }

  ghost function Step(v: View, op: Op): (v': View)
    requires ViewOk(v) && Legal(v, op)
    ensures ViewOk(v')
  {
    var terms := TermsAfter(v, op);
    match op
    case Tick => View(terms, (v.current + 1) % NUM_TERMINALS, v.active, false, true)
    case Switch(next) =>
      if next == v.active then v else View(terms, v.current, next, v.current != next, true)
    case _ => v.(terms := terms)
  }

  /** A tick, a switch, a write to a page that is not mapped or not seen: no event to any terminal. */
  lemma NoEvents(v: View, op: Op)
    requires ViewOk(v) && forall t :: 0 <= t < NUM_TERMINALS ==> Events(v, op, t) == []
    requires (op.Switch? ==> op.next < NUM_TERMINALS) && (op.Poke? ==> op.offset < 2 * PAGE_CELLS)
    requires !op.Key? && (op.FinishRead? ==> op.nbytes < 0)
    ensures Legal(v, op) && TermsAfter(v, op) == v.terms
  {
  }

  lemma JustOne(t: Term, ev: Event)
    requires TermOk(t) && Allowed(t, ev)
    ensures AllAllowed(t, [ev]) && AfterAll(t, [ev]) == After(t, ev)
  {
    assert [ev][1..] == [];
    assert AllAllowed(After(t, ev), []) && AfterAll(After(t, ev), []) == After(t, ev);
  }

  /** A step that is an event to one terminal only. */
  lemma OneEvent(v: View, op: Op, t: nat, ev: Event)
    requires ViewOk(v) && t < NUM_TERMINALS && !op.Switch? && !op.Tick?
    requires Events(v, op, t) == [ev] && Allowed(v.terms[t], ev)
    requires forall u :: 0 <= u < NUM_TERMINALS && u != t ==> Events(v, op, u) == []
    requires (op.Poke? ==> op.offset < 2 * PAGE_CELLS) && (op.Key? ==> op.c < 0x80)
    requires op.FinishRead? ==> v.terms[v.current].input.ended
    ensures Legal(v, op) && Step(v, op) == v.(terms := v.terms[t := After(v.terms[t], ev)])
  {
    JustOne(v.terms[t], ev);
    assert TermsAfter(v, op) == v.terms[t := After(v.terms[t], ev)];
  }

  // ---- Whole runs ------------------------------------------------------------------

  ghost predicate AllLegal(v: View, ops: seq<Op>)
    requires ViewOk(v)
    decreases |ops|
  {
    ops == [] || (Legal(v, ops[0]) && AllLegal(Step(v, ops[0]), ops[1..]))
  }

  ghost function Run(v: View, ops: seq<Op>): (v': View)
    requires ViewOk(v) && AllLegal(v, ops)
    ensures ViewOk(v')
    decreases |ops|
  {
    if ops == [] then v else Run(Step(v, ops[0]), ops[1..])
  }

  /** The events that a run brings to terminal `t`. */
  ghost function Stream(v: View, ops: seq<Op>, t: nat): seq<Event>
    requires ViewOk(v) && AllLegal(v, ops)
    decreases |ops|
  {
    if ops == [] then [] else Events(v, ops[0], t) + Stream(Step(v, ops[0]), ops[1..], t)
  }

  lemma {:induction false} AfterAppend(t: Term, a: seq<Event>, b: seq<Event>)
    requires TermOk(t) && AllAllowed(t, a) && AllAllowed(AfterAll(t, a), b)
    ensures AllAllowed(t, a + b) && AfterAll(t, a + b) == AfterAll(AfterAll(t, a), b)
    decreases |a|
  {
    if a == [] {
      assert a + b == b;
    } else {
      AfterAppend(After(t, a[0]), a[1..], b);
      assert (a + b)[1..] == a[1..] + b;
    }
  }

  /** Over every run, a terminal is changed by its own events and by nothing else. */
  lemma {:induction false} Isolation(v: View, ops: seq<Op>, t: nat)
    requires ViewOk(v) && AllLegal(v, ops) && t < NUM_TERMINALS
    ensures AllAllowed(v.terms[t], Stream(v, ops, t))
    ensures Run(v, ops).terms[t] == AfterAll(v.terms[t], Stream(v, ops, t))
    decreases |ops|
  {
    if ops != [] {
      var v' := Step(v, ops[0]);
      Isolation(v', ops[1..], t);
      assert v'.terms[t] == AfterAll(v.terms[t], Events(v, ops[0], t));
      AfterAppend(v.terms[t], Events(v, ops[0], t), Stream(v', ops[1..], t));
    }
  }

  /**
   * Over every run in which none of its task's writes fell between a switch and
   * the next tick, a terminal's screen shows the tape of its own characters.
   */
  lemma ScreenIsWindow(v: View, ops: seq<Op>, t: nat, tape: Tape)
    requires ViewOk(v) && AllLegal(v, ops) && t < NUM_TERMINALS && Shows(v.terms[t].screen, tape)
    requires forall i :: 0 <= i < |Stream(v, ops, t)| ==> Plain(Stream(v, ops, t)[i])
    ensures AllAllowed(v.terms[t], Stream(v, ops, t))
    ensures Shows(Run(v, ops).terms[t].screen, TapeAfterAll(v.terms[t], tape, Stream(v, ops, t)))
  {
    Isolation(v, ops, t);
  }

  /**
   * A read empties the active terminal's buffer: the reader's own exactly when the
   * reader's terminal is the active one or had nothing in it.
   */
  lemma ReadEmptiesActive(v: View, nbytes: nat)
    requires ViewOk(v) && Legal(v, FinishRead(nbytes))
    ensures var v' := Step(v, FinishRead(nbytes));
            && v'.terms[v.active].input == EmptyInput(v.terms[v.active].input.ended)
            && (v'.terms[v.current].input.index == 0 <==> v.active == v.current || v.terms[v.current].input.index == 0)
  {
    assert AllAllowed(v.terms[v.active], [Cleared]);
    assert AfterAll(v.terms[v.active], [Cleared]) == After(v.terms[v.active], Cleared);
  }
}
