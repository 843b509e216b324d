/**
 * The console as the kernel keeps it: one page of video memory, a private page
 * per terminal, a page map rewritten on every tick and every switch, terminal
 * records and a cached cursor (student-distrib/terminal.c,
 * student-distrib/scheduling.c, student-distrib/lib.c). The lemmas show that
 * its every step is a step of the three independent terminals of Consoles.dfy.
 */
module ConsoleState {
  import opened Bytes
  import opened Screen
  import opened Terminal
  import opened Consoles

  // Page numbers: the video memory, then one private page per terminal; and the
  // page at 132 megabytes through which a program writes to the screen itself.
  const BASE_VIDEO_MEM: nat := 0xB8
  const USER_VIDEO_MEM: nat := 0x8400

  function PrivatePage(t: nat): nat {
    BASE_VIDEO_MEM + t + 1
  }

  /** A terminal's record: the page it is written through, its place, its input and whether it is active. */
  datatype Record = Record(videoMem: nat, x: int, y: int, input: Input, active: bool)

  datatype Memory = Memory(
    pages: seq<seq<Cell>>,   // physical pages from BASE_VIDEO_MEM on
    records: seq<Record>,
    vmap: map<nat, nat>,     // virtual page to physical page
    active: nat,             // the active terminal
    current: nat,            // the running task, which is on the terminal of the same number
    x: int,                  // the place of the running task, cached
    y: int,
    cursor: int)             // the position in the hardware's cursor register

  predicate Shape(m: Memory) {
    && |m.pages| == NUM_TERMINALS + 1 && |m.records| == NUM_TERMINALS
    && (forall i :: 0 <= i < |m.pages| ==> |m.pages[i]| == PAGE_CELLS)
    && m.active < NUM_TERMINALS && m.current < NUM_TERMINALS
  }

  predicate IsPage(p: nat) {
    BASE_VIDEO_MEM <= p <= BASE_VIDEO_MEM + NUM_TERMINALS
  }

  function Page(m: Memory, p: nat): (r: seq<Cell>)
    requires Shape(m) && IsPage(p)
    ensures |r| == PAGE_CELLS
  {
    m.pages[p - BASE_VIDEO_MEM]
  }

  function WithPage(m: Memory, p: nat, page: seq<Cell>): (m': Memory)
    requires Shape(m) && IsPage(p) && |page| == PAGE_CELLS
    ensures Shape(m')
  {
    m.(pages := m.pages[p - BASE_VIDEO_MEM := page])
  }

  /** The address of a page. */
  function Address(p: nat): nat {
    p * 0x1000
  }

  /**
   * Where the pages are: video memory, the private pages of four kilobytes behind
   * it, and the page at 132 megabytes through which programs write.
   */
  lemma PagesApart(t: nat, u: nat)
    requires t < 3 && u < 3
    ensures Address(BASE_VIDEO_MEM) == 0xB_8000 && Address(USER_VIDEO_MEM) == 132 * 0x10_0000
    ensures Address(PrivatePage(t)) == 0xB_8000 + (t + 1) * 0x1000
    ensures IsPage(PrivatePage(t)) && PrivatePage(t) != BASE_VIDEO_MEM && (PrivatePage(t) == PrivatePage(u) ==> t == u)
  {
  }

  // ---- What the memory stands for -------------------------------------------------

  /** The page that holds what the user of terminal `t` sees or will see. */
  function HomePage(m: Memory, t: nat): nat {
    if t == m.active then BASE_VIDEO_MEM else PrivatePage(t)
  }

  function Logical(m: Memory, t: nat): Term
    requires Shape(m) && t < NUM_TERMINALS
  {
    Term(Screen(Page(m, HomePage(m, t)), m.records[t].x, m.records[t].y), m.records[t].input)
  }

  /** The running task writes to the private page of the active terminal, which nobody sees. */
  predicate Stray(m: Memory) {
    m.current != m.active && BASE_VIDEO_MEM in m.vmap && m.vmap[BASE_VIDEO_MEM] == PrivatePage(m.active)
  }

  /** A terminal is marked active only if it is, and its page leads to its home page. */
  ghost predicate RecordOk(m: Memory, t: nat)
    requires Shape(m) && t < NUM_TERMINALS
  {
    && m.records[t].videoMem == PrivatePage(t)
    && (m.records[t].active <==> t == m.active)
    && PrivatePage(t) in m.vmap && m.vmap[PrivatePage(t)] == HomePage(m, t)
    && TermOk(Logical(m, t))
  }

  /** The records and the page map are in order; the running task writes to its home page, or astray. */
  ghost predicate Mapped(m: Memory) {
    && Shape(m) && 0 <= m.x < NUM_COLS && 0 <= m.y < NUM_ROWS
    && (forall t :: 0 <= t < NUM_TERMINALS ==> RecordOk(m, t))
    && BASE_VIDEO_MEM in m.vmap
    && (m.vmap[BASE_VIDEO_MEM] == HomePage(m, m.current) || Stray(m))
    && (USER_VIDEO_MEM in m.vmap ==> m.vmap[USER_VIDEO_MEM] == m.vmap[BASE_VIDEO_MEM])
  }

  /** The cached place is the running task's, and the hardware's cursor is the active terminal's. */
  predicate Settled(m: Memory)
    requires Shape(m)
  {
    && m.x == m.records[m.current].x && m.y == m.records[m.current].y
    && m.cursor == NUM_COLS * m.records[m.active].y + m.records[m.active].x
  }

  ghost predicate MemoryOk(m: Memory) {
    Mapped(m) && Settled(m)
  }

  ghost function Abs(m: Memory): View
    requires Shape(m)
  {
    View([Logical(m, 0), Logical(m, 1), Logical(m, 2)], m.current, m.active, Stray(m), USER_VIDEO_MEM in m.vmap)
  }

  lemma AbsOk(m: Memory)
    requires MemoryOk(m)
    ensures ViewOk(Abs(m)) && forall t :: 0 <= t < NUM_TERMINALS ==> Abs(m).terms[t] == Logical(m, t)
  {
    assert RecordOk(m, 0) && RecordOk(m, 1) && RecordOk(m, 2);
  }

  // ---- The steps --------------------------------------------------------------------

  /** The hardware's cursor goes to the active terminal's place, which is also cached if the running task is on it. */
  function CursorUpdated(m: Memory): (m': Memory)
    requires Shape(m)
    ensures Shape(m')
  {
    var a := m.records[m.active];
    var m1 := m.(cursor := a.y * NUM_COLS + a.x);
    if m.records[m.current].active then m1.(x := a.x, y := a.y) else m1
  }

  function TickStep(m: Memory): (m': Memory)
    requires Shape(m)
    ensures Shape(m')
  {
    var next := (m.current + 1) % NUM_TERMINALS;
    var target := if m.records[next].active then BASE_VIDEO_MEM else m.records[next].videoMem;
    var records := m.records[m.current := m.records[m.current].(x := m.x, y := m.y)];
    CursorUpdated(m.(current := next, vmap := m.vmap[BASE_VIDEO_MEM := target][USER_VIDEO_MEM := target],
                     records := records, x := records[next].x, y := records[next].y))
  }

  /** Alt with a function key: nothing if the terminal is already active. */
  function SwitchStep(m: Memory, next: nat): (m': Memory)
    requires Shape(m) && next < NUM_TERMINALS && IsPage(m.records[m.active].videoMem)
             && IsPage(m.records[next].videoMem)
    ensures Shape(m')
  {
    if next == m.active then m
    else
      var oldPage := m.records[m.active].videoMem;
      var newPage := m.records[next].videoMem;
      var left := m.records[m.active := m.records[m.active].(active := false)];
      var records := left[next := m.records[next].(active := true)];
      var saved := WithPage(m, oldPage, Page(m, BASE_VIDEO_MEM));
      var shown := WithPage(saved, BASE_VIDEO_MEM, Page(saved, newPage));
      var vmap := m.vmap[BASE_VIDEO_MEM := BASE_VIDEO_MEM][oldPage := oldPage][newPage := BASE_VIDEO_MEM];
      CursorUpdated(shown.(active := next, records := records,
                           vmap := if records[m.current].active then vmap[USER_VIDEO_MEM := BASE_VIDEO_MEM]
                                   else vmap[BASE_VIDEO_MEM := newPage][USER_VIDEO_MEM := newPage]))
  }

  /** The running task puts a character through the page of the video memory's address. */
  function WriteStep(m: Memory, c: byte): (m': Memory)
    requires Mapped(m) && !(c == BACKSPACE && m.x == 0 && m.y == 0)
    ensures Shape(m')
  {
    var p := m.vmap[BASE_VIDEO_MEM];
    var s := Put(Screen(Page(m, p), m.x, m.y), c);
    WithPage(m, p, s.page).(x := s.x, y := s.y,
                            cursor := if m.records[m.current].active then s.y * NUM_COLS + s.x else m.cursor,
                            records := m.records[m.current := m.records[m.current].(x := s.x, y := s.y)])
  }

  /** The running task writes a byte of the page it was given; before that page is mapped nothing happens. */
  function PokeStep(m: Memory, offset: nat, value: byte): (m': Memory)
    requires Mapped(m) && offset < 2 * PAGE_CELLS
    ensures Shape(m')
  {
    if USER_VIDEO_MEM !in m.vmap then m
    else
      var p := m.vmap[USER_VIDEO_MEM];
      WithPage(m, p, PokedPage(Page(m, p), offset, value))
  }

  /** A character put on the active terminal, through that terminal's page. */
  function EchoStep(m: Memory, c: byte): (m': Memory)
    requires Mapped(m) && !(c == BACKSPACE && AtOrigin(Logical(m, m.active).screen))
    ensures Shape(m')
  {
    assert RecordOk(m, m.active);
    var a := m.records[m.active];
    var p := m.vmap[a.videoMem];
    var s := Put(Screen(Page(m, p), a.x, a.y), c);
    CursorUpdated(WithPage(m, p, s.page).(records := m.records[m.active := a.(x := s.x, y := s.y)]))
  }

  function KeyStep(m: Memory, c: byte): (m': Memory)
    requires Mapped(m) && Allowed(Logical(m, m.active), Pressed(c))
    ensures Shape(m')
  {
    assert RecordOk(m, m.active);
    var input := m.records[m.active].input;
    if !Accepted(input, c) then m
    else
      var m1 := EchoStep(m, c);
      m1.(records := m1.records[m.active := m1.records[m.active].(input := KeyInput(input, c))])
  }

  /** A page with its window filled with spaces. */
  function ClearedPage(page: seq<Cell>): (r: seq<Cell>)
    requires |page| == PAGE_CELLS
    ensures |r| == PAGE_CELLS
  {
    seq(PAGE_CELLS, k requires 0 <= k < PAGE_CELLS => if k < CELLS then Cell(SPACE, ATTRIB) else page[k])
  }

  /**
   * The running task's screen is cleared; the cached place and the hardware's cursor
   * go to the origin, and no record is written.
   */
  function ResetStep(m: Memory): (m': Memory)
    requires Mapped(m)
    ensures Shape(m')
  {
    var p := m.vmap[BASE_VIDEO_MEM];
    WithPage(m, p, ClearedPage(Page(m, p))).(x := 0, y := 0, cursor := 0)
  }

  function WithInput(m: Memory, t: nat, input: Input): (m': Memory)
    requires Shape(m) && t < NUM_TERMINALS
    ensures Shape(m')
  {
    m.(records := m.records[t := m.records[t].(input := input)])
  }

  // ---- Every step refines the step of the three terminals -------------------------------

  /** Terminal `t` with the cached place, if its task is the running one. */
  function Cached(m: Memory, t: nat): Term
    requires Shape(m) && t < NUM_TERMINALS
  {
    var term := Logical(m, t);
    if t == m.current then term.(screen := term.screen.(x := m.x, y := m.y)) else term
  }

  /** Whatever place is cached, a tick saves it to its terminal and changes nothing else that a user sees. */
  lemma TickSettles(m: Memory)
    requires Mapped(m)
    ensures MemoryOk(TickStep(m)) && forall t :: 0 <= t < NUM_TERMINALS ==> Logical(TickStep(m), t) == Cached(m, t)
    ensures TickStep(m).current == if m.current == 2 then 0 else m.current + 1
  {
    TickRecords(m);
    assert RecordOk(m, m.active) && RecordOk(m, TickStep(m).current);
  }

  lemma TickRecords(m: Memory)
    requires Mapped(m)
    ensures forall t :: 0 <= t < NUM_TERMINALS ==>
              RecordOk(TickStep(m), t) && Logical(TickStep(m), t) == Cached(m, t)
  {
    var m' := TickStep(m);
    forall t | 0 <= t < NUM_TERMINALS ensures RecordOk(m', t) && Logical(m', t) == Cached(m, t) {
      assert RecordOk(m, t);
    }
  }

  /** A tick saves a place that was cached from the same record, so that it moves nothing. */
  lemma TickKeeps(m: Memory)
    requires MemoryOk(m)
    ensures MemoryOk(TickStep(m)) && forall t :: 0 <= t < NUM_TERMINALS ==> Logical(TickStep(m), t) == Logical(m, t)
  {
    TickSettles(m);
  }

  lemma TickRefines(m: Memory)
    requires MemoryOk(m)
    ensures MemoryOk(TickStep(m)) && ViewOk(Abs(m)) && Legal(Abs(m), Tick) && Abs(TickStep(m)) == Step(Abs(m), Tick)
  {
    AbsOk(m);
    TickKeeps(m);
    NoEvents(Abs(m), Tick);
    assert RecordOk(m, (m.current + 1) % NUM_TERMINALS);
  }

  /** A switch copies pages so that each terminal's screen is found again on its new home page. */
  lemma SwitchKeeps(m: Memory, next: nat)
    requires Mapped(m) && next < NUM_TERMINALS && next != m.active
    ensures IsPage(m.records[m.active].videoMem) && IsPage(m.records[next].videoMem)
    ensures forall t :: 0 <= t < NUM_TERMINALS ==> Logical(SwitchStep(m, next), t) == Logical(m, t)
  {
    assert RecordOk(m, m.active) && RecordOk(m, next);
    forall t | 0 <= t < NUM_TERMINALS ensures Logical(SwitchStep(m, next), t) == Logical(m, t) {
      SwitchMoves(m, next, t);
    }
  }

  /** Where terminal `t` is found after a switch is what was found before. */
  lemma SwitchMoves(m: Memory, next: nat, t: nat)
    requires Mapped(m) && next < NUM_TERMINALS && next != m.active && t < NUM_TERMINALS
    ensures IsPage(m.records[m.active].videoMem) && IsPage(m.records[next].videoMem)
    ensures Logical(SwitchStep(m, next), t) == Logical(m, t)
  {
    assert RecordOk(m, m.active) && RecordOk(m, next);
    var m' := SwitchStep(m, next);
    assert m'.pages == m.pages[m.active + 1 := m.pages[0]][0 := m.pages[next + 1]];
  }

  lemma SwitchRecords(m: Memory, next: nat)
    requires Mapped(m) && next < NUM_TERMINALS && next != m.active
    ensures IsPage(m.records[m.active].videoMem) && IsPage(m.records[next].videoMem)
    ensures forall t :: 0 <= t < NUM_TERMINALS ==> RecordOk(SwitchStep(m, next), t)
  {
    SwitchKeeps(m, next);
    assert RecordOk(m, next) && RecordOk(m, m.active);
    var m' := SwitchStep(m, next);
    forall t | 0 <= t < NUM_TERMINALS ensures RecordOk(m', t) {
      assert RecordOk(m, t) && Logical(m', t) == Logical(m, t);
    }
  }

  lemma SwitchMaps(m: Memory, next: nat)
    requires MemoryOk(m) && next < NUM_TERMINALS && next != m.active
    ensures IsPage(m.records[m.active].videoMem) && IsPage(m.records[next].videoMem)
    ensures MemoryOk(SwitchStep(m, next)) && (Stray(SwitchStep(m, next)) <==> m.current != next)
    ensures USER_VIDEO_MEM in SwitchStep(m, next).vmap && SwitchStep(m, next).current == m.current
            && SwitchStep(m, next).active == next
  {
    SwitchRecords(m, next);
    assert RecordOk(m, m.current) && RecordOk(m, next) && RecordOk(m, m.active);
  }

  lemma SwitchRefines(m: Memory, next: nat)
    requires MemoryOk(m) && next < NUM_TERMINALS
    ensures IsPage(m.records[m.active].videoMem) && IsPage(m.records[next].videoMem)
    ensures MemoryOk(SwitchStep(m, next)) && ViewOk(Abs(m)) && Legal(Abs(m), Switch(next))
    ensures Abs(SwitchStep(m, next)) == Step(Abs(m), Switch(next))
  {
    AbsOk(m);
    NoEvents(Abs(m), Switch(next));
    assert RecordOk(m, m.active) && RecordOk(m, next);
    if next != m.active {
      SwitchKeeps(m, next);
      SwitchMaps(m, next);
    }
  }

  /** `m'` differs from `m` only by an event to terminal `t`. */
  ghost predicate OnlyChanged(m: Memory, m': Memory, t: nat, ev: Event) {
    && MemoryOk(m) && MemoryOk(m') && t < NUM_TERMINALS
    && m'.vmap == m.vmap && m'.current == m.current && m'.active == m.active
    && TermOk(Logical(m, t)) && Allowed(Logical(m, t), ev)
    && (forall u :: 0 <= u < NUM_TERMINALS ==> Logical(m', u) == if u == t then After(Logical(m, t), ev)
       else Logical(m, u))
  }

  lemma EventRefines(m: Memory, m': Memory, op: Op, t: nat, ev: Event)
    requires OnlyChanged(m, m', t, ev) && !op.Switch? && !op.Tick?
    requires Events(Abs(m), op, t) == [ev]
             && forall u :: 0 <= u < NUM_TERMINALS && u != t ==> Events(Abs(m), op, u) == []
    requires (op.Poke? ==> op.offset < 2 * PAGE_CELLS) && (op.Key? ==> op.c < 0x80)
    requires op.FinishRead? ==> m.records[m.current].input.ended
    ensures ViewOk(Abs(m)) && Legal(Abs(m), op) && Abs(m') == Step(Abs(m), op)
  {
    AbsOk(m);
    AbsOk(m');
    OneEvent(Abs(m), op, t, ev);
    assert Abs(m').terms == Abs(m).terms[t := After(Logical(m, t), ev)];
  }

  /** Where the running task writes: its own home page, or a page that is nobody's home. */
  lemma WritePage(m: Memory)
    requires Mapped(m)
    ensures IsPage(m.vmap[BASE_VIDEO_MEM])
    ensures !Stray(m) ==> m.vmap[BASE_VIDEO_MEM] == HomePage(m, m.current)
    ensures Stray(m) ==> forall t :: 0 <= t < NUM_TERMINALS ==> HomePage(m, t) != m.vmap[BASE_VIDEO_MEM]
    ensures forall t :: 0 <= t < NUM_TERMINALS && t != m.current ==> HomePage(m, t) != m.vmap[BASE_VIDEO_MEM]
  {
  }

  lemma WriteLogical(m: Memory, c: byte, t: nat)
    requires MemoryOk(m) && !(c == BACKSPACE && m.x == 0 && m.y == 0) && t < NUM_TERMINALS
    ensures TermOk(Logical(m, t)) && TermOk(Logical(WriteStep(m, c), t))
    ensures Logical(WriteStep(m, c), t)
         == if t == m.current then After(Logical(m, t), Wrote(c, Stray(m))) else Logical(m, t)
  {
    WritePage(m);
    assert RecordOk(m, m.current) && RecordOk(m, t);
  }

  lemma WriteKeeps(m: Memory, c: byte)
    requires MemoryOk(m) && !(c == BACKSPACE && m.x == 0 && m.y == 0)
    ensures OnlyChanged(m, WriteStep(m, c), m.current, Wrote(c, Stray(m)))
    ensures (WriteStep(m, c).x, WriteStep(m, c).y) == Cursor(m.x, m.y, c)
  {
    var m' := WriteStep(m, c);
    assert RecordOk(m, m.current) && RecordOk(m, m.active);
    forall t | 0 <= t < NUM_TERMINALS
      ensures RecordOk(m', t)
      ensures Logical(m', t) == if t == m.current then After(Logical(m, t), Wrote(c, Stray(m))) else Logical(m, t)
    {
      assert RecordOk(m, t);
      WriteLogical(m, c, t);
    }
  }

  lemma WriteRefines(m: Memory, c: byte)
    requires MemoryOk(m) && !(c == BACKSPACE && m.x == 0 && m.y == 0)
    ensures MemoryOk(WriteStep(m, c)) && ViewOk(Abs(m)) && Legal(Abs(m), Write(c))
            && Abs(WriteStep(m, c)) == Step(Abs(m), Write(c))
  {
    WriteKeeps(m, c);
    EventRefines(m, WriteStep(m, c), Write(c), m.current, Wrote(c, Stray(m)));
  }

  lemma PokeKeeps(m: Memory, offset: nat, value: byte)
    requires MemoryOk(m) && offset < 2 * PAGE_CELLS && USER_VIDEO_MEM in m.vmap
    ensures if Stray(m) then MemoryOk(PokeStep(m, offset, value)) && Abs(PokeStep(m, offset, value)) == Abs(m)
            else OnlyChanged(m, PokeStep(m, offset, value), m.current, Poked(offset, value))
  {
    var m' := PokeStep(m, offset, value);
    WritePage(m);
    assert RecordOk(m, m.current) && RecordOk(m, m.active);
    forall t | 0 <= t < NUM_TERMINALS
      ensures RecordOk(m', t)
      ensures Logical(m', t) == if t == m.current && !Stray(m) then After(Logical(m, t), Poked(offset, value))
              else Logical(m, t)
    {
      assert RecordOk(m, t);
    }
  }

  lemma PokeRefines(m: Memory, offset: nat, value: byte)
    requires MemoryOk(m) && offset < 2 * PAGE_CELLS
    ensures MemoryOk(PokeStep(m, offset, value)) && ViewOk(Abs(m)) && Legal(Abs(m), Poke(offset, value))
    ensures Abs(PokeStep(m, offset, value)) == Step(Abs(m), Poke(offset, value))
  {
    AbsOk(m);
    if USER_VIDEO_MEM in m.vmap { PokeKeeps(m, offset, value); }
    if USER_VIDEO_MEM in m.vmap && !Stray(m) {
      EventRefines(m, PokeStep(m, offset, value), Poke(offset, value), m.current, Poked(offset, value));
    } else {
      NoEvents(Abs(m), Poke(offset, value));
    }
  }

  lemma EchoKeeps(m: Memory, c: byte)
    requires Mapped(m) && !(c == BACKSPACE && AtOrigin(Logical(m, m.active).screen))
    ensures InWindow(Logical(m, m.active).screen)
    ensures var m' := EchoStep(m, c);
            && Mapped(m') && (Settled(m) ==> Settled(m'))
            && m'.vmap == m.vmap && m'.current == m.current && m'.active == m.active
            && (forall t :: 0 <= t < NUM_TERMINALS ==>
                  Logical(m', t) == if t == m.active then Logical(m, t).(screen := Put(Logical(m, t).screen, c))
                    else Logical(m, t))
  {
    var m' := EchoStep(m, c);
    assert RecordOk(m, m.current) && RecordOk(m, m.active);
    forall t | 0 <= t < NUM_TERMINALS ensures RecordOk(m', t) { assert RecordOk(m, t); }
  }

  lemma KeyKeeps(m: Memory, c: byte)
    requires MemoryOk(m) && Allowed(Logical(m, m.active), Pressed(c))
    ensures OnlyChanged(m, KeyStep(m, c), m.active, Pressed(c))
  {
    var m' := KeyStep(m, c);
    assert RecordOk(m, m.active);
    KeyEdits(m.records[m.active].input, c);
    if Accepted(m.records[m.active].input, c) {
      EchoKeeps(m, c);
      var m1 := EchoStep(m, c);
      forall t | 0 <= t < NUM_TERMINALS ensures RecordOk(m', t) { assert RecordOk(m1, t); }
    }
  }

  lemma KeyRefines(m: Memory, c: byte)
    requires MemoryOk(m) && c < 0x80 && Allowed(Logical(m, m.active), Pressed(c))
    ensures MemoryOk(KeyStep(m, c)) && ViewOk(Abs(m)) && Legal(Abs(m), Key(c))
            && Abs(KeyStep(m, c)) == Step(Abs(m), Key(c))
  {
    KeyKeeps(m, c);
    EventRefines(m, KeyStep(m, c), Key(c), m.active, Pressed(c));
  }

  lemma InputKeeps(m: Memory, t: nat, ev: Event)
    requires MemoryOk(m) && t < NUM_TERMINALS && (ev == Asked || ev == Cleared)
    ensures TermOk(Logical(m, t))
    ensures OnlyChanged(m, WithInput(m, t, After(Logical(m, t), ev).input), t, ev)
  {
    assert RecordOk(m, t);
    var m' := WithInput(m, t, After(Logical(m, t), ev).input);
    forall u | 0 <= u < NUM_TERMINALS ensures RecordOk(m', u) { assert RecordOk(m, u); }
  }

  /** The reader's input is marked as in progress. */
  function BeginReadStep(m: Memory): (m': Memory)
    requires Shape(m)
    ensures Shape(m')
  {
    WithInput(m, m.current, m.records[m.current].input.(ended := false))
  }

  /** The end of a read: the active terminal's buffer is filled with newlines. */
  function FinishReadStep(m: Memory, nbytes: int): (m': Memory)
    requires Shape(m)
    ensures Shape(m')
  {
    if nbytes < 0 then m else WithInput(m, m.active, EmptyInput(m.records[m.active].input.ended))
  }

  lemma ReadRefines(m: Memory, nbytes: int)
    requires MemoryOk(m)
    ensures MemoryOk(BeginReadStep(m)) && ViewOk(Abs(m)) && Legal(Abs(m), BeginRead)
            && Abs(BeginReadStep(m)) == Step(Abs(m), BeginRead)
    ensures m.records[m.current].input.ended || nbytes < 0 ==>
              && MemoryOk(FinishReadStep(m, nbytes)) && Legal(Abs(m), FinishRead(nbytes))
              && Abs(FinishReadStep(m, nbytes)) == Step(Abs(m), FinishRead(nbytes))
  {
    AbsOk(m);
    InputKeeps(m, m.current, Asked);
    EventRefines(m, BeginReadStep(m), BeginRead, m.current, Asked);
    if nbytes < 0 {
      NoEvents(Abs(m), FinishRead(nbytes));
    } else if m.records[m.current].input.ended {
      InputKeeps(m, m.active, Cleared);
      EventRefines(m, FinishReadStep(m, nbytes), FinishRead(nbytes), m.active, Cleared);
    }
  }

  // ---- Clearing a screen ---------------------------------------------------------------

  /** What a reset makes of a terminal's screen, the place aside: nothing if the running task writes astray. */
  function ClearedPageOf(m: Memory, t: nat): (page: seq<Cell>)
    requires Shape(m) && t < NUM_TERMINALS
  {
    var page := Logical(m, t).screen.page;
    if t == m.current && !Stray(m) then ClearedPage(page) else page
  }

  /** All 25 rows of 80 cells are the same. */
  ghost predicate WindowIs(page: seq<Cell>, cell: Cell) {
    |page| == 2048 && forall k :: 0 <= k < 25 * 80 ==> page[k] == cell
  }

  /**
   * A reset clears the running task's own screen and no other, and moves no
   * terminal's recorded place. The cached place and the hardware's cursor are
   * right afterwards exactly when both the running task's terminal and the
   * active one had theirs at the origin.
   */
  lemma ResetKeeps(m: Memory)
    requires MemoryOk(m)
    ensures var m' := ResetStep(m);
            && Mapped(m') && m'.vmap == m.vmap && m'.current == m.current && m'.active == m.active
            && (forall t :: 0 <= t < NUM_TERMINALS ==>
                  var was := Logical(m, t);
                  Logical(m', t) == was.(screen := was.screen.(page := ClearedPageOf(m, t))))
            && (Settled(m') <==> AtOrigin(Logical(m, m.current).screen) && AtOrigin(Logical(m, m.active).screen))
            && (!Stray(m) ==> WindowIs(Logical(m', m.current).screen.page, Cell(0x20, 0x07)))
            && (forall k :: 2000 <= k < 2048 ==>
                  Logical(m', m.current).screen.page[k] == Logical(m, m.current).screen.page[k])
            && m'.x == 0 && m'.y == 0 && m'.cursor == 0
  {
    var m' := ResetStep(m);
    WritePage(m);
    assert RecordOk(m, m.current) && RecordOk(m, m.active);
    forall t | 0 <= t < NUM_TERMINALS ensures RecordOk(m', t) { assert RecordOk(m, t); }
  }

  /** The next tick makes the origin the place of the terminal that was cleared. */
  lemma ResetThenTick(m: Memory)
    requires MemoryOk(m)
    ensures Mapped(ResetStep(m)) && MemoryOk(TickStep(ResetStep(m)))
    ensures forall t :: 0 <= t < NUM_TERMINALS ==>
              Logical(TickStep(ResetStep(m)), t) ==
                if t == m.current then Term(Screen(ClearedPageOf(m, t), 0, 0), Logical(m, t).input) else Logical(m, t)
  {
    ResetKeeps(m);
    TickSettles(ResetStep(m));
  }

  /**
   * A character that the task writes next goes to the origin of the cleared
   * screen, and its place is recorded; the hardware's cursor is right again
   * exactly when the task is on the active terminal or that one's place is the origin.
   */
  lemma ResetThenWrite(m: Memory, c: byte)
    requires MemoryOk(m) && c != BACKSPACE
    ensures Mapped(ResetStep(m))
    ensures var m', cleared := WriteStep(ResetStep(m), c), Screen(ClearedPageOf(m, m.current), 0, 0);
            && (forall t :: 0 <= t < NUM_TERMINALS && t != m.current ==> Logical(m', t) == Logical(m, t))
            && Logical(m', m.current).screen ==
                 (if Stray(m) then Put(cleared, c).(page := cleared.page) else Put(cleared, c))
            && m'.x == m'.records[m.current].x && m'.y == m'.records[m.current].y
            && (Settled(m') <==> m.current == m.active || AtOrigin(Logical(m, m.active).screen))
  {
    ResetKeeps(m);
    WritePage(m);
    WritePage(ResetStep(m));
    assert RecordOk(m, m.current) && RecordOk(m, m.active);
  }

  /**
   * A key that comes first, while the task is on the active terminal, is echoed at
   * the place from before, which is cached again.
   */
  lemma ResetThenKey(m: Memory, c: byte)
    requires MemoryOk(m) && m.current == m.active
    requires Accepted(m.records[m.active].input, c) && Allowed(Logical(m, m.active), Pressed(c))
    ensures Mapped(ResetStep(m)) && Allowed(Logical(ResetStep(m), m.active), Pressed(c))
    ensures var m', was := KeyStep(ResetStep(m), c), Logical(m, m.active).screen;
            InWindow(was) && Settled(m') && Logical(m', m.active).screen == Put(was.(page := ClearedPage(was.page)), c)
  {
    ResetKeeps(m);
    WritePage(m);
    assert RecordOk(m, m.active);
  }

  // ---- Whole runs ------------------------------------------------------------------

  /** A step that keeps to the windows and the buffers. */
  ghost predicate StepAllowed(m: Memory, op: Op)
    requires MemoryOk(m)
  {
    match op
    case Tick => true
    case Switch(next) => next < NUM_TERMINALS
    case Write(c) => !(c == BACKSPACE && m.x == 0 && m.y == 0)
    case Poke(offset, _) => offset < 2 * PAGE_CELLS
    case Key(c) => c < 0x80 && Allowed(Logical(m, m.active), Pressed(c))
    case BeginRead => true
    case FinishRead(nbytes) => m.records[m.current].input.ended || nbytes < 0
  }

  ghost function MemoryStep(m: Memory, op: Op): (m': Memory)
    requires MemoryOk(m) && StepAllowed(m, op)
    ensures MemoryOk(m')
  {
    StepRefines(m, op);
    RawStep(m, op)
  }

  ghost function RawStep(m: Memory, op: Op): (m': Memory)
    requires MemoryOk(m) && StepAllowed(m, op)
  {
    match op
    case Tick => TickStep(m)
    case Switch(next) => assert RecordOk(m, m.active) && RecordOk(m, next); SwitchStep(m, next)
    case Write(c) => WriteStep(m, c)
    case Poke(offset, value) => PokeStep(m, offset, value)
    case Key(c) => KeyStep(m, c)
    case BeginRead => BeginReadStep(m)
    case FinishRead(nbytes) => FinishReadStep(m, nbytes)
  }

  /** One step of the console is one step of the three terminals. */
  lemma StepRefines(m: Memory, op: Op)
    requires MemoryOk(m) && StepAllowed(m, op)
    ensures MemoryOk(RawStep(m, op)) && ViewOk(Abs(m)) && Legal(Abs(m), op) && Abs(RawStep(m, op)) == Step(Abs(m), op)
  {
    match op
    case Tick => TickRefines(m);
    case Switch(next) => SwitchRefines(m, next);
    case Write(c) => WriteRefines(m, c);
    case Poke(offset, value) => PokeRefines(m, offset, value);
    case Key(c) => KeyRefines(m, c);
    case BeginRead => ReadRefines(m, 0);
    case FinishRead(nbytes) => ReadRefines(m, nbytes);
  }

  ghost predicate AllStepsAllowed(m: Memory, ops: seq<Op>)
    requires MemoryOk(m)
    decreases |ops|
  {
    ops == [] || (StepAllowed(m, ops[0]) && AllStepsAllowed(MemoryStep(m, ops[0]), ops[1..]))
  }

  ghost function MemoryRun(m: Memory, ops: seq<Op>): (m': Memory)
    requires MemoryOk(m) && AllStepsAllowed(m, ops)
    ensures MemoryOk(m')
    decreases |ops|
  {
    if ops == [] then m else MemoryRun(MemoryStep(m, ops[0]), ops[1..])
  }

  /** Every run of the console is a run of the three terminals. */
  lemma {:induction false} RunRefines(m: Memory, ops: seq<Op>)
    requires MemoryOk(m) && AllStepsAllowed(m, ops)
    ensures ViewOk(Abs(m)) && AllLegal(Abs(m), ops) && Abs(MemoryRun(m, ops)) == Run(Abs(m), ops)
    decreases |ops|
  {
    AbsOk(m);
    if ops != [] {
      StepRefines(m, ops[0]);
      RunRefines(MemoryStep(m, ops[0]), ops[1..]);
    }
  }

  /**
   * Over every run of ticks, switches, writes and keys, what the user of a
   * terminal sees is changed by that terminal's own events and by nothing else,
   * wherever its pages are.
   */
  lemma EveryRunIsolated(m: Memory, ops: seq<Op>, t: nat)
    requires MemoryOk(m) && AllStepsAllowed(m, ops) && t < NUM_TERMINALS
    ensures ViewOk(Abs(m)) && AllLegal(Abs(m), ops) && TermOk(Logical(m, t))
            && AllAllowed(Logical(m, t), Stream(Abs(m), ops, t))
    ensures Logical(MemoryRun(m, ops), t) == AfterAll(Logical(m, t), Stream(Abs(m), ops, t))
  {
    AbsOk(m);
    RunRefines(m, ops);
    Isolation(Abs(m), ops, t);
    AbsOk(MemoryRun(m, ops));
  }

  /**
   * Over every run in which its task writes nothing astray and pokes nothing, a
   * terminal's screen shows the tape that begins with what was on it and goes on
   * with its own characters, wherever its pages are.
   */
  lemma EveryRunShows(m: Memory, ops: seq<Op>, t: nat)
    requires MemoryOk(m) && AllStepsAllowed(m, ops) && t < NUM_TERMINALS
    ensures ViewOk(Abs(m)) && AllLegal(Abs(m), ops) && TermOk(Logical(m, t))
    ensures var term, evs := Logical(m, t), Stream(Abs(m), ops, t);
            && AllAllowed(term, evs) && Shows(term.screen, TapeOf(term.screen))
            && ((forall i :: 0 <= i < |evs| ==> Plain(evs[i])) ==>
                  Shows(Logical(MemoryRun(m, ops), t).screen, TapeAfterAll(term, TapeOf(term.screen), evs)))
  {
    EveryRunIsolated(m, ops, t);
    ShowsOwnTape(Logical(m, t).screen);
  }

  /** What a run brings to the line of input of terminal `t`. */
  ghost function InputEvents(m: Memory, ops: seq<Op>, t: nat): seq<Event>
    requires MemoryOk(m) && AllStepsAllowed(m, ops)
  {
    RunRefines(m, ops);
    InputOnly(Stream(Abs(m), ops, t))
  }

  /**
   * A read begins with an empty buffer and its terminal gets the keys of a line
   * and Enter, whatever ticks, switches, writes, pokes and other terminals' keys
   * and reads come in between: when the reader runs again, its read can finish
   * and returns as much as was asked for of the edited line and its newline.
   */
  lemma ReaderGetsLine(m: Memory, ops: seq<Op>, keys: seq<byte>, nbytes: nat)
    requires MemoryOk(m) && AllStepsAllowed(m, ops) && m.records[m.current].input.index == 0 && AllEdit(keys)
    requires InputEvents(m, ops, m.current) == LineEvents(keys)
    requires MemoryRun(m, ops).current == m.current
    ensures var m', line := MemoryRun(m, ops), EditedAll([], keys) + [NEWLINE];
            var n := if nbytes < |line| then nbytes else |line|;
            && StepAllowed(m', FinishRead(nbytes)) && InputOk(m'.records[m'.current].input)
            && ReadResult(m'.records[m'.current].input, nbytes) == (n, line[..n])
  {
    EveryRunIsolated(m, ops, m.current);
    ReadAmongEvents(Logical(m, m.current), Stream(Abs(m), ops, m.current), keys, nbytes);
    assert RecordOk(MemoryRun(m, ops), m.current);
  }

  /** For a line of printable characters the read returns these and a newline. */
  lemma ReaderGetsText(m: Memory, ops: seq<Op>, keys: seq<byte>, nbytes: nat)
    requires MemoryOk(m) && AllStepsAllowed(m, ops) && m.records[m.current].input.index == 0
    requires AllPrintable(keys) && |keys| <= 127
    requires InputEvents(m, ops, m.current) == LineEvents(keys)
    requires MemoryRun(m, ops).current == m.current
    ensures var m', line := MemoryRun(m, ops), keys + [0x0A];
            && InputOk(m'.records[m'.current].input)
            && ReadResult(m'.records[m'.current].input, nbytes)
               == if nbytes < |line| then (nbytes, line[..nbytes]) else (|line|, line)
  {
    EveryRunIsolated(m, ops, m.current);
    PrintableRead(Logical(m, m.current), Stream(Abs(m), ops, m.current), keys, nbytes);
    assert RecordOk(MemoryRun(m, ops), m.current);
  }

  /**
   * A read that has begun does not return, whatever ticks, switches, writes and
   * other keys come, until Enter is pressed on its own terminal.
   */
  lemma ReaderWaits(m: Memory, ops: seq<Op>, nbytes: nat)
    requires MemoryOk(m) && AllStepsAllowed(m, ops) && MemoryRun(m, ops).current == m.current
    ensures ViewOk(Abs(m)) && AllLegal(Abs(m), ops)
    ensures var evs := Stream(Abs(m), ops, m.current);
            Asked in evs && Pressed(0x0A) !in evs ==> !StepAllowed(MemoryRun(m, ops), FinishRead(nbytes))
  {
    EveryRunIsolated(m, ops, m.current);
    var evs := Stream(Abs(m), ops, m.current);
    if Asked in evs && Pressed(0x0A) !in evs && AfterAll(Logical(m, m.current), evs).input.ended {
      OnlyEnterEnds(Logical(m, m.current), evs);
    }
  }
}
