/**
 * The console's calls as they run: pages written in place through a page map
 * that changes under them (student-distrib/terminal.c, student-distrib/lib.c,
 * student-distrib/scheduling.c). Each is shown to make the step of
 * ConsoleState.dfy.
 */
module Console {
  import opened Bytes
  import opened Screen
  import opened Terminal
  import opened Consoles
  import opened ConsoleState
  import opened ConsoleResets

  class Console {
    const vga: array<Cell>             // the page at BASE_VIDEO_MEM, then the private ones
    const private0: array<Cell>
    const private1: array<Cell>
    const private2: array<Cell>
    const records: array<Record>
    var vmap: map<nat, nat>
    var activeTerminal: nat
    var currentTask: nat
    var screenX: int
    var screenY: int
    var cursor: int

    ghost function Snapshot(): Memory
      reads this, records, vga, private0, private1, private2
    {
      Memory([vga[..], private0[..], private1[..], private2[..]], records[..], vmap, activeTerminal, currentTask,
        screenX, screenY, cursor)
    }

    ghost predicate Distinct()
      reads this
    {
      && vga != private0 && vga != private1 && vga != private2
      && private0 != private1 && private0 != private2 && private1 != private2
    }

    ghost predicate Valid()
      reads this, records, vga, private0, private1, private2
    {
      Distinct() && MemoryOk(Snapshot())
    }

    /** Records and page map are in order, also while a reset has left two places. */
    ghost predicate InOrder()
      reads this, records, vga, private0, private1, private2
    {
      Distinct() && Mapped(Snapshot())
    }

    function Physical(p: nat): (page: array<Cell>)
      requires IsPage(p)
    {
      if p == BASE_VIDEO_MEM then vga
      else if p == PrivatePage(0) then private0
      else if p == PrivatePage(1) then private1
      else private2
    }

    /** Opens the terminals: the first is active, and the first task runs. */
    constructor (vga: array<Cell>, private0: array<Cell>, private1: array<Cell>, private2: array<Cell>)
      requires vga.Length == private0.Length == private1.Length == private2.Length == PAGE_CELLS
      requires vga != private0 && vga != private1 && vga != private2
      requires private0 != private1 && private0 != private2 && private1 != private2
      modifies vga
      ensures Valid() && activeTerminal == 0 && currentTask == 0 && !Stray(Snapshot()) && USER_VIDEO_MEM !in vmap
      ensures forall t :: 0 <= t < NUM_TERMINALS ==> records[t].x == 0 && records[t].y == 0
      ensures forall t :: 0 <= t < NUM_TERMINALS ==> records[t].input == EmptyInput(true)
      ensures forall k :: 0 <= k < CELLS ==> vga[k] == Cell(SPACE, ATTRIB)
    {
      this.vga, this.private0, this.private1, this.private2 := vga, private0, private1, private2;
      records := new Record[NUM_TERMINALS](i requires 0 <= i => Record(PrivatePage(i), 0, 0, EmptyInput(true), i == 0));
      vmap := map[BASE_VIDEO_MEM := BASE_VIDEO_MEM, PrivatePage(0) := BASE_VIDEO_MEM,
                  PrivatePage(1) := PrivatePage(1), PrivatePage(2) := PrivatePage(2)];
      activeTerminal, currentTask, screenX, screenY, cursor := 0, 0, 0, 0, 0;
      new;
      var i := 0;
      while i < CELLS
        invariant 0 <= i <= CELLS && forall k :: 0 <= k < i ==> vga[k] == Cell(SPACE, ATTRIB)
        modifies vga
      {
        vga[i] := Cell(SPACE, ATTRIB);
        i := i + 1;
      }
      assert forall t :: 0 <= t < NUM_TERMINALS ==> RecordOk(Snapshot(), t);
    }

    method UpdateCursorActive()
      requires Shape(Snapshot())
      modifies this`cursor, this`screenX, this`screenY
      ensures Snapshot() == CursorUpdated(old(Snapshot()))
    {
      cursor := records[activeTerminal].y * NUM_COLS + records[activeTerminal].x;
      if records[currentTask].active {
        screenX := records[activeTerminal].x;
        screenY := records[activeTerminal].y;
      }
    }

    /** The part of the timer's turn that concerns the screen. */
    method Tick()
      requires InOrder()
      modifies this, records
      ensures Valid() && Snapshot() == TickStep(old(Snapshot()))
    {
      TickSettles(Snapshot());
      NextTurn();
    }

    method NextTurn()
      requires Distinct() && Shape(Snapshot())
      modifies this, records
      ensures Distinct() && Snapshot() == TickStep(old(Snapshot()))
    {
      var curr := currentTask;
      currentTask := (currentTask + 1) % NUM_TERMINALS;
      if records[currentTask].active {
        vmap := vmap[BASE_VIDEO_MEM := BASE_VIDEO_MEM];
        vmap := vmap[USER_VIDEO_MEM := BASE_VIDEO_MEM];
      } else {
        vmap := vmap[BASE_VIDEO_MEM := records[currentTask].videoMem];
        vmap := vmap[USER_VIDEO_MEM := records[currentTask].videoMem];
      }
      records[curr] := records[curr].(x := screenX, y := screenY);
      screenX, screenY := records[currentTask].x, records[currentTask].y;
      UpdateCursorActive();
    }

    /** The pages after one of them has changed. */
    twostate lemma OnePage(p: nat)
      requires Distinct() && Shape(old(Snapshot())) && IsPage(p) && Physical(p).Length == PAGE_CELLS
      requires forall q :: IsPage(q) && q != p ==> Physical(q)[..] == old(Physical(q)[..])
      ensures Snapshot().pages == old(Snapshot()).pages[p - BASE_VIDEO_MEM := Physical(p)[..]]
    {
      assert IsPage(BASE_VIDEO_MEM) && IsPage(PrivatePage(0)) && IsPage(PrivatePage(1)) && IsPage(PrivatePage(2));
      assert Physical(BASE_VIDEO_MEM) == vga && Physical(PrivatePage(0)) == private0;
      assert Physical(PrivatePage(1)) == private1 && Physical(PrivatePage(2)) == private2;
    }

    /** Puts a character on the physical page `p`. */
    method PutOn(p: nat, x: int, y: int, c: byte) returns (x': int, y': int)
      requires Distinct() && Shape(Snapshot()) && IsPage(p)
      requires 0 <= x < NUM_COLS && 0 <= y < NUM_ROWS && !(c == BACKSPACE && x == 0 && y == 0)
      modifies vga, private0, private1, private2
      ensures var s := Put(Screen(Page(old(Snapshot()), p), x, y), c);
              Snapshot() == WithPage(old(Snapshot()), p, s.page) && x' == s.x && y' == s.y
    {
      var page := Physical(p);
      assert page[..] == Page(Snapshot(), p);
      x', y' := PutChar(page, x, y, c);
      OnePage(p);
    }

    /** A character from the running task. */
    method Putc(c: byte)
      requires InOrder() && !(c == BACKSPACE && screenX == 0 && screenY == 0)
      modifies this, records, vga, private0, private1, private2
      ensures InOrder() && Snapshot() == WriteStep(old(Snapshot()), c)
      ensures old(Valid()) ==> Valid()
    {
      WriteKeepsSeats(Snapshot(), c);
      if Valid() { WriteKeeps(Snapshot(), c); }
      PutAndRecord(c);
    }

    /** Puts the character and records where it ends. */
    method PutAndRecord(c: byte)
      requires InOrder() && !(c == BACKSPACE && screenX == 0 && screenY == 0)
      modifies this, records, vga, private0, private1, private2
      ensures Distinct() && Snapshot() == WriteStep(old(Snapshot()), c)
    {
      WritePage(Snapshot());
      screenX, screenY := PutOn(vmap[BASE_VIDEO_MEM], screenX, screenY, c);
      if records[currentTask].active {
        cursor := screenY * NUM_COLS + screenX;
      }
      records[currentTask] := records[currentTask].(x := screenX, y := screenY);
    }

    /** The running task's screen is cleared, as at the halt of a base shell. */
    method ResetScreen()
      requires InOrder()
      modifies this, vga, private0, private1, private2
      ensures InOrder() && Snapshot() == ResetStep(old(Snapshot()))
    {
      ResetKeepsSeats(Snapshot());
      WritePage(Snapshot());
      var p := vmap[BASE_VIDEO_MEM];
      Clear(p);
      screenX, screenY := 0, 0;
      cursor := screenY * NUM_COLS + screenX;
    }

    /** Fills the window of the physical page `p` with spaces. */
    method Clear(p: nat)
      requires Distinct() && Shape(Snapshot()) && IsPage(p)
      modifies vga, private0, private1, private2
      ensures Snapshot() == WithPage(old(Snapshot()), p, ClearedPage(Page(old(Snapshot()), p)))
    {
      var page := Physical(p);
      assert page[..] == Page(Snapshot(), p);
      var i := 0;
      while i < NUM_ROWS * NUM_COLS
        invariant 0 <= i <= CELLS
        invariant forall k :: 0 <= k < PAGE_CELLS ==> page[k] == if k < i then Cell(SPACE, ATTRIB) else old(page[k])
        invariant forall r :: IsPage(r) && r != p ==> Physical(r)[..] == old(Physical(r)[..])
        modifies page
      {
        page[i] := Cell(SPACE, ATTRIB);
        i := i + 1;
      }
      assert page[..] == ClearedPage(Page(old(Snapshot()), p));
      OnePage(p);
    }

    /** A character echoed to the active terminal. */
    method PutcActive(c: byte)
      requires InOrder() && !(c == BACKSPACE && AtOrigin(Logical(Snapshot(), activeTerminal).screen))
      modifies this, records, vga, private0, private1, private2
      ensures Snapshot() == EchoStep(old(Snapshot()), c)
    {
      assert RecordOk(Snapshot(), activeTerminal);
      var a := records[activeTerminal];
      var x, y := PutOn(vmap[a.videoMem], a.x, a.y, c);
      records[activeTerminal] := a.(x := x, y := y);
      UpdateCursorActive();
    }

    /** Copies the physical page `q` over the physical page `p`. */
    method CopyPage(p: nat, q: nat)
      requires Distinct() && Shape(Snapshot()) && IsPage(p) && IsPage(q) && p != q
      modifies vga, private0, private1, private2
      ensures Snapshot() == WithPage(old(Snapshot()), p, Page(old(Snapshot()), q))
    {
      var dest, src := Physical(p), Physical(q);
      assert dest[..] == Page(Snapshot(), p) && src[..] == Page(Snapshot(), q);
      var i := 0;
      while i < PAGE_CELLS
        invariant 0 <= i <= PAGE_CELLS
        invariant forall k :: 0 <= k < i ==> dest[k] == src[k]
        invariant forall r :: IsPage(r) && r != p ==> Physical(r)[..] == old(Physical(r)[..])
        modifies dest
      {
        dest[i] := src[i];
        i := i + 1;
      }
      assert dest[..] == src[..];
      OnePage(p);
    }

    /**
     * Saves the screen in view on one page and brings the other into view, with their
     * addresses mapped to themselves meanwhile.
     */
    method ExchangePages(oldPage: nat, newPage: nat)
      requires Distinct() && Shape(Snapshot()) && IsPage(oldPage) && IsPage(newPage)
      requires oldPage != BASE_VIDEO_MEM && newPage != BASE_VIDEO_MEM && oldPage != newPage
      modifies this`vmap, vga, private0, private1, private2
      ensures var m := old(Snapshot());
              var saved := WithPage(m, oldPage, Page(m, BASE_VIDEO_MEM));
              var vmap := m.vmap[BASE_VIDEO_MEM := BASE_VIDEO_MEM][oldPage := oldPage][newPage := BASE_VIDEO_MEM];
              Snapshot() == WithPage(saved, BASE_VIDEO_MEM, Page(saved, newPage)).(vmap := vmap)
    {
      vmap := vmap[BASE_VIDEO_MEM := BASE_VIDEO_MEM];
      vmap := vmap[oldPage := oldPage];
      vmap := vmap[newPage := newPage];
      CopyPage(vmap[oldPage], vmap[BASE_VIDEO_MEM]);
      CopyPage(vmap[BASE_VIDEO_MEM], vmap[newPage]);
      vmap := vmap[newPage := BASE_VIDEO_MEM];
      assert vmap == old(vmap)[BASE_VIDEO_MEM := BASE_VIDEO_MEM][oldPage := oldPage][newPage := BASE_VIDEO_MEM];
    }

    /** Alt with a function key: the screens change places and the page map follows. */
    method SwitchTerminals(next: nat)
      requires InOrder() && next < NUM_TERMINALS
      modifies this, records, vga, private0, private1, private2
      ensures IsPage(old(records[activeTerminal].videoMem)) && IsPage(old(records[next].videoMem))
      ensures InOrder() && Snapshot() == SwitchStep(old(Snapshot()), next)
      ensures old(Valid()) ==> Valid()
    {
      SwitchKeepsMap(Snapshot(), next);
      if Valid() { SwitchRefines(Snapshot(), next); }
      if next == activeTerminal { return; }
      assert RecordOk(Snapshot(), activeTerminal) && RecordOk(Snapshot(), next);
      Exchange(next);
    }

    method Exchange(next: nat)
      requires Distinct() && Shape(Snapshot()) && next < NUM_TERMINALS && next != activeTerminal
      requires records[activeTerminal].videoMem == PrivatePage(activeTerminal)
               && records[next].videoMem == PrivatePage(next)
      modifies this, records, vga, private0, private1, private2
      ensures Distinct() && Snapshot() == SwitchStep(old(Snapshot()), next)
    {
      var oldTerminal := activeTerminal;
      records[oldTerminal] := records[oldTerminal].(active := false);
      activeTerminal := next;
      records[next] := records[next].(active := true);
      var oldPage, newPage := records[oldTerminal].videoMem, records[next].videoMem;
      ExchangePages(oldPage, newPage);
      if records[currentTask].active {
        vmap := vmap[USER_VIDEO_MEM := BASE_VIDEO_MEM];
      } else {
        vmap := vmap[BASE_VIDEO_MEM := newPage];
        vmap := vmap[USER_VIDEO_MEM := newPage];
      }
      UpdateCursorActive();
    }

    /** A program writes one byte of the page it was given. */
    method Poke(offset: nat, value: byte)
      requires InOrder() && offset < 2 * PAGE_CELLS
      modifies vga, private0, private1, private2
      ensures InOrder() && Snapshot() == PokeStep(old(Snapshot()), offset, value)
      ensures old(Valid()) ==> Valid()
    {
      PokeKeepsSeats(Snapshot(), offset, value);
      if Valid() { PokeRefines(Snapshot(), offset, value); }
      if USER_VIDEO_MEM !in vmap { return; }
      WritePage(Snapshot());
      PokeOn(vmap[USER_VIDEO_MEM], offset, value);
    }

    /** Writes one byte of the physical page `p`. */
    method PokeOn(p: nat, offset: nat, value: byte)
      requires Distinct() && Shape(Snapshot()) && IsPage(p) && offset < 2 * PAGE_CELLS
      modifies vga, private0, private1, private2
      ensures Snapshot() == WithPage(old(Snapshot()), p, PokedPage(Page(old(Snapshot()), p), offset, value))
    {
      var page := Physical(p);
      assert page[..] == Page(Snapshot(), p);
      var cell := page[offset / 2];
      page[offset / 2] := if offset % 2 == 0 then cell.(ch := value) else cell.(attr := value);
      OnePage(p);
    }

    method SetInput(t: nat, input: Input)
      requires Shape(Snapshot()) && t < NUM_TERMINALS
      modifies records
      ensures Snapshot() == WithInput(old(Snapshot()), t, input)
    {
      records[t] := records[t].(input := input);
    }

    /** A regular key. */
    method KeyPressed(c: byte)
      requires InOrder() && c < 0x80 && Allowed(Logical(Snapshot(), activeTerminal), Pressed(c))
      modifies this, records, vga, private0, private1, private2
      ensures InOrder() && Snapshot() == KeyStep(old(Snapshot()), c)
      ensures old(Valid()) ==> Valid()
    {
      KeyKeepsSeats(Snapshot(), c);
      if Valid() { KeyKeeps(Snapshot(), c); }
      EditLine(c);
    }

    /** Echoes the key and edits the active terminal's buffer. */
    method EditLine(c: byte)
      requires InOrder() && Allowed(Logical(Snapshot(), activeTerminal), Pressed(c))
      modifies this, records, vga, private0, private1, private2
      ensures Distinct() && Snapshot() == KeyStep(old(Snapshot()), c)
    {
      assert RecordOk(Snapshot(), activeTerminal);
      var i := records[activeTerminal].input;
      if c == NUL {
      } else if c == TAB {
      } else if c == BACKSPACE {
        if i.index > 0 {
          EchoWith(c, i.(index := i.index - 1, buf := i.buf[i.index - 1 := NEWLINE]));
        }
      } else if c == NEWLINE {
        EchoWith(c, i.(ended := true, index := (i.index + 1) % 256));
      } else {
        if i.index < INPUT_BUFFER_SIZE - 1 {
          EchoWith(c, i.(buf := i.buf[i.index := c], index := i.index + 1));
        }
      }
    }

    /** Echoes the key and then changes the active terminal's buffer. */
    method EchoWith(c: byte, input: Input)
      requires InOrder() && !(c == BACKSPACE && AtOrigin(Logical(Snapshot(), activeTerminal).screen))
      modifies this, records, vga, private0, private1, private2
      ensures Distinct() && Snapshot() == WithInput(EchoStep(old(Snapshot()), c), old(activeTerminal), input)
    {
      PutcActive(c);
      SetInput(activeTerminal, input);
    }

    /** A read marks the reader's input as in progress and waits. */
    method BeginRead()
      requires InOrder()
      modifies records
      ensures InOrder() && Snapshot() == BeginReadStep(old(Snapshot()))
      ensures old(Valid()) ==> Valid()
    {
      BeginKeepsSeats(Snapshot());
      SetInput(currentTask, records[currentTask].input.(ended := false));
    }

    /** Once the reader's input has ended, the read copies it and empties the active terminal's buffer. */
    method FinishRead(nbytes: int) returns (count: int, bytes: seq<byte>)
      requires InOrder() && (records[currentTask].input.ended || nbytes < 0)
      modifies records
      ensures InputOk(old(records[currentTask].input))
              && (count, bytes) == ReadResult(old(records[currentTask].input), nbytes)
      ensures InOrder() && Snapshot() == FinishReadStep(old(Snapshot()), nbytes)
      ensures old(Valid()) ==> Valid()
      ensures nbytes < 0 ==> count == -1 && bytes == [] && Snapshot() == old(Snapshot())
      ensures nbytes >= 0 ==> count == |bytes| && bytes <= old(records[currentTask].input.buf)
    {
      FinishKeepsSeats(Snapshot(), nbytes);
      assert RecordOk(Snapshot(), currentTask) && RecordOk(Snapshot(), activeTerminal);
      if nbytes < 0 { return -1, []; }
      var i := records[currentTask].input;
      count := if i.index < nbytes then i.index else nbytes;
      bytes := i.buf[..count];
      SetInput(activeTerminal, EmptyInput(records[activeTerminal].input.ended));
    }

    method Perform(op: Op)
      requires Valid() && StepAllowed(Snapshot(), op)
      modifies this, records, vga, private0, private1, private2
      ensures Valid() && Snapshot() == MemoryStep(old(Snapshot()), op)
    {
      match op
      case Tick => Tick();
      case Switch(next) => SwitchTerminals(next);
      case Write(c) => Putc(c);
      case Poke(offset, value) => Poke(offset, value);
      case Key(c) => KeyPressed(c);
      case BeginRead => BeginRead();
      case FinishRead(nbytes) => var count, bytes := FinishRead(nbytes);
    }

    /**
     * Whatever is done to it within the windows and the buffers, the console follows
     * the memory of ConsoleState.dfy.
     */
    method PerformAll(ops: seq<Op>)
      requires Valid() && AllStepsAllowed(Snapshot(), ops)
      modifies this, records, vga, private0, private1, private2
      ensures Valid() && Snapshot() == MemoryRun(old(Snapshot()), ops)
    {
      var i := 0;
      while i < |ops|
        invariant i <= |ops| && Valid() && AllStepsAllowed(Snapshot(), ops[i..])
        invariant MemoryRun(Snapshot(), ops[i..]) == MemoryRun(old(Snapshot()), ops)
      {
        Perform(ops[i]);
        assert ops[i..][1..] == ops[i + 1..];
        i := i + 1;
      }
    }

    method PerformAny(op: AnyOp)
      requires InOrder() && AnyAllowed(Snapshot(), op)
      modifies this, records, vga, private0, private1, private2
      ensures InOrder() && Snapshot() == NextAny(old(Snapshot()), op)
    {
      match op
      case Reset => ResetScreen();
      case Plainly(Tick) => Tick();
      case Plainly(Switch(next)) => SwitchTerminals(next);
      case Plainly(Write(c)) => Putc(c);
      case Plainly(Poke(offset, value)) => Poke(offset, value);
      case Plainly(Key(c)) => KeyPressed(c);
      case Plainly(BeginRead) => BeginRead();
      case Plainly(FinishRead(nbytes)) => var count, bytes := FinishRead(nbytes);
    }

    /** The same with resets among the steps: the console follows the memory of ConsoleResets.dfy. */
    method PerformEach(ops: seq<AnyOp>)
      requires InOrder() && AllAnyAllowed(Snapshot(), ops)
      modifies this, records, vga, private0, private1, private2
      ensures InOrder() && Snapshot() == AnyRun(old(Snapshot()), ops)
    {
      var i := 0;
      while i < |ops|
        invariant i <= |ops| && InOrder() && AllAnyAllowed(Snapshot(), ops[i..])
        invariant AnyRun(Snapshot(), ops[i..]) == AnyRun(old(Snapshot()), ops)
      {
        PerformAny(ops[i]);
        assert ops[i..][1..] == ops[i + 1..];
        i := i + 1;
      }
    }
  }
}
