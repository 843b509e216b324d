/**
 * One terminal: its screen, its line of input and what happens to it
 * (student-distrib/terminal.c). Keys arrive as translated ASCII codes below 0x80.
 */
module Terminal {
  import opened Bytes
  import opened Screen

  const INPUT_BUFFER_SIZE := 128

  /** The input buffer, the index into it, and whether Enter has ended the input. */
  datatype Input = Input(buf: seq<byte>, index: nat, ended: bool)

  datatype Term = Term(screen: Screen, input: Input)

  // ---- The line editor ------------------------------------------------------------

  /** Every slot of the buffer from the index on holds a newline. */
  predicate InputOk(i: Input) {
    |i.buf| == 128 && i.index <= 128 && forall k :: i.index <= k < 128 ==> i.buf[k] == 0x0A
  }

  function EmptyInput(ended: bool): Input {
    Input(Fill(NEWLINE, INPUT_BUFFER_SIZE), 0, ended)
  }

  predicate Ignored(c: byte) {
    c == NUL || c == TAB
  }

  /** Whether the key is acted upon, and so echoed. */
  predicate Accepted(i: Input, c: byte) {
    if Ignored(c) then false
    else if c == BACKSPACE then i.index > 0
    else c == NEWLINE || i.index < INPUT_BUFFER_SIZE - 1
  }

  /** The buffer after a key; the index is eight bits wide. */
  function KeyInput(i: Input, c: byte): Input
    requires InputOk(i)
  {
    if !Accepted(i, c) then i
    else if c == BACKSPACE then i.(index := i.index - 1, buf := i.buf[i.index - 1 := NEWLINE])
    else if c == NEWLINE then i.(ended := true, index := (i.index + 1) % 256)
    else i.(buf := i.buf[i.index := c], index := i.index + 1)
  }

  function Content(i: Input): seq<byte>
    requires InputOk(i)
  {
    i.buf[..i.index]
  }

  /**
   * A line editor without a buffer: what a key makes of the text typed so far.
   * NUL and tab do nothing, backspace takes the last character back, Enter is
   * always added, and any other key while there are fewer than 127.
   */
  function Edited(text: seq<byte>, c: byte): seq<byte> {
    if c == 0x00 || c == 0x09 then text
    else if c == 0x08 then (if text == [] then [] else text[..|text| - 1])
    else if c == 0x0A || |text| < 127 then text + [c]
    else text
  }

  /** The buffer edits its text like a line editor exactly until an Enter finds it full. */
  lemma KeyEdits(i: Input, c: byte)
    requires InputOk(i)
    ensures InputOk(KeyInput(i, c)) <==> !(c == 0x0A && i.index == 128)
    ensures InputOk(KeyInput(i, c)) ==> Content(KeyInput(i, c)) == Edited(Content(i), c)
    ensures KeyInput(i, c).ended <==> i.ended || c == 0x0A
  {
  }

  /** A key is echoed exactly when it changes the line. */
  lemma EchoedIfEdited(i: Input, c: byte)
    requires InputOk(i)
    ensures Accepted(i, c) <==> Edited(Content(i), c) != Content(i)
  {
    if Accepted(i, c) { assert |Edited(Content(i), c)| != |Content(i)|; }
  }

  // ---- Events -----------------------------------------------------------------------

  /** What can happen to a terminal. A lost write moves the place but reaches no cell of this screen. */
  datatype Event =
    | Wrote(c: byte, lost: bool)       // by the terminal's own task
    | Poked(offset: nat, value: byte)  // by the terminal's own task, through the page it was mapped
    | Pressed(c: byte)                 // a key while the terminal is the active one
    | Asked                            // a read has begun to wait
    | Cleared                          // a read, by whatever task, has emptied the active terminal's buffer

  ghost predicate TermOk(t: Term) {
    InWindow(t.screen) && InputOk(t.input)
  }

  /** The event stays within the window and the buffer. */
  ghost predicate Allowed(t: Term, ev: Event) {
    match ev
    case Wrote(c, _) => !(c == BACKSPACE && AtOrigin(t.screen))
    case Poked(offset, _) => offset < 2 * PAGE_CELLS
    case Pressed(c) => !(c == BACKSPACE && t.input.index > 0 && AtOrigin(t.screen))
      && !(c == NEWLINE && t.input.index == INPUT_BUFFER_SIZE)
    case Asked => true
    case Cleared => true
  }

  /** A page after a byte of it was written. */
  function PokedPage(page: seq<Cell>, offset: nat, value: byte): (r: seq<Cell>)
    requires |page| == PAGE_CELLS && offset < 2 * PAGE_CELLS
    ensures |r| == PAGE_CELLS
  {
    var cell := page[offset / 2];
    page[offset / 2 := if offset % 2 == 0 then cell.(ch := value) else cell.(attr := value)]
  }

  /** The byte at an offset of a page: the character of a cell, then its attribute. */
  function ByteAt(page: seq<Cell>, offset: nat): byte
    requires offset < 2 * |page|
  {
    if offset % 2 == 0 then page[offset / 2].ch else page[offset / 2].attr
  }

  /** Exactly the byte at the offset is written. */
  lemma PokeWritesByte(page: seq<Cell>, offset: nat, value: byte, k: nat)
    requires |page| == PAGE_CELLS && offset < 2 * PAGE_CELLS && k < 2 * PAGE_CELLS
    ensures ByteAt(PokedPage(page, offset, value), k) == if k == offset then value else ByteAt(page, k)
  {
  }

  ghost function After(t: Term, ev: Event): (t': Term)
    requires TermOk(t) && Allowed(t, ev)
    ensures TermOk(t')
  {
    match ev
    case Wrote(c, lost) => t.(screen := if lost then Put(t.screen, c).(page := t.screen.page) else Put(t.screen, c))
    case Poked(offset, value) => t.(screen := t.screen.(page := PokedPage(t.screen.page, offset, value)))
    case Pressed(c) =>
      KeyEdits(t.input, c);
      Term(if Accepted(t.input, c) then Put(t.screen, c) else t.screen, KeyInput(t.input, c))
    case Asked => t.(input := t.input.(ended := false))
    case Cleared => t.(input := EmptyInput(t.input.ended))
  }

  ghost predicate AllAllowed(t: Term, evs: seq<Event>)
    requires TermOk(t)
    decreases |evs|
  {
    evs == [] || (Allowed(t, evs[0]) && AllAllowed(After(t, evs[0]), evs[1..]))
  }

  ghost function AfterAll(t: Term, evs: seq<Event>): (t': Term)
    requires TermOk(t) && AllAllowed(t, evs)
    ensures TermOk(t')
    decreases |evs|
  {
    if evs == [] then t else AfterAll(After(t, evs[0]), evs[1..])
  }

  // ---- The tape of a terminal -----------------------------------------------------------

  /** The character an event puts on the tape, if any. */
  ghost function Shown(t: Term, ev: Event): seq<byte> {
    match ev
    case Wrote(c, _) => [c]
    case Pressed(c) => if Accepted(t.input, c) then [c] else []
    case _ => []
  }

  ghost predicate Plain(ev: Event) {
    !ev.Poked? && !(ev.Wrote? && ev.lost)
  }

  ghost function TapeAfter(t: Term, tape: Tape, ev: Event): Tape
    requires TermOk(t) && Allowed(t, ev) && Shows(t.screen, tape)
  {
    if Shown(t, ev) == [] then tape
    else
      PutShows(t.screen, tape, ev.c);
      TapePut(tape, ev.c)
  }

  lemma EventShows(t: Term, tape: Tape, ev: Event)
    requires TermOk(t) && Allowed(t, ev) && Plain(ev) && Shows(t.screen, tape)
    ensures Shows(After(t, ev).screen, TapeAfter(t, tape, ev))
  {
    if Shown(t, ev) != [] { PutShows(t.screen, tape, ev.c); }
  }

  /** The tape after the task's writes and the accepted keys, in the order they came. */
  ghost function TapeAfterAll(t: Term, tape: Tape, evs: seq<Event>): (tape': Tape)
    requires TermOk(t) && AllAllowed(t, evs) && Shows(t.screen, tape) && forall i :: 0 <= i < |evs| ==> Plain(evs[i])
    ensures Shows(AfterAll(t, evs).screen, tape')
    decreases |evs|
  {
    if evs == [] then tape
    else
      EventShows(t, tape, evs[0]);
      TapeAfterAll(After(t, evs[0]), TapeAfter(t, tape, evs[0]), evs[1..])
  }

  // ---- Line editor and echo agree ----------------------------------------------------------

  /** Keys that edit a line: all but NUL and tab, which do nothing, and newline and carriage return, which leave it. */
  predicate Edits(c: byte) {
    c != 0x00 && c != 0x09 && c != 0x0A && c != 0x0D
  }

  /** The tape from `start` on spells the text typed so far, and the line is short enough to be in view. */
  ghost predicate Spells(t: Term, tape: Tape, start: nat) {
    && TermOk(t) && Shows(t.screen, tape)
    && t.input.index < INPUT_BUFFER_SIZE
    && start >= NUM_COLS * tape.top
    && tape.pos == start + t.input.index
    && forall k :: 0 <= k < t.input.index ==>
         t.input.buf[k] != BACKSPACE && CellAt(tape, start + k) == Cell(t.input.buf[k], ATTRIB)
  }

  /**
   * As long as only editing keys arrive, the tape from the place where the line
   * began spells the buffer, the place is at its end, and no key can leave the
   * window or the buffer, even when the line scrolls the screen.
   */
  lemma KeySpells(t: Term, tape: Tape, start: nat, c: byte)
    requires Spells(t, tape, start) && Edits(c)
    ensures Allowed(t, Pressed(c))
    ensures Spells(After(t, Pressed(c)), TapeAfter(t, tape, Pressed(c)), start)
  {
    OriginIsTop(t.screen, tape);
    var ev := Pressed(c);
    EventShows(t, tape, ev);
  }

  function Presses(keys: seq<byte>): (evs: seq<Event>)
    ensures |evs| == |keys| && forall i :: 0 <= i < |evs| ==> Plain(evs[i])
  {
    if keys == [] then [] else [Pressed(keys[0])] + Presses(keys[1..])
  }

  ghost predicate AllEdit(keys: seq<byte>) {
    forall i :: 0 <= i < |keys| ==> Edits(keys[i])
  }

  lemma {:induction false} LineSpells(t: Term, tape: Tape, start: nat, keys: seq<byte>)
    requires Spells(t, tape, start) && AllEdit(keys)
    ensures AllAllowed(t, Presses(keys))
    ensures Spells(AfterAll(t, Presses(keys)), TapeAfterAll(t, tape, Presses(keys)), start)
    decreases |keys|
  {
    if keys != [] {
      KeySpells(t, tape, start, keys[0]);
      var rest := Presses(keys[1..]);
      assert Presses(keys)[1..] == rest;
      LineSpells(After(t, Pressed(keys[0])), TapeAfter(t, tape, Pressed(keys[0])), start, keys[1..]);
    }
  }

  // ---- Reading a line --------------------------------------------------------------------

  /** The text that a sequence of keys leaves. */
  function EditedAll(text: seq<byte>, keys: seq<byte>): seq<byte>
    decreases |keys|
  {
    if keys == [] then text else EditedAll(Edited(text, keys[0]), keys[1..])
  }

  ghost function KeysInput(i: Input, keys: seq<byte>): (i': Input)
    requires InputOk(i) && AllEdit(keys)
    ensures InputOk(i')
    decreases |keys|
  {
    if keys == [] then i
    else
      KeyEdits(i, keys[0]);
      KeysInput(KeyInput(i, keys[0]), keys[1..])
  }

  /** What a read returns once the input has ended: a count and the bytes. */
  function ReadResult(i: Input, nbytes: int): (int, seq<byte>)
    requires InputOk(i)
  {
    if nbytes < 0 then (-1, [])
    else if i.index < nbytes then (i.index, i.buf[..i.index])
    else (nbytes, i.buf[..nbytes])
  }

  lemma {:induction false} KeysEdit(i: Input, keys: seq<byte>)
    requires InputOk(i) && AllEdit(keys) && i.index < INPUT_BUFFER_SIZE
    ensures Content(KeysInput(i, keys)) == EditedAll(Content(i), keys) && KeysInput(i, keys).index < INPUT_BUFFER_SIZE
    decreases |keys|
  {
    if keys != [] {
      KeyEdits(i, keys[0]);
      KeysEdit(KeyInput(i, keys[0]), keys[1..]);
    }
  }

  ghost predicate AllPrintable(keys: seq<byte>) {
    forall i :: 0 <= i < |keys| ==> 0x20 <= keys[i] <= 0x7E
  }

  /** The first 127 of some printable characters make the line, just as they were typed. */
  lemma {:induction false} PrintableStays(text: seq<byte>, keys: seq<byte>)
    requires AllPrintable(keys) && |text| <= 127
    ensures AllEdit(keys)
    ensures EditedAll(text, keys) == text + keys[..if |text| + |keys| <= 127 then |keys| else 127 - |text|]
    decreases |keys|
  {
    if keys != [] {
      PrintableStays(Edited(text, keys[0]), keys[1..]);
      var n := if |text| + |keys| <= 127 then |keys| else 127 - |text|;
      if n > 0 { assert keys[..n] == [keys[0]] + keys[1..][..n - 1]; }
    }
  }

  /** A backspace after a character that was added takes it back. */
  lemma {:induction false} BackspaceUndoes(text: seq<byte>, keys: seq<byte>, c: byte)
    requires |EditedAll(text, keys)| < 127 && c != 0x00 && c != 0x08 && c != 0x09
    ensures EditedAll(text, keys + [c, 0x08]) == EditedAll(text, keys)
    decreases |keys|
  {
    var all := keys + [c, 0x08];
    if keys == [] {
      assert all[1..] == [0x08] && all[1..][1..] == [];
      assert EditedAll(text + [c], [0x08]) == EditedAll(text, []);
    } else {
      assert all[1..] == keys[1..] + [c, 0x08];
      BackspaceUndoes(Edited(text, keys[0]), keys[1..], c);
    }
  }

  /** A terminal with no input begins a line wherever its cursor is. */
  lemma LineBegins(t: Term, tape: Tape)
    requires TermOk(t) && Shows(t.screen, tape) && t.input.index == 0
    ensures Spells(t, tape, tape.pos)
  {
  }

  lemma {:induction false} PressesInput(t: Term, keys: seq<byte>)
    requires TermOk(t) && AllEdit(keys) && AllAllowed(t, Presses(keys))
    ensures AfterAll(t, Presses(keys)).input == KeysInput(t.input, keys)
    decreases |keys|
  {
    if keys != [] {
      assert Presses(keys)[1..] == Presses(keys[1..]);
      PressesInput(After(t, Pressed(keys[0])), keys[1..]);
    }
  }

  /**
   * From an empty buffer, whatever editing keys arrive: the tape spells the
   * edited line from the place where the cursor was, and the cursor is at its end.
   */
  lemma TypedLine(t: Term, tape: Tape, keys: seq<byte>)
    requires TermOk(t) && Shows(t.screen, tape) && t.input.index == 0 && AllEdit(keys)
    ensures AllAllowed(t, Presses(keys))
    ensures var t', tape' := AfterAll(t, Presses(keys)), TapeAfterAll(t, tape, Presses(keys));
            Spells(t', tape', tape.pos) && Content(t'.input) == EditedAll([], keys)
  {
    LineBegins(t, tape);
    LineSpells(t, tape, tape.pos, keys);
    PressesInput(t, keys);
    KeysEdit(t.input, keys);
    assert Content(t.input) == [];
  }

  /** After one Enter, a read returns as much as was asked for of the edited line and its newline. */
  lemma ReadReturnsLine(i: Input, keys: seq<byte>, nbytes: nat)
    requires InputOk(i) && i.index == 0 && AllEdit(keys)
    ensures var line := EditedAll([], keys) + [NEWLINE];
            var i' := KeyInput(KeysInput(i, keys), NEWLINE);
            var n := if nbytes < |line| then nbytes else |line|;
            InputOk(i') && i'.ended && |line| <= INPUT_BUFFER_SIZE && ReadResult(i', nbytes) == (n, line[..n])
  {
    KeysEdit(i, keys);
    var typed := KeysInput(i, keys);
    KeyEdits(typed, NEWLINE);
    assert Content(i) == [];
    var i', line := KeyInput(typed, NEWLINE), EditedAll([], keys) + [NEWLINE];
    assert i'.buf[..i'.index] == line && |line| == i'.index;
    if nbytes < |line| { assert i'.buf[..nbytes] == line[..nbytes]; } else { assert line[..|line|] == line; }
  }

  // ---- A line of input among other events ---------------------------------------------------

  /** The event concerns the line of input. */
  predicate ToInput(ev: Event) {
    match ev
    case Pressed(c) => c != 0x00 && c != 0x09
    case Asked => true
    case Cleared => true
    case _ => false
  }

  function InputOnly(evs: seq<Event>): seq<Event> {
    if evs == [] then [] else (if ToInput(evs[0]) then [evs[0]] else []) + InputOnly(evs[1..])
  }

  function InputAfter(i: Input, ev: Event): Input {
    match ev
    case Pressed(c) => if InputOk(i) then KeyInput(i, c) else i
    case Asked => i.(ended := false)
    case Cleared => EmptyInput(i.ended)
    case _ => i
  }

  function InputAfterAll(i: Input, evs: seq<Event>): Input
    decreases |evs|
  {
    if evs == [] then i else InputAfterAll(InputAfter(i, evs[0]), evs[1..])
  }

  /** A terminal's input depends on the events that concern it and on no others. */
  lemma {:induction false} InputFollows(t: Term, evs: seq<Event>)
    requires TermOk(t) && AllAllowed(t, evs)
    ensures AfterAll(t, evs).input == InputAfterAll(t.input, InputOnly(evs))
    decreases |evs|
  {
    if evs != [] {
      InputFollows(After(t, evs[0]), evs[1..]);
      assert After(t, evs[0]).input == InputAfter(t.input, evs[0]);
      if ToInput(evs[0]) {
        assert InputOnly(evs)[1..] == InputOnly(evs[1..]);
      } else {
        assert InputOnly(evs) == InputOnly(evs[1..]);
      }
    }
  }

  /** A line as it reaches a reader: the read begins, the keys come, and Enter. */
  function LineEvents(keys: seq<byte>): seq<Event> {
    [Asked] + Presses(keys) + [Pressed(NEWLINE)]
  }

  lemma {:induction false} KeysThenEnter(i: Input, keys: seq<byte>)
    requires InputOk(i) && AllEdit(keys)
    ensures InputAfterAll(i, Presses(keys) + [Pressed(NEWLINE)]) == KeyInput(KeysInput(i, keys), NEWLINE)
    decreases |keys|
  {
    var evs := Presses(keys) + [Pressed(NEWLINE)];
    if keys == [] {
      assert evs == [Pressed(NEWLINE)];
    } else {
      KeyEdits(i, keys[0]);
      assert evs[1..] == Presses(keys[1..]) + [Pressed(NEWLINE)];
      KeysThenEnter(KeyInput(i, keys[0]), keys[1..]);
    }
  }

  /**
   * Whatever else happens to a terminal between the keys of a line, a read
   * returns as much as was asked for of the edited line and its newline.
   */
  lemma ReadAmongEvents(t: Term, evs: seq<Event>, keys: seq<byte>, nbytes: nat)
    requires TermOk(t) && t.input.index == 0 && AllAllowed(t, evs) && AllEdit(keys)
    requires InputOnly(evs) == LineEvents(keys)
    ensures var i, line := AfterAll(t, evs).input, EditedAll([], keys) + [0x0A];
            var n := if nbytes < |line| then nbytes else |line|;
            i.ended && ReadResult(i, nbytes) == (n, line[..n])
  {
    InputFollows(t, evs);
    var asked := t.input.(ended := false);
    assert LineEvents(keys)[1..] == Presses(keys) + [Pressed(NEWLINE)];
    KeysThenEnter(asked, keys);
    ReadReturnsLine(asked, keys, nbytes);
  }

  /** Printable characters and Enter, whatever else happens in between: a read returns the characters and a newline. */
  lemma PrintableRead(t: Term, evs: seq<Event>, keys: seq<byte>, nbytes: nat)
    requires TermOk(t) && t.input.index == 0 && AllAllowed(t, evs) && AllPrintable(keys) && |keys| <= 127
    requires InputOnly(evs) == LineEvents(keys)
    ensures var i, line := AfterAll(t, evs).input, keys + [0x0A];
            i.ended && ReadResult(i, nbytes) == if nbytes < |line| then (nbytes, line[..nbytes]) else (|line|, line)
  {
    PrintableStays([], keys);
    assert [] + keys[..|keys|] == keys;
    ReadAmongEvents(t, evs, keys, nbytes);
    assert (keys + [0x0A])[..|keys| + 1] == keys + [0x0A];
  }

  /** Only Enter ends an input, and a read that begins has it start anew. */
  lemma {:induction false} OnlyEnterEnds(t: Term, evs: seq<Event>)
    requires TermOk(t) && AllAllowed(t, evs) && Pressed(0x0A) !in evs && AfterAll(t, evs).input.ended
    ensures t.input.ended && Asked !in evs
    decreases |evs|
  {
    if evs != [] {
      OnlyEnterEnds(After(t, evs[0]), evs[1..]);
      assert Asked in evs <==> evs[0] == Asked || Asked in evs[1..];
    }
  }
}
