/**
 * The calls of fish/blink.S and the allocator of fish/fish.c as they run, on the
 * array in place. Each is shown to make the step of BlinkArray.dfy.
 */
module BlinkDriver {
  import opened Bytes
  import opened Blinks
  import opened BlinkArray

  /** Two 16-bit numbers packed into one argument. */
  lemma Halves(high: word, low: word)
    ensures (high * 0x1_0000 + low) / 0x1_0000 == high && (high * 0x1_0000 + low) % 0x1_0000 == low
    ensures high * 0x1_0000 + low < 0x1_0000_0000 && low % 0x1_0000 == low
  {
  }

  class Driver {
    const slots: array<Slot>
    const screen: array<byte>
    var head: int
    ghost var order: seq<int>

    ghost function Snapshot(): Pool
      reads this, slots, screen
    {
      Pool(slots[..], head, order, screen[..])
    }

    ghost predicate Linked()
      reads this, slots, screen
    {
      ListOk(Snapshot())
    }

    /** The slots outside the list are free; there may be blinkers at location 0 in the list. */
    ghost predicate Sound()
      reads this, slots, screen
    {
      PoolOk(Snapshot())
    }

    /** The allocator agrees with the list. */
    ghost predicate Valid()
      reads this, slots, screen
      ensures Valid() ==> Sound()
    {
      Linked() && PoolAgrees(slots[..], order)
    }

    ghost function View(): State
      reads this, slots, screen
      requires Linked()
    {
      Listed(Snapshot())
    }

    constructor (screen: array<byte>)
      requires screen.Length == SCREEN_BYTES
      ensures Valid() && fresh(slots) && this.screen == screen && View() == State([], screen[..])
    {
      this.screen := screen;
      slots := new Slot[LOCATIONS](_ => ZEROED);
      head := NULL;
      order := [];
    }

    /** The first slot with location 0, or NULL. */
    method Malloc() returns (node: int)
      requires slots.Length == LOCATIONS
      ensures node == NULL ==> forall k :: 0 <= k < LOCATIONS ==> slots[k].b.location != 0
      ensures node != NULL ==> 0 <= node < LOCATIONS && slots[node].b.location == 0
      ensures node != NULL ==> forall k :: 0 <= k < node ==> slots[k].b.location != 0
    {
      var i := 0;
      while i < LOCATIONS
        invariant 0 <= i <= LOCATIONS && forall k :: 0 <= k < i ==> slots[k].b.location != 0
      {
        if slots[i].b.location == 0 { return i; }
        i := i + 1;
      }
      return NULL;
    }

    /** The newest node at a location, or NULL. */
    method FindHelper(location: word) returns (node: int)
      requires Linked()
      ensures node == Node(order, Find(View().list, location, 0))
    {
      node := head;
      ghost var i := 0;
      ghost var list := View().list;
      while node != NULL
        invariant 0 <= i <= |order| && node == Node(order, i)
        invariant Find(list, location, i) == Find(list, location, 0)
        decreases |order| - i
      {
        if slots[node].b.location == location { return; }
        assert LinkAt(slots[..], order, i);
        node := slots[node].next;
        i := i + 1;
      }
    }

    /** Copies a request into a slot with location 0 and puts it at the front of the list. */
    method AddBlinker(request: Blinker) returns (status: int)
      requires slots.Length == LOCATIONS && screen.Length == SCREEN_BYTES
      modifies this, slots, screen
      ensures (slots[..], head, status) == Added(old(slots[..]), old(head), request)
      ensures screen[..] == if status == 0 then Poke(old(screen[..]), request.location, request.onChar)
              else old(screen[..])
      ensures old(Linked()) ==> (Endless(slots[..], head) <==> old(Loops(Snapshot(), Add(request))))
      ensures old(Linked()) && !old(Loops(Snapshot(), Add(request))) ==>
                Snapshot() == PoolStep(old(Snapshot()), Add(request))
      ensures old(Sound()) && !old(Loops(Snapshot(), Add(request))) ==>
                Sound() && (View(), status) == Step(old(View()), Add(request))
      ensures old(Valid()) ==> Linked() && (Valid() <==> !(status == 0 && request.location == 0))
    {
      ghost var p := Snapshot();
      if ListOk(p) { AddEndless(p.slots, p.head, p.order, request); }
      if PoolOk(p) { AddStep(p, request); }
      if Valid() { AddAgrees(p, request); }
      if request.location >= LOCATIONS { return -1; }
      var b := Fresh(request);
      var node := Malloc();
      if node == NULL { return -1; }
      FirstFreeSlotIs(slots[..], 0, node);
      slots[node] := Slot(b, head);
      head := node;
      order := [node] + order;
      screen[2 * request.location] := request.onChar;
      return 0;
    }

    /** Takes the newest node at a location out of the list and frees its slot. */
    method RemoveBlinker(arg: nat) returns (status: int)
      requires Linked()
      modifies this, slots
      ensures Snapshot() == PoolStep(old(Snapshot()), Remove(arg % 0x1_0000))
      ensures Linked() && (View(), status) == Step(old(View()), Remove(arg % 0x1_0000))
      ensures old(PoolAgrees(slots[..], order)) ==> PoolAgrees(slots[..], order)
    {
      var node := FindHelper(arg % 0x1_0000);
      if node == NULL { return -1; }
      ghost var n := Find(View().list, arg % 0x1_0000, 0);
      RemoveKeeps(slots[..], head, order, n);
      Unlink(node, n);
      return 0;
    }

    /** Leads the link that points to the node past it and clears the node's slot. */
    method Unlink(node: int, ghost n: nat)
      requires IsList(slots[..], head, order) && n < |order| && node == order[n]
      modifies this, slots
      ensures slots[..] == Unlinked(old(slots[..]), old(order), n) && order == Without(old(order), n)
      ensures head == if n == 0 then old(slots[order[0]].next) else old(head)
    {
      var prev := PreviousOf(node, n);
      if prev == NULL {
        head := slots[node].next;
      } else {
        slots[prev] := slots[prev].(next := slots[node].next);
      }
      slots[node] := ZEROED;
      order := Without(order, n);
    }

    /** The slot whose link points to the node, or NULL if that is the head of the list. */
    method PreviousOf(node: int, ghost n: nat) returns (prev: int)
      requires IsList(slots[..], head, order) && n < |order| && node == order[n]
      ensures prev == if n == 0 then NULL else order[n - 1]
    {
      prev := NULL;
      var link := head;
      ghost var i := 0;
      while link != node
        invariant 0 <= i <= n && prev == (if i == 0 then NULL else order[i - 1]) && link == order[i]
        decreases n - i
      {
        assert LinkAt(slots[..], order, i);
        prev := link;
        link := slots[prev].next;
        i := i + 1;
      }
    }

    /** Gives the blinker at one location the times and the state of the blinker at another. */
    method SyncBlinkers(arg: nat) returns (status: int)
      requires Linked() && arg < 0x1_0000_0000
      modifies slots, screen
      ensures Snapshot() == PoolStep(old(Snapshot()), Sync(arg / 0x1_0000, arg % 0x1_0000))
      ensures Linked() && (View(), status) == Step(old(View()), Sync(arg / 0x1_0000, arg % 0x1_0000))
      ensures old(PoolAgrees(slots[..], order)) ==> PoolAgrees(slots[..], order)
    {
      var from := FindHelper(arg / 0x1_0000);
      if from == NULL { return -1; }
      var to := FindHelper(arg % 0x1_0000);
      if to == NULL { return -1; }
      ghost var j := Find(View().list, arg % 0x1_0000, 0);
      slots[to] := slots[to].(b := Synced(slots[from].b, slots[to].b));
      screen[2 * slots[to].b.location] := slots[to].b.offChar;
      ChangeKeeps(old(slots[..]), head, order, j, slots[to].b);
      return 0;
    }

    /** A copy of the newest blinker at a location. */
    method FindBlinker(location: word) returns (status: int, b: Blinker)
      requires Linked()
      ensures var i := Find(View().list, location, 0);
              if i == |View().list| then status == -1 else status == 0 && b == View().list[i]
    {
      var node := FindHelper(location);
      if node == NULL { return -1, ZEROED.b; }
      return 0, slots[node].b;
    }

    /** One node's turn: it counts down, and if it has run out it changes its face. */
    method TickNode(node: int)
      requires slots.Length == LOCATIONS && screen.Length == SCREEN_BYTES && 0 <= node < LOCATIONS
      requires slots[node].b.location < LOCATIONS
      modifies slots, screen
      ensures forall k :: 0 <= k < LOCATIONS && k != node ==> slots[k] == old(slots[k])
      ensures slots[node] == old(slots[node]).(b := Ticked(old(slots[node].b)))
      ensures var b := old(slots[node].b);
              screen[..] == if Toggles(b) then Poke(old(screen[..]), b.location, Face(Ticked(b))) else old(screen[..])
    {
      var b := slots[node].b;
      b := b.(countdown := Decremented(b.countdown));
      if RunOut(b.countdown) {
        var face := if b.on then b.offChar else b.onChar;
        screen[2 * b.location] := face;
        b := b.(countdown := if b.on then b.offLength else b.onLength);
        b := b.(on := !b.on);
      }
      slots[node] := slots[node].(b := b);
    }

    /** Every node of the list has its turn. */
    method TickNodes()
      requires Linked()
      modifies slots, screen
      ensures forall i :: 0 <= i < |order| ==>
                slots[order[i]] == old(slots[order[i]]).(b := Ticked(old(slots[order[i]].b)))
      ensures forall k :: 0 <= k < LOCATIONS && k !in order ==> slots[k] == old(slots[k])
      ensures screen[..] == TickScreen(old(View()).list, 0, old(screen[..]))
    {
      var node := head;
      ghost var i, list := 0, View().list;
      while node != NULL
        invariant 0 <= i <= |order| && node == Node(order, i)
        invariant forall k :: 0 <= k < i ==>
                    slots[order[k]] == old(slots[order[k]]).(b := Ticked(old(slots[order[k]].b)))
        invariant forall k :: i <= k < |order| ==> slots[order[k]] == old(slots[order[k]])
        invariant forall k :: 0 <= k < LOCATIONS && k !in order ==> slots[k] == old(slots[k])
        invariant screen.Length == SCREEN_BYTES
        invariant TickScreen(list, i, screen[..]) == TickScreen(list, 0, old(screen[..]))
        decreases |order| - i
      {
        assert LinkAt(old(slots[..]), order, i);
        assert slots[node].b == list[i];
        TickNode(node);
        node := slots[node].next;
        i := i + 1;
      }
    }

    /** One clock tick. */
    method Tasklet()
      requires Linked()
      modifies slots, screen
      ensures Snapshot() == PoolStep(old(Snapshot()), Tick)
      ensures Linked() && View() == Step(old(View()), Tick).0
      ensures old(PoolAgrees(slots[..], order)) ==> PoolAgrees(slots[..], order)
    {
      TickStep(Snapshot());
      TickNodes();
      TickedSlotsAre(old(slots[..]), order, slots[..]);
    }

    method Perform(op: Op) returns (status: int)
      requires Sound() && !Loops(Snapshot(), op)
      modifies this, slots, screen
      ensures Sound() && Snapshot() == PoolStep(old(Snapshot()), op)
      ensures (View(), status) == Step(old(View()), op)
    {
      StepPool(Snapshot(), op);
      match op
      case Add(request) => status := AddBlinker(request);
      case Remove(location) =>
        Halves(0, location);
        status := RemoveBlinker(location);
      case Sync(from, to) =>
        Halves(from, to);
        status := SyncBlinkers(from * 0x1_0000 + to);
      case Tick => Tasklet(); status := 0;
    }

    method PerformEach(ops: seq<Op>)
      requires Sound() && !RunLoops(Snapshot(), ops)
      modifies this, slots, screen
      ensures Sound() && Snapshot() == PoolRun(old(Snapshot()), ops)
    {
      var i := 0;
      while i < |ops|
        invariant i <= |ops| && Sound() && !RunLoops(Snapshot(), ops[i..])
        invariant PoolRun(Snapshot(), ops[i..]) == PoolRun(old(Snapshot()), ops)
      {
        FirstStep(Snapshot(), ops[i..]);
        var status := Perform(ops[i]);
        assert ops[i..][1..] == ops[i + 1..];
        i := i + 1;
      }
    }

    /**
     * Over every run in which no add is handed a slot of the list, the list is
     * what Blinks.dfy says; if none is at location 0, list and allocator agree.
     */
    method PerformAll(ops: seq<Op>)
      requires Sound() && !RunLoops(Snapshot(), ops)
      modifies this, slots, screen
      ensures Sound() && Snapshot() == PoolRun(old(Snapshot()), ops) && View() == Run(old(View()), ops)
      ensures old(Valid()) && NoAddAtZero(ops) ==> Valid()
    {
      EveryPoolRun(Snapshot(), ops);
      if Valid() && NoAddAtZero(ops) { NoZeroNoLoop(Snapshot(), ops); }
      PerformEach(ops);
    }
  }
}
