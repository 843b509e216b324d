/**
 * The blinkers as fish/blink.S and fish/fish.c keep them: a linked list that
 * runs through a fixed array, in which a slot is free when its location is 0.
 * The array follows the list of Blinks.dfy until the allocator hands out a slot
 * that is in the list; then going through the list never ends.
 */
module BlinkArray {
  import opened Bytes
  import opened Collections
  import opened Blinks

  /** One element of the array; `next` is an index into it or NULL. */
  datatype Slot = Slot(b: Blinker, next: int)

  const NULL := -1
  const ZEROED := Slot(Blinker(0, 0, 0, 0, 0, 0, false), NULL)

  // ---- The list in the array ----------------------------------------------------------

  /** The i-th node of the list, or NULL after its end. */
  function Node(order: seq<int>, i: nat): int {
    if i < |order| then order[i] else NULL
  }

  predicate InArray(order: seq<int>) {
    forall i :: 0 <= i < |order| ==> 0 <= order[i] < LOCATIONS
  }

  predicate NoRepeats(order: seq<int>) {
    forall i, j :: 0 <= i < j < |order| ==> order[i] != order[j]
  }

  /** The i-th node of the list links to the next. */
  ghost predicate LinkAt(slots: seq<Slot>, order: seq<int>, i: nat)
    requires i < |order|
  {
    0 <= order[i] < |slots| && slots[order[i]].next == Node(order, i + 1)
  }

  /** Following the links from `head` visits exactly the slots in `order`, none of them twice. */
  ghost predicate IsList(slots: seq<Slot>, head: int, order: seq<int>) {
    && |slots| == LOCATIONS && InArray(order) && NoRepeats(order)
    && head == Node(order, 0)
    && (forall i :: 0 <= i < |order| ==> LinkAt(slots, order, i))
  }

  /** The slots in the list are exactly the ones that the allocator takes to be in use. */
  ghost predicate PoolAgrees(slots: seq<Slot>, order: seq<int>) {
    |slots| == LOCATIONS && forall k :: 0 <= k < LOCATIONS ==> (slots[k].b.location != 0 <==> k in order)
  }

  function Contents(slots: seq<Slot>, order: seq<int>): (list: seq<Blinker>)
    requires |slots| == LOCATIONS && InArray(order)
    ensures |list| == |order| && forall i :: 0 <= i < |list| ==> list[i] == slots[order[i]].b
  {
    seq(|order|, i requires 0 <= i < |order| => slots[order[i]].b)
  }

  lemma {:induction false} CountDistinct(order: seq<int>) returns (members: set<int>)
    requires NoRepeats(order)
    ensures |members| == |order| && forall k :: k in members <==> k in order
  {
    if order == [] {
      members := {};
    } else {
      var last := |order| - 1;
      var rest := CountDistinct(order[..last]);
      assert order[last] !in order[..last];
      members := rest + {order[last]};
      forall k ensures k in members <==> k in order { assert k in order <==> k in order[..last] || k == order[last]; }
    }
  }

  lemma {:induction false} CountRange(n: nat) returns (range: set<int>)
    ensures |range| == n && forall k :: k in range <==> 0 <= k < n
  {
    if n == 0 {
      range := {};
    } else {
      range := CountRange(n - 1);
      range := range + {n - 1};
    }
  }

  /** The list fills the array exactly when no slot is left out of it. */
  lemma FullIsAll(order: seq<int>)
    requires InArray(order) && NoRepeats(order)
    ensures |order| <= LOCATIONS
    ensures |order| == LOCATIONS <==> forall k :: 0 <= k < LOCATIONS ==> k in order
  {
    var members := CountDistinct(order);
    var range := CountRange(LOCATIONS);
    forall k | k in members ensures k in range {
      var i :| 0 <= i < |order| && order[i] == k;
    }
    SubsetCount(members, range);
    if forall k :: 0 <= k < LOCATIONS ==> k in order {
      forall k | k in range ensures k in members {}
      assert members == range;
    }
  }

  /** A slot outside the list put at its front. */
  lemma AddKeeps(slots: seq<Slot>, head: int, order: seq<int>, node: int, b: Blinker)
    requires IsList(slots, head, order) && 0 <= node < LOCATIONS && forall i :: 0 <= i < |order| ==> order[i] != node
    ensures IsList(slots[node := Slot(b, head)], node, [node] + order)
    ensures Contents(slots[node := Slot(b, head)], [node] + order) == [b] + Contents(slots, order)
  {
    var slots', order' := slots[node := Slot(b, head)], [node] + order;
    forall i | 0 <= i < |order'| ensures LinkAt(slots', order', i) {
      if i > 0 { assert LinkAt(slots, order, i - 1); }
    }
  }

  /** A slot that the allocator takes to be free is not in the list. */
  lemma FreeNotListed(slots: seq<Slot>, order: seq<int>, node: int)
    requires PoolAgrees(slots, order) && 0 <= node < LOCATIONS && slots[node].b.location == 0
    ensures forall i :: 0 <= i < |order| ==> order[i] != node
  {
    assert node !in order;
  }

  /** The allocator still agrees with the list unless the new node's location is 0. */
  lemma AddPool(slots: seq<Slot>, head: int, order: seq<int>, node: int, b: Blinker)
    requires PoolAgrees(slots, order) && 0 <= node < LOCATIONS
    ensures PoolAgrees(slots[node := Slot(b, head)], [node] + order) <==> b.location != 0
  {
    var slots', order' := slots[node := Slot(b, head)], [node] + order;
    assert slots'[node].b == b && node in order';
    forall k | 0 <= k < LOCATIONS ensures k in order' <==> k == node || k in order {}
  }

  /** A node taken out of the list. */
  function Unlinked(slots: seq<Slot>, order: seq<int>, n: nat): (r: seq<Slot>)
    requires |slots| == LOCATIONS && InArray(order) && n < |order|
    ensures |r| == LOCATIONS
  {
    var bridged := if n == 0 then slots else slots[order[n - 1] := slots[order[n - 1]].(next := slots[order[n]].next)];
    bridged[order[n] := ZEROED]
  }

  lemma RemoveLinks(slots: seq<Slot>, head: int, order: seq<int>, n: nat)
    requires IsList(slots, head, order) && n < |order|
    ensures IsList(Unlinked(slots, order, n), if n == 0 then slots[order[0]].next else head, Without(order, n))
  {
    var slots', order' := Unlinked(slots, order, n), Without(order, n);
    assert LinkAt(slots, order, n);
    forall i | 0 <= i < |order'| ensures LinkAt(slots', order', i) {
      var j := if i < n then i else i + 1;
      assert order'[i] == order[j] && LinkAt(slots, order, j);
    }
  }

  lemma RemovePool(slots: seq<Slot>, order: seq<int>, n: nat)
    requires |slots| == LOCATIONS && InArray(order) && NoRepeats(order) && n < |order|
    requires PoolAgrees(slots, order)
    ensures PoolAgrees(Unlinked(slots, order, n), Without(order, n))
  {
    var slots', order' := Unlinked(slots, order, n), Without(order, n);
    forall k | 0 <= k < LOCATIONS ensures k in order' <==> k in order && k != order[n] {
      if k in order && k != order[n] {
        var i :| 0 <= i < |order| && order[i] == k;
        assert order'[if i < n then i else i - 1] == k;
      }
      if k in order' {
        var i :| 0 <= i < |order'| && order'[i] == k;
        assert order[if i < n then i else i + 1] == k;
      }
    }
    forall k | 0 <= k < LOCATIONS && k != order[n] ensures slots'[k].b == slots[k].b {}
  }

  lemma RemoveContents(slots: seq<Slot>, order: seq<int>, n: nat)
    requires |slots| == LOCATIONS && InArray(order) && NoRepeats(order) && n < |order|
    ensures InArray(Without(order, n))
    ensures Contents(Unlinked(slots, order, n), Without(order, n)) == Without(Contents(slots, order), n)
  {
    var slots', order' := Unlinked(slots, order, n), Without(order, n);
    forall k | 0 <= k < LOCATIONS && k != order[n] ensures slots'[k].b == slots[k].b {}
  }

  lemma RemoveKeeps(slots: seq<Slot>, head: int, order: seq<int>, n: nat)
    requires IsList(slots, head, order) && n < |order|
    ensures var slots', order' := Unlinked(slots, order, n), Without(order, n);
            && IsList(slots', if n == 0 then slots[order[0]].next else head, order')
            && Contents(slots', order') == Without(Contents(slots, order), n)
            && (PoolAgrees(slots, order) ==> PoolAgrees(slots', order'))
  {
    RemoveLinks(slots, head, order, n);
    RemoveContents(slots, order, n);
    if PoolAgrees(slots, order) { RemovePool(slots, order, n); }
  }

  /** A node's blinker changed in place, at the same location. */
  lemma ChangeKeeps(slots: seq<Slot>, head: int, order: seq<int>, j: nat, b: Blinker)
    requires IsList(slots, head, order) && j < |order| && b.location == slots[order[j]].b.location
    ensures var slots' := slots[order[j] := slots[order[j]].(b := b)];
            && IsList(slots', head, order)
            && Contents(slots', order) == Contents(slots, order)[j := b]
            && (PoolAgrees(slots, order) ==> PoolAgrees(slots', order))
  {
    var slots' := slots[order[j] := slots[order[j]].(b := b)];
    forall i | 0 <= i < |order| ensures LinkAt(slots', order, i) { assert LinkAt(slots, order, i); }
  }

  // ---- Adding to the array as it is -----------------------------------------------------

  /** The first slot from `i` on whose location is 0, or the size of the array. */
  function FirstFreeSlot(slots: seq<Slot>, i: nat): (j: nat)
    requires i <= |slots|
    ensures i <= j <= |slots| && (j < |slots| ==> slots[j].b.location == 0)
    ensures forall k :: i <= k < j ==> slots[k].b.location != 0
    decreases |slots| - i
  {
    if i == |slots| || slots[i].b.location == 0 then i else FirstFreeSlot(slots, i + 1)
  }

  /** The array, the head of the list and the status after an add, whether or not the allocator agrees with the list. */
  function Added(slots: seq<Slot>, head: int, request: Blinker): (r: (seq<Slot>, int, int))
    requires |slots| == LOCATIONS
    ensures |r.0| == LOCATIONS
  {
    var node := FirstFreeSlot(slots, 0);
    if request.location >= LOCATIONS || node == LOCATIONS then (slots, head, -1)
    else (slots[node := Slot(Fresh(request), head)], node, 0)
  }

  /** The n-th node that following the links from the head meets, or NULL once the end is reached. */
  function Follow(slots: seq<Slot>, head: int, n: nat): int
    requires |slots| == LOCATIONS
  {
    if n == 0 then head
    else
      var node := Follow(slots, head, n - 1);
      if 0 <= node < LOCATIONS then slots[node].next else NULL
  }

  /** Going through the list, as every tick does, never ends. */
  ghost predicate Endless(slots: seq<Slot>, head: int)
    requires |slots| == LOCATIONS
  {
    forall n: nat :: Follow(slots, head, n) != NULL
  }

  lemma {:induction false} FollowList(slots: seq<Slot>, head: int, order: seq<int>, n: nat)
    requires IsList(slots, head, order) && n <= |order|
    ensures Follow(slots, head, n) == Node(order, n)
  {
    if n > 0 {
      FollowList(slots, head, order, n - 1);
      assert LinkAt(slots, order, n - 1);
    }
  }

  lemma ListEnds(slots: seq<Slot>, head: int, order: seq<int>)
    requires IsList(slots, head, order)
    ensures !Endless(slots, head)
  {
    FollowList(slots, head, order, |order|);
  }

  /** A node of the list that is made to link to its head: from there the links lead round and round. */
  lemma {:induction false} LoopStays(slots: seq<Slot>, head: int, order: seq<int>, j: nat, b: Blinker, n: nat)
    returns (k: nat)
    requires IsList(slots, head, order) && j < |order|
    ensures k <= j && Follow(slots[order[j] := Slot(b, head)], order[j], n) == order[k]
  {
    if n == 0 {
      k := j;
    } else {
      k := LoopStays(slots, head, order, j, b, n - 1);
      assert LinkAt(slots, order, k);
      k := if k == j then 0 else k + 1;
    }
  }

  /** An add makes the list endless exactly when the slot that the allocator hands out is in it. */
  lemma AddEndless(slots: seq<Slot>, head: int, order: seq<int>, request: Blinker)
    requires IsList(slots, head, order)
    ensures var (slots', head', status) := Added(slots, head, request);
            Endless(slots', head') <==> status == 0 && FirstFreeSlot(slots, 0) in order
  {
    var node := FirstFreeSlot(slots, 0);
    var (slots', head', status) := Added(slots, head, request);
    if status == -1 {
      ListEnds(slots, head, order);
    } else if node in order {
      var j :| 0 <= j < |order| && order[j] == node;
      forall n: nat ensures Follow(slots', head', n) != NULL {
        var k := LoopStays(slots, head, order, j, Fresh(request), n);
      }
    } else {
      AddKeeps(slots, head, order, node, Fresh(request));
      ListEnds(slots', head', [node] + order);
    }
  }

  lemma {:induction false} FirstFreeSlotIs(slots: seq<Slot>, i: nat, j: nat)
    requires i <= j < |slots| && slots[j].b.location == 0 && forall k :: i <= k < j ==> slots[k].b.location != 0
    ensures FirstFreeSlot(slots, i) == j
    decreases j - i
  {
    if i < j { FirstFreeSlotIs(slots, i + 1, j); }
  }

  /**
   * Two adds in a row, while list and allocator agree: going through the list
   * never ends exactly when the first succeeded at location 0 and the second is
   * on the screen. The second then gets the slot of the first, which is the
   * head, and makes it its own successor.
   */
  lemma AddAtZeroLoops(slots: seq<Slot>, head: int, order: seq<int>, first: Blinker, second: Blinker)
    requires IsList(slots, head, order) && PoolAgrees(slots, order)
    ensures var (slots1, head1, status1) := Added(slots, head, first);
            var (slots2, head2, status2) := Added(slots1, head1, second);
            var looped := status1 == 0 && first.location == 0 && second.location < LOCATIONS;
            (Endless(slots2, head2) <==> looped) && (looped ==> head2 == head1 && slots2[head2].next == head2)
  {
    var node := FirstFreeSlot(slots, 0);
    var (slots1, head1, status1) := Added(slots, head, first);
    if status1 == 0 {
      FreeNotListed(slots, order, node);
      AddKeeps(slots, head, order, node, Fresh(first));
      AddPool(slots, head, order, node, Fresh(first));
      var order1 := [node] + order;
      AddEndless(slots1, head1, order1, second);
      if first.location == 0 {
        FirstFreeSlotIs(slots1, 0, node);
        assert order1[0] == node;
      } else {
        NextNotListed(slots1, order1);
      }
    } else {
      AddEndless(slots, head, order, second);
      NextNotListed(slots, order);
    }
  }

  lemma NextNotListed(slots: seq<Slot>, order: seq<int>)
    requires PoolAgrees(slots, order) && InArray(order)
    ensures FirstFreeSlot(slots, 0) !in order
  {
    var node := FirstFreeSlot(slots, 0);
    if node < LOCATIONS { FreeNotListed(slots, order, node); }
  }

  // ---- Whole runs ---------------------------------------------------------------------

  /** The array, its list and the screen; or an array whose list has become endless. */
  datatype Pool =
    | Pool(slots: seq<Slot>, head: int, order: seq<int>, screen: seq<byte>)
    | Looped(slots: seq<Slot>, head: int)

  /** The state of Blinks.dfy that a pool stands for. */
  function Listed(p: Pool): State
    requires p.Pool? && |p.slots| == LOCATIONS && InArray(p.order)
  {
    State(Contents(p.slots, p.order), p.screen)
  }

  ghost predicate ListOk(p: Pool) {
    p.Pool? && IsList(p.slots, p.head, p.order) && StateOk(Listed(p))
  }

  /** A slot outside the list is free to the allocator; one in the list may be as well. */
  ghost predicate Spare(slots: seq<Slot>, order: seq<int>) {
    |slots| == LOCATIONS && forall k :: 0 <= k < LOCATIONS && k !in order ==> slots[k].b.location == 0
  }

  ghost predicate PoolOk(p: Pool) {
    ListOk(p) && Spare(p.slots, p.order)
  }

  /** Every blinker in the list has had a tick. */
  function TickedSlots(slots: seq<Slot>, order: seq<int>): (r: seq<Slot>)
    requires |slots| == LOCATIONS
    ensures |r| == LOCATIONS
    ensures forall k :: 0 <= k < LOCATIONS ==>
              r[k] == if k in order then slots[k].(b := Ticked(slots[k].b)) else slots[k]
  {
    seq(LOCATIONS, k requires 0 <= k < LOCATIONS =>
      if k in order then slots[k].(b := Ticked(slots[k].b)) else slots[k])
  }

  ghost function PoolStep(p: Pool, op: Op): Pool
    requires ListOk(p)
  {
    var list := Listed(p).list;
    match op
    case Add(request) =>
      var (slots, head, status) := Added(p.slots, p.head, request);
      if status == -1 then p
      else if Endless(slots, head) then Looped(slots, head)
      else Pool(slots, head, [head] + p.order, Poke(p.screen, request.location, request.onChar))
    case Remove(location) =>
      var i := Find(list, location, 0);
      if i == |list| then p
      else Pool(Unlinked(p.slots, p.order, i), if i == 0 then p.slots[p.order[0]].next else p.head,
                Without(p.order, i), p.screen)
    case Sync(from, to) =>
      var i, j := Find(list, from, 0), Find(list, to, 0);
      if i == |list| || j == |list| then p
      else
        var node := p.order[j];
        p.(slots := p.slots[node := p.slots[node].(b := Synced(list[i], list[j]))],
           screen := Poke(p.screen, to, list[j].offChar))
    case Tick =>
      p.(slots := TickedSlots(p.slots, p.order), screen := TickScreen(list, 0, p.screen))
  }

  /**
   * The step is an add on the screen, and the first slot with location 0 is in
   * the list: a blinker at location 0 stands there, and no slot before it is free.
   */
  predicate Loops(p: Pool, op: Op)
    requires p.Pool?
  {
    op.Add? && op.request.location < LOCATIONS && FirstFreeSlot(p.slots, 0) in p.order
  }

  lemma AddStep(p: Pool, request: Blinker)
    requires PoolOk(p)
    ensures var p' := PoolStep(p, Add(request));
            if Loops(p, Add(request)) then p'.Looped?
            else PoolOk(p') && Listed(p') == Step(Listed(p), Add(request)).0
  {
    AddEndless(p.slots, p.head, p.order, request);
    var node := FirstFreeSlot(p.slots, 0);
    FullIsAll(p.order);
    if node == LOCATIONS {
      forall k | 0 <= k < LOCATIONS ensures k in p.order {}
    } else if node !in p.order {
      AddKeeps(p.slots, p.head, p.order, node, Fresh(request));
      forall k ensures k in [node] + p.order <==> k == node || k in p.order {}
    }
  }

  lemma RemoveSpare(slots: seq<Slot>, order: seq<int>, n: nat)
    requires |slots| == LOCATIONS && InArray(order) && Spare(slots, order) && n < |order|
    ensures Spare(Unlinked(slots, order, n), Without(order, n))
  {
    var slots', order' := Unlinked(slots, order, n), Without(order, n);
    forall k | k in order && k != order[n] ensures k in order' {
      var i :| 0 <= i < |order| && order[i] == k;
      assert order'[if i < n then i else i - 1] == k;
    }
  }

  lemma RemoveStep(p: Pool, location: word)
    requires PoolOk(p)
    ensures var p' := PoolStep(p, Remove(location));
            PoolOk(p') && Listed(p') == Step(Listed(p), Remove(location)).0
  {
    var i := Find(Listed(p).list, location, 0);
    if i < |p.order| {
      RemoveKeeps(p.slots, p.head, p.order, i);
      RemoveSpare(p.slots, p.order, i);
    }
  }

  lemma SyncStep(p: Pool, from: word, to: word)
    requires PoolOk(p)
    ensures var p' := PoolStep(p, Sync(from, to));
            PoolOk(p') && Listed(p') == Step(Listed(p), Sync(from, to)).0
  {
    var list := Listed(p).list;
    var i, j := Find(list, from, 0), Find(list, to, 0);
    if i < |list| && j < |list| { ChangeKeeps(p.slots, p.head, p.order, j, Synced(list[i], list[j])); }
  }

  lemma TickedSlotsAre(slots: seq<Slot>, order: seq<int>, slots': seq<Slot>)
    requires |slots| == |slots'| == LOCATIONS && InArray(order)
    requires forall i :: 0 <= i < |order| ==> slots'[order[i]] == slots[order[i]].(b := Ticked(slots[order[i]].b))
    requires forall k :: 0 <= k < LOCATIONS && k !in order ==> slots'[k] == slots[k]
    ensures slots' == TickedSlots(slots, order)
  {
  }

  lemma TickStep(p: Pool)
    requires ListOk(p)
    ensures var p' := PoolStep(p, Tick);
            && ListOk(p') && Listed(p') == Step(Listed(p), Tick).0
            && (Spare(p.slots, p.order) ==> Spare(p'.slots, p'.order))
            && (PoolAgrees(p.slots, p.order) ==> PoolAgrees(p'.slots, p'.order))
  {
    var p' := PoolStep(p, Tick);
    forall i | 0 <= i < |p.order| ensures LinkAt(p'.slots, p.order, i) { assert LinkAt(p.slots, p.order, i); }
    assert Contents(p'.slots, p.order) == TickList(Listed(p).list);
  }

  /** A step of the array is the step of the list, exactly as long as no add is handed a slot of the list. */
  lemma StepPool(p: Pool, op: Op)
    requires PoolOk(p)
    ensures var p' := PoolStep(p, op);
            if Loops(p, op) then p'.Looped? else PoolOk(p') && Listed(p') == Step(Listed(p), op).0
  {
    match op
    case Add(request) => AddStep(p, request);
    case Remove(location) => RemoveStep(p, location);
    case Sync(from, to) => SyncStep(p, from, to);
    case Tick => TickStep(p);
  }

  /** The array after a run, or at the moment at which its list has become endless. */
  ghost function PoolRun(p: Pool, ops: seq<Op>): Pool
    requires p.Pool? ==> PoolOk(p)
    decreases |ops|
  {
    if ops == [] || p.Looped? then p
    else
      StepPool(p, ops[0]);
      PoolRun(PoolStep(p, ops[0]), ops[1..])
  }

  /** At some step of the run an add is handed a slot of the list. */
  ghost predicate RunLoops(p: Pool, ops: seq<Op>)
    requires PoolOk(p)
    decreases |ops|
  {
    && ops != []
    && (Loops(p, ops[0]) || (StepPool(p, ops[0]); RunLoops(PoolStep(p, ops[0]), ops[1..])))
  }

  /**
   * Over every run of add, remove, sync and tick, adds at location 0 included:
   * the list becomes endless exactly when an add is handed a slot of the list,
   * and until then the array holds the list of Blinks.dfy.
   */
  lemma {:induction false} EveryPoolRun(p: Pool, ops: seq<Op>)
    requires PoolOk(p)
    ensures var p' := PoolRun(p, ops);
            && (p'.Looped? <==> RunLoops(p, ops))
            && |p'.slots| == LOCATIONS && (p'.Looped? <==> Endless(p'.slots, p'.head))
            && (p'.Pool? ==> PoolOk(p') && Listed(p') == Run(Listed(p), ops))
    decreases |ops|
  {
    if ops == [] {
      ListEnds(p.slots, p.head, p.order);
    } else {
      StepPool(p, ops[0]);
      if !Loops(p, ops[0]) { EveryPoolRun(PoolStep(p, ops[0]), ops[1..]); }
    }
  }

  /** The first step of a run that does not loop. */
  lemma FirstStep(p: Pool, ops: seq<Op>)
    requires PoolOk(p) && ops != [] && !RunLoops(p, ops)
    ensures var p' := PoolStep(p, ops[0]);
            && !Loops(p, ops[0]) && PoolOk(p') && !RunLoops(p', ops[1..]) && PoolRun(p, ops) == PoolRun(p', ops[1..])
  {
    StepPool(p, ops[0]);
  }

  lemma {:induction false} OnlyAddsLoop(p: Pool, ops: seq<Op>)
    requires PoolOk(p) && forall i :: 0 <= i < |ops| ==> !ops[i].Add?
    ensures !RunLoops(p, ops)
    decreases |ops|
  {
    if ops != [] {
      StepPool(p, ops[0]);
      OnlyAddsLoop(PoolStep(p, ops[0]), ops[1..]);
    }
  }

  predicate NoAddAtZero(ops: seq<Op>) {
    forall i :: 0 <= i < |ops| && ops[i].Add? ==> ops[i].request.location != 0
  }

  lemma AddAgrees(p: Pool, request: Blinker)
    requires PoolOk(p) && PoolAgrees(p.slots, p.order)
    ensures !Loops(p, Add(request)) && PoolOk(PoolStep(p, Add(request)))
    ensures var p' := PoolStep(p, Add(request));
            PoolAgrees(p'.slots, p'.order) <==> p' == p || request.location != 0
  {
    NextNotListed(p.slots, p.order);
    AddStep(p, request);
    var node := FirstFreeSlot(p.slots, 0);
    if node < LOCATIONS { AddPool(p.slots, p.head, p.order, node, Fresh(request)); }
  }

  lemma StepAgrees(p: Pool, op: Op)
    requires PoolOk(p) && PoolAgrees(p.slots, p.order)
    ensures !Loops(p, op)
    ensures !(op.Add? && op.request.location == 0) ==>
              var p' := PoolStep(p, op); p'.Pool? && PoolAgrees(p'.slots, p'.order)
  {
    StepPool(p, op);
    match op
    case Add(request) =>
      AddAgrees(p, request);
    case Remove(location) =>
      var i := Find(Listed(p).list, location, 0);
      if i < |p.order| { RemovePool(p.slots, p.order, i); }
    case Sync(from, to) =>
    case Tick =>
  }

  /** A run that never adds at location 0 does not loop, and list and allocator agree all along. */
  lemma {:induction false} NoZeroNoLoop(p: Pool, ops: seq<Op>)
    requires PoolOk(p) && PoolAgrees(p.slots, p.order) && NoAddAtZero(ops)
    ensures !RunLoops(p, ops)
    ensures var p' := PoolRun(p, ops); p'.Pool? && PoolAgrees(p'.slots, p'.order)
    decreases |ops|
  {
    if ops != [] {
      StepAgrees(p, ops[0]);
      StepPool(p, ops[0]);
      NoZeroNoLoop(PoolStep(p, ops[0]), ops[1..]);
    }
  }

  /** A list that is endless stays so, whichever slot a further add is handed. */
  lemma {:induction false} EndlessPath(slots: seq<Slot>, head: int, node: int, b: Blinker, n: nat) returns (k: nat)
    requires |slots| == LOCATIONS && Endless(slots, head) && 0 <= node < LOCATIONS
    ensures var at := Follow(slots[node := Slot(b, head)], node, n); at == node || at == Follow(slots, head, k)
  {
    k := 0;
    if n > 0 {
      k := EndlessPath(slots, head, node, b, n - 1);
      if Follow(slots[node := Slot(b, head)], node, n - 1) == node {
        k := 0;
      } else {
        assert Follow(slots, head, k + 1) != NULL;
        k := k + 1;
      }
    }
  }

  lemma StaysEndless(slots: seq<Slot>, head: int, request: Blinker)
    requires |slots| == LOCATIONS && Endless(slots, head)
    ensures var (slots', head', status) := Added(slots, head, request); Endless(slots', head')
  {
    var node := FirstFreeSlot(slots, 0);
    var (slots', head', status) := Added(slots, head, request);
    if status == 0 {
      forall n: nat ensures Follow(slots', head', n) != NULL {
        var k := EndlessPath(slots, head, node, Fresh(request), n);
      }
    }
  }
}
