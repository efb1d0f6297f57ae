/** The lock-free ring buffer as a state machine: one producer running rb_push, one
    consumer running rb_pop and one observer running rb_size, interleaved at every
    atomic load, store and copied cell. The fields from `pushed` on are history. */
module RingMachine {
  import opened Wrappers
  import opened Words

  // An item is slotSize cells; memcpy moves one cell per step.
  type Item<C> = seq<C>

  datatype Producer<C> =
    | PIdle
    | PLoadHead(item: Item<C>)
    | PLoadTail(item: Item<C>, h: nat)
    // `popsSeen`: items already popped when tail was loaded
    | PTest(item: Item<C>, h: nat, t: nat, popsSeen: nat)
    | PCopy(item: Item<C>, h: nat, copied: nat)
    | PDone(accepted: bool)

  datatype Consumer<C> =
    | CIdle
    | CLoadTail
    | CLoadHead(t: nat)
    // `pushesSeen`: items already pushed when head was loaded
    | CTest(t: nat, h: nat, pushesSeen: nat)
    | CCopy(t: nat, out: Item<C>)
    | CDone(result: Option<Item<C>>)

  datatype Observer =
    | OIdle
    | OLoadTail(h: nat, pushesSeen: nat)
    | ODone(size: nat, pushesSeen: nat, popsSeen: nat)

  datatype Ring<C> = Ring(
    cap: nat,
    slotSize: nat,
    slots: seq<Item<C>>,
    head: nat,
    tail: nat,
    overflow: nat,
    prod: Producer<C>,
    cons: Consumer<C>,
    obs: Observer,
    fault: bool,             // an access outside `slots` or outside a slot
    pushed: seq<Item<C>>,    // items accepted so far
    popped: seq<Item<C>>,    // items handed out so far, as copied out
    refusedAt: seq<nat>,     // per refused push: occupancy when tail was loaded
    emptyAt: seq<nat>        // per failed pop: items pushed when head was loaded
  )

  // rb_init.
  ghost predicate Init<C>(r: Ring<C>) {
    && IsCapacity(r.cap) && r.slotSize >= 1
    && |r.slots| == r.cap && (forall k :: 0 <= k < r.cap ==> |r.slots[k]| == r.slotSize)
    && r.head == 0 && r.tail == 0 && r.overflow == 0
    && r.prod == PIdle && r.cons == CIdle && r.obs == OIdle && !r.fault
    && r.pushed == [] && r.popped == [] && r.refusedAt == [] && r.emptyAt == []
  }

  function Slot<C>(r: Ring<C>, counter: nat): nat {
    if r.cap == 0 then 0 else BitAnd(counter, r.cap - 1)
  }

  predicate ProducerActive<C>(r: Ring<C>) { !r.prod.PIdle? && !r.prod.PDone? }

  predicate ConsumerActive<C>(r: Ring<C>) { !r.cons.CIdle? && !r.cons.CDone? }

  // The next atomic step of rb_push.
  function ProducerNext<C>(r: Ring<C>): Ring<C>
    requires ProducerActive(r)
  {
    match r.prod
    case PLoadHead(x) => r.(prod := PLoadTail(x, r.head))
    case PLoadTail(x, h) => r.(prod := PTest(x, h, r.tail, |r.popped|))
    case PTest(x, h, t, seen) =>
      if (h - t) % WORD >= r.cap then
        var occupancy := if |r.pushed| >= seen then |r.pushed| - seen else 0;
        r.(overflow := WrapInc(r.overflow), refusedAt := r.refusedAt + [occupancy], prod := PDone(false))
      else
        r.(prod := PCopy(x, h, 0))
    case PCopy(x, h, i) =>
      if i < r.slotSize then
        var k := Slot(r, h);
        if k < |r.slots| && i < |r.slots[k]| && i < |x| then
          r.(slots := r.slots[k := r.slots[k][i := x[i]]], prod := PCopy(x, h, i + 1))
        else
          r.(fault := true)
      else
        r.(head := WrapInc(h), pushed := r.pushed + [x], prod := PDone(true))
  }

  // The next atomic step of rb_pop.
  function ConsumerNext<C>(r: Ring<C>): Ring<C>
    requires ConsumerActive(r)
  {
    match r.cons
    case CLoadTail => r.(cons := CLoadHead(r.tail))
    case CLoadHead(t) => r.(cons := CTest(t, r.head, |r.pushed|))
    case CTest(t, h, seen) =>
      if t == h then
        r.(emptyAt := r.emptyAt + [seen], cons := CDone(None))
      else
        r.(cons := CCopy(t, []))
    case CCopy(t, out) =>
      var i := |out|;
      if i < r.slotSize then
        var k := Slot(r, t);
        if k < |r.slots| && i < |r.slots[k]| then
          r.(cons := CCopy(t, out + [r.slots[k][i]]))
        else
          r.(fault := true)
      else
        r.(tail := WrapInc(t), popped := r.popped + [out], cons := CDone(Some(out)))
  }

  // The next atomic step of rb_size.
  function ObserverNext<C>(r: Ring<C>): Ring<C> {
    match r.obs
    case OIdle => r.(obs := OLoadTail(r.head, |r.pushed|))
    case OLoadTail(h, seen) => r.(obs := ODone((h - r.tail) % WORD, seen, |r.popped|))
    case ODone(_, _, _) => r.(obs := OIdle)
  }

  // Any one step of any thread; calls and returns of rb_push and rb_pop included.
  ghost predicate Next<C>(r: Ring<C>, r': Ring<C>) {
    || (ProducerActive(r) && r' == ProducerNext(r))
    || (r.prod.PIdle? && r'.prod.PLoadHead? && |r'.prod.item| == r.slotSize && r' == r.(prod := r'.prod))
    || (r.prod.PDone? && r' == r.(prod := PIdle))
    || (ConsumerActive(r) && r' == ConsumerNext(r))
    || (r.cons.CIdle? && r' == r.(cons := CLoadTail))
    || (r.cons.CDone? && r' == r.(cons := CIdle))
    || r' == ObserverNext(r)
  }

  // ---------------------------------------------------------------------
  // Invariant
  // ---------------------------------------------------------------------

  // Layout of the buffer and meaning of the two counters.
  ghost predicate Shape<C>(r: Ring<C>) {
    && IsCapacity(r.cap) && r.slotSize >= 1 && !r.fault
    && |r.slots| == r.cap && (forall k :: 0 <= k < r.cap ==> |r.slots[k]| == r.slotSize)
    && r.head == |r.pushed| % WORD
    && r.tail == |r.popped| % WORD
    && |r.popped| <= |r.pushed| <= |r.popped| + r.cap
    && r.overflow == |r.refusedAt| % WORD
    && (forall k :: 0 <= k < |r.refusedAt| ==> r.refusedAt[k] == r.cap)
    && (forall k :: 0 <= k < |r.pushed| ==> |r.pushed[k]| == r.slotSize)
    && (forall k :: 0 <= k < |r.emptyAt| ==> r.emptyAt[k] <= |r.popped|)
  }

  // Every item still queued sits intact in the slot its position selects.
  ghost predicate Contents<C>(r: Ring<C>)
    requires IsCapacity(r.cap) && |r.slots| == r.cap
  {
    CapacityPositive(r.cap);
    && (forall j :: |r.popped| <= j < |r.pushed| ==> r.slots[j % r.cap] == r.pushed[j])
    && r.popped == Take(r.pushed, |r.popped|)
  }

  function Take<T>(s: seq<T>, n: nat): seq<T> {
    if n <= |s| then s[..n] else s
  }

  ghost predicate ProducerInv<C>(r: Ring<C>)
    requires IsCapacity(r.cap) && |r.slots| == r.cap
  {
    CapacityPositive(r.cap);
    match r.prod
    case PIdle => true
    case PLoadHead(x) => |x| == r.slotSize
    case PLoadTail(x, h) => |x| == r.slotSize && h == r.head
    case PTest(x, h, t, seen) =>
      && |x| == r.slotSize && h == r.head
      && t == seen % WORD && seen <= |r.popped| && |r.pushed| <= seen + r.cap
    case PCopy(x, h, i) =>
      && |x| == r.slotSize && h == r.head && i <= r.slotSize
      && |r.pushed| < |r.popped| + r.cap
      && Take(r.slots[|r.pushed| % r.cap], i) == x[..i]
    case PDone(_) => true
  }

  ghost predicate ConsumerInv<C>(r: Ring<C>) {
    match r.cons
    case CIdle => true
    case CLoadTail => true
    case CLoadHead(t) => t == r.tail
    case CTest(t, h, seen) =>
      && t == r.tail && h == seen % WORD
      && |r.popped| <= seen <= |r.pushed|
    case CCopy(t, out) =>
      && t == r.tail && |r.popped| < |r.pushed|
      && |out| <= r.slotSize
      && out == Take(r.pushed[|r.popped|], |out|)
    case CDone(None) => r.emptyAt != [] && r.emptyAt[|r.emptyAt| - 1] == |r.popped|
    case CDone(Some(x)) => r.popped != [] && x == r.popped[|r.popped| - 1]
  }

  ghost predicate ObserverInv<C>(r: Ring<C>) {
    match r.obs
    case OIdle => true
    case OLoadTail(h, seen) => h == seen % WORD && seen <= |r.pushed|
    case ODone(size, seen, pops) => size == (seen - pops) % WORD && seen <= pops + r.cap
  }

  ghost predicate Inv<C>(r: Ring<C>) {
    && Shape(r)
    && Contents(r)
    && ProducerInv(r)
    && ConsumerInv(r)
    && ObserverInv(r)
  }

  lemma CapacityPositive(cap: nat)
    requires IsCapacity(cap)
    ensures 2 <= cap <= HALF_WORD
  {
    CapacityRange(cap);
  }

  lemma InitInv<C>(r: Ring<C>)
    requires Init(r)
    ensures Inv(r)
  {
  }

  // Full test of rb_push on the wrapped counters, against the true occupancy.
  lemma FullTest<C>(r: Ring<C>)
    requires Inv(r) && r.prod.PTest?
    ensures (r.prod.h - r.prod.t) % WORD == |r.pushed| - r.prod.popsSeen <= r.cap
  {
    CapacityPositive(r.cap);
    WrapDistance(|r.pushed|, r.prod.popsSeen);
  }

  // Empty test of rb_pop on the wrapped counters, against the true occupancy.
  lemma EmptyTest<C>(r: Ring<C>)
    requires Inv(r) && r.cons.CTest?
    ensures r.cons.t == r.cons.h <==> r.cons.pushesSeen == |r.popped|
  {
    CapacityPositive(r.cap);
    WrapDistance(r.cons.pushesSeen, |r.popped|);
  }

  lemma ProducerSlot<C>(r: Ring<C>)
    requires Inv(r) && r.prod.PCopy?
    ensures Slot(r, r.prod.h) == |r.pushed| % r.cap < |r.slots|
  {
    CapacityPositive(r.cap);
    MaskedSlot(|r.pushed|, r.cap);
  }

  lemma ConsumerSlot<C>(r: Ring<C>)
    requires Inv(r) && r.cons.CCopy?
    ensures Slot(r, r.cons.t) == |r.popped| % r.cap < |r.slots|
  {
    CapacityPositive(r.cap);
    MaskedSlot(|r.popped|, r.cap);
  }

  lemma CopyInKeepsInv<C>(r: Ring<C>)
    requires Inv(r) && r.prod.PCopy? && r.prod.copied < r.slotSize
    ensures Inv(ProducerNext(r))
  {
    ProducerSlot(r);
    CapacityPositive(r.cap);
    var k, i, x := |r.pushed| % r.cap, r.prod.copied, r.prod.item;
    var r' := ProducerNext(r);
    var slot := r.slots[k][i := x[i]];
    assert r'.slots == r.slots[k := slot];
    assert slot[..i + 1] == x[..i + 1] by {
      assert slot[..i + 1] == r.slots[k][..i] + [x[i]];
    }
    forall j | |r.popped| <= j < |r.pushed|
      ensures r'.slots[j % r.cap] == r.pushed[j]
    {
      DistinctSlots(|r.pushed|, j, r.cap);
    }
  }

  lemma PublishKeepsInv<C>(r: Ring<C>)
    requires Inv(r) && r.prod.PCopy? && r.prod.copied == r.slotSize
    ensures Inv(ProducerNext(r))
  {
    CapacityPositive(r.cap);
    var r' := ProducerNext(r);
    WrapIncrement(|r.pushed|);
    var k := |r.pushed| % r.cap;
    assert r.slots[k] == r.prod.item;
    assert Take(r'.pushed, |r.popped|) == Take(r.pushed, |r.popped|);
    if r.cons.CCopy? {
      assert r'.pushed[|r.popped|] == r.pushed[|r.popped|];
    }
  }

  lemma TestKeepsInv<C>(r: Ring<C>)
    requires Inv(r) && r.prod.PTest?
    ensures Inv(ProducerNext(r))
    ensures ProducerNext(r).prod == PDone(false) <==> |r.pushed| - r.prod.popsSeen == r.cap
  {
    FullTest(r);
    WrapIncrement(|r.refusedAt|);
    var r' := ProducerNext(r);
    if |r.pushed| - r.prod.popsSeen < r.cap {
      assert Take(r.slots[|r.pushed| % r.cap], 0) == r.prod.item[..0];
    }
  }

  lemma ProducerKeepsInv<C>(r: Ring<C>)
    requires Inv(r) && ProducerActive(r)
    ensures Inv(ProducerNext(r))
  {
    match r.prod
    case PLoadHead(x) =>
    case PLoadTail(x, h) =>
    case PTest(x, h, t, seen) => TestKeepsInv(r);
    case PCopy(x, h, i) =>
      if i < r.slotSize { CopyInKeepsInv(r); } else { PublishKeepsInv(r); }
  }

  lemma CopyOutKeepsInv<C>(r: Ring<C>)
    requires Inv(r) && r.cons.CCopy? && |r.cons.out| < r.slotSize
    ensures Inv(ConsumerNext(r))
  {
    ConsumerSlot(r);
    CapacityPositive(r.cap);
    var x, i := r.pushed[|r.popped|], |r.cons.out|;
    assert r.slots[|r.popped| % r.cap] == x;
    assert r.cons.out + [x[i]] == x[..i + 1];
  }

  lemma ReleaseKeepsInv<C>(r: Ring<C>)
    requires Inv(r) && r.cons.CCopy? && |r.cons.out| == r.slotSize
    ensures Inv(ConsumerNext(r))
    ensures ConsumerNext(r).popped == r.popped + [r.pushed[|r.popped|]]
  {
    CapacityPositive(r.cap);
    var x := r.pushed[|r.popped|];
    assert r.cons.out == x;
    WrapIncrement(|r.popped|);
    assert r.popped + [x] == r.pushed[..|r.popped| + 1];
  }

  lemma ConsumerKeepsInv<C>(r: Ring<C>)
    requires Inv(r) && ConsumerActive(r)
    ensures Inv(ConsumerNext(r))
  {
    match r.cons
    case CLoadTail =>
    case CLoadHead(t) =>
    case CTest(t, h, seen) => EmptyTest(r);
    case CCopy(t, out) =>
      if |out| < r.slotSize { CopyOutKeepsInv(r); } else { ReleaseKeepsInv(r); }
  }

  lemma ObserverKeepsInv<C>(r: Ring<C>)
    requires Inv(r)
    ensures Inv(ObserverNext(r))
  {
    match r.obs
    case OIdle =>
    case OLoadTail(h, seen) =>
      var m := seen / WORD - |r.popped| / WORD;
      assert seen - |r.popped| == (h - r.tail) + m * WORD;
      RemainderShift(h - r.tail, m, WORD);
    case ODone(_, _, _) =>
  }

  lemma NextKeepsInv<C>(r: Ring<C>, r': Ring<C>)
    requires Inv(r) && Next(r, r')
    ensures Inv(r')
  {
    if ProducerActive(r) && r' == ProducerNext(r) {
      ProducerKeepsInv(r);
    } else if ConsumerActive(r) && r' == ConsumerNext(r) {
      ConsumerKeepsInv(r);
    } else if r' == ObserverNext(r) {
      ObserverKeepsInv(r);
    }
  }
}
