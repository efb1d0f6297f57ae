/** What every run of the lock-free ring buffer guarantees, derived from the step
    invariant of RingMachine. */
module RingTheorems {
  import opened Wrappers
  import opened Words
  import opened RingMachine

  ghost predicate StepAt<C>(run: seq<Ring<C>>, i: nat)
    requires i + 1 < |run|
  {
    Next(run[i], run[i + 1])
  }

  ghost predicate IsRun<C>(run: seq<Ring<C>>) {
    && run != [] && Init(run[0])
    && forall i: nat :: i + 1 < |run| ==> StepAt(run, i)
  }

  lemma {:induction false} RunKeepsInv<C>(run: seq<Ring<C>>, i: nat)
    requires IsRun(run) && i < |run|
    ensures Inv(run[i])
  {
    if i == 0 {
      InitInv(run[0]);
    } else {
      RunKeepsInv(run, i - 1);
      assert StepAt(run, i - 1);
      NextKeepsInv(run[i - 1], run[i]);
    }
  }

  // The cell the producer writes next and the cell the consumer reads next.
  ghost predicate Colliding<C>(r: Ring<C>) {
    && r.prod.PCopy? && r.cons.CCopy?
    && Slot(r, r.prod.h) == Slot(r, r.cons.t)
  }

  lemma NeverColliding<C>(r: Ring<C>)
    requires Inv(r)
    ensures !Colliding(r)
  {
    if r.prod.PCopy? && r.cons.CCopy? {
      ProducerSlot(r);
      ConsumerSlot(r);
      DistinctSlots(|r.pushed|, |r.popped|, r.cap);
    }
  }

  // Safety under every interleaving and any number of counter wraps.
  lemma RunSafety<C>(run: seq<Ring<C>>, i: nat)
    requires IsRun(run) && i < |run|
    ensures var r := run[i];
            && !r.fault
            && r.popped <= r.pushed
            && |r.pushed| - |r.popped| <= r.cap
            && !Colliding(r)
            && r.overflow == |r.refusedAt| % WORD
            && (forall k :: 0 <= k < |r.refusedAt| ==> r.refusedAt[k] == r.cap)
  {
    RunKeepsInv(run, i);
    NeverColliding(run[i]);
    assert run[i].popped == run[i].pushed[..|run[i].popped|];
  }

  // ---------------------------------------------------------------------
  // Refinement of a bounded FIFO queue
  // ---------------------------------------------------------------------

  // refusals and misses count the enqueues refused and the dequeues that found nothing.
  datatype Fifo<T> = Fifo(cap: nat, queue: seq<T>, refusals: nat, misses: nat)

  ghost predicate Enqueue<T>(f: Fifo<T>, f': Fifo<T>) {
    && |f.queue| < f.cap && f'.queue != []
    && f' == f.(queue := f.queue + [f'.queue[|f'.queue| - 1]])
  }

  ghost predicate Dequeue<T>(f: Fifo<T>, f': Fifo<T>) {
    f.queue != [] && f' == f.(queue := f.queue[1..])
  }

  ghost predicate Refuse<T>(f: Fifo<T>, f': Fifo<T>) {
    |f.queue| == f.cap && f' == f.(refusals := f.refusals + 1)
  }

  ghost predicate Miss<T>(f: Fifo<T>, f': Fifo<T>) {
    f.queue == [] && f' == f.(misses := f.misses + 1)
  }

  ghost predicate FifoStep<T>(f: Fifo<T>, f': Fifo<T>) {
    f' == f || Enqueue(f, f') || Dequeue(f, f') || Refuse(f, f') || Miss(f, f')
  }

  // The producer has loaded a tail that makes the ring full, and will refuse.
  predicate Refusing<C>(r: Ring<C>) {
    r.prod.PTest? && |r.pushed| - r.prod.popsSeen == r.cap
  }

  // The consumer has loaded a head that makes the ring empty, and will fail.
  predicate Missing<C>(r: Ring<C>) {
    r.cons.CTest? && r.cons.pushesSeen == |r.popped|
  }

  function One(b: bool): nat { if b then 1 else 0 }

  // A push takes effect at its head store and a pop at its tail store; a refused push
  // at its load of tail and a failed pop at its load of head.
  function Abstract<C>(r: Ring<C>): Fifo<Item<C>> {
    var n := if |r.popped| <= |r.pushed| then |r.popped| else 0;
    Fifo(r.cap, r.pushed[n..], |r.refusedAt| + One(Refusing(r)), |r.emptyAt| + One(Missing(r)))
  }

  // Every step is one step of the bounded FIFO, which refuses only when full and
  // misses only when empty. What a completed pop returns was the oldest item.
  lemma StepRefinesFifo<C>(r: Ring<C>, r': Ring<C>)
    requires Inv(r) && Next(r, r')
    ensures FifoStep(Abstract(r), Abstract(r'))
  {
    if ProducerActive(r) && r' == ProducerNext(r) {
      ProducerStepRefines(r);
    } else if ConsumerActive(r) && r' == ConsumerNext(r) {
      ConsumerStepRefines(r);
    } else {
      CallStepRefines(r, r');
    }
  }

  // Calls, returns and the observer.
  lemma CallStepRefines<C>(r: Ring<C>, r': Ring<C>)
    requires Next(r, r') && !(ProducerActive(r) && r' == ProducerNext(r)) && !(ConsumerActive(r) && r' == ConsumerNext(r))
    ensures Abstract(r') == Abstract(r)
  {
  }

  lemma ProducerStepRefines<C>(r: Ring<C>)
    requires Inv(r) && ProducerActive(r)
    ensures FifoStep(Abstract(r), Abstract(ProducerNext(r)))
    ensures ProducerNext(r).prod == PDone(true) ==>
              r.prod.PCopy? && Abstract(ProducerNext(r)).queue == Abstract(r).queue + [r.prod.item]
    ensures r.prod.PLoadTail? && Refusing(ProducerNext(r)) ==> Refuse(Abstract(r), Abstract(ProducerNext(r)))
  {
    var r' := ProducerNext(r);
    match r.prod
    case PLoadHead(_) =>
      assert Abstract(r') == Abstract(r);
    case PLoadTail(_, _) =>
      assert Abstract(r') == Abstract(r).(refusals := Abstract(r).refusals + One(Refusing(r')));
    case PTest(_, _, _, _) =>
      FullTest(r);
      assert Abstract(r') == Abstract(r);
    case PCopy(_, _, i) =>
      PushStepRefines(r);
  }

  lemma PushStepRefines<C>(r: Ring<C>)
    requires Inv(r) && r.prod.PCopy?
    ensures FifoStep(Abstract(r), Abstract(ProducerNext(r)))
    ensures ProducerNext(r).prod == PDone(true) ==>
              Abstract(ProducerNext(r)).queue == Abstract(r).queue + [r.prod.item]
  {
    var r' := ProducerNext(r);
    if r.prod.copied < r.slotSize {
      assert Abstract(r') == Abstract(r);
    } else {
      assert r'.pushed[|r.popped|..] == r.pushed[|r.popped|..] + [r.prod.item];
      assert Missing(r') == Missing(r);
      assert Enqueue(Abstract(r), Abstract(r'));
    }
  }

  lemma ConsumerStepRefines<C>(r: Ring<C>)
    requires Inv(r) && ConsumerActive(r)
    ensures FifoStep(Abstract(r), Abstract(ConsumerNext(r)))
    ensures ConsumerNext(r).cons.CDone? && ConsumerNext(r).cons.result.Some? ==>
              Abstract(r).queue == [ConsumerNext(r).cons.result.value] + Abstract(ConsumerNext(r)).queue
    ensures r.cons.CLoadHead? && Missing(ConsumerNext(r)) ==> Miss(Abstract(r), Abstract(ConsumerNext(r)))
  {
    var r' := ConsumerNext(r);
    match r.cons
    case CLoadTail =>
      assert Abstract(r') == Abstract(r);
    case CLoadHead(_) =>
      assert Abstract(r') == Abstract(r).(misses := Abstract(r).misses + One(Missing(r')));
    case CTest(_, _, _) =>
      EmptyTest(r);
      assert Abstract(r') == Abstract(r);
    case CCopy(_, _) =>
      PopStepRefines(r);
  }

  lemma PopStepRefines<C>(r: Ring<C>)
    requires Inv(r) && r.cons.CCopy?
    ensures FifoStep(Abstract(r), Abstract(ConsumerNext(r)))
    ensures ConsumerNext(r).cons.CDone? && ConsumerNext(r).cons.result.Some? ==>
              Abstract(r).queue == [ConsumerNext(r).cons.result.value] + Abstract(ConsumerNext(r)).queue
  {
    var r' := ConsumerNext(r);
    if |r.cons.out| < r.slotSize {
      ConsumerSlot(r);
      assert Abstract(r') == Abstract(r);
    } else {
      ReleaseKeepsInv(r);
      var n := |r.popped|;
      assert r.cons.out == r.pushed[n];
      assert r.pushed[n..] == [r.pushed[n]] + r.pushed[n + 1..];
      assert Refusing(r') == Refusing(r);
      assert Dequeue(Abstract(r), Abstract(r'));
    }
  }

  // The queue holds, within its bound, what was pushed and not yet popped; the counter
  // counts the refusals but for one whose push has loaded tail and not yet decided.
  ghost predicate QueuedBetween<C>(r: Ring<C>, f: Fifo<Item<C>>) {
    && |f.queue| <= f.cap
    && r.pushed == r.popped + f.queue
    && f.refusals >= One(Refusing(r))
    && r.overflow == (f.refusals - One(Refusing(r))) % WORD
    && f.misses == |r.emptyAt| + One(Missing(r))
  }

  // A whole run of the ring buffer is a run of the bounded FIFO, step by step.
  lemma RunRefinesFifo<C>(run: seq<Ring<C>>) returns (fifo: seq<Fifo<Item<C>>>)
    requires IsRun(run)
    ensures |fifo| == |run| && fifo[0] == Fifo(run[0].cap, [], 0, 0)
    ensures forall i :: 0 <= i < |fifo| - 1 ==> FifoStep(fifo[i], fifo[i + 1])
    ensures forall i :: 0 <= i < |run| ==> QueuedBetween(run[i], fifo[i])
  {
    fifo := seq(|run|, i requires 0 <= i < |run| => Abstract(run[i]));
    forall i | 0 <= i < |run| - 1
      ensures FifoStep(fifo[i], fifo[i + 1])
    {
      RunKeepsInv(run, i);
      assert StepAt(run, i);
      StepRefinesFifo(run[i], run[i + 1]);
    }
    forall i | 0 <= i < |run|
      ensures QueuedBetween(run[i], fifo[i])
    {
      RunKeepsInv(run, i);
      var r := run[i];
      assert r.pushed == r.pushed[..|r.popped|] + r.pushed[|r.popped|..];
    }
  }

  // A push is refused exactly when the buffer was full at the load of tail, and
  // each refusal is counted once; a pop fails exactly when nothing was queued at
  // the load of head.
  lemma OutcomeIsExact<C>(r: Ring<C>)
    requires Inv(r)
    ensures r.prod.PTest? ==>
              var full := |r.pushed| - r.prod.popsSeen == r.cap;
              var r' := ProducerNext(r);
              && (r'.prod == PDone(false) <==> full)
              && (r'.prod == PCopy(r.prod.item, r.prod.h, 0) <==> !full)
              && r'.overflow == (if full then WrapInc(r.overflow) else r.overflow)
    ensures r.cons.CTest? ==>
              (ConsumerNext(r).cons == CDone(None) <==> r.cons.pushesSeen == |r.popped|)
  {
    if r.prod.PTest? { TestKeepsInv(r); }
    if r.cons.CTest? { EmptyTest(r); }
  }

  // ---------------------------------------------------------------------
  // rb_size from a third thread
  // ---------------------------------------------------------------------

  // rb_size loads head before tail. Its answer is the number of items pushed by the
  // first load and not popped by the second exactly when no more had been popped then;
  // otherwise it cannot be taken for an occupancy unless 2^63 more pops than pushes
  // were seen.
  lemma ObservedSize<C>(run: seq<Ring<C>>, i: nat)
    requires IsRun(run) && i < |run| && run[i].obs.ODone?
    ensures var o := run[i].obs;
            && (o.size == o.pushesSeen - o.popsSeen <==> o.popsSeen <= o.pushesSeen)
            && (o.popsSeen <= o.pushesSeen ==> o.size <= run[i].cap)
            && (o.popsSeen > o.pushesSeen && o.size <= run[i].cap ==> o.popsSeen >= o.pushesSeen + HALF_WORD)
  {
    RunKeepsInv(run, i);
    var o, cap := run[i].obs, run[i].cap;
    CapacityPositive(cap);
    var d := o.pushesSeen - o.popsSeen;
    if d >= 0 {
      RemainderOf(d, 0, WORD, d);
    } else if d + HALF_WORD > 0 {
      RemainderOf(d, -1, WORD, d + WORD);
    }
  }

  // Ring of capacity 2 on one-cell items, with the given threads and history.
  function SmallRing(slots: seq<Item<int>>, pushed: seq<Item<int>>, popped: seq<Item<int>>,
                     prod: Producer<int>, cons: Consumer<int>, obs: Observer): Ring<int>
  {
    Ring(2, 1, slots, |pushed|, |popped|, 0, prod, cons, obs, false, pushed, popped, [], [])
  }

  ghost predicate Path<C>(run: seq<Ring<C>>) {
    run != [] && forall i: nat :: i + 1 < |run| ==> StepAt(run, i)
  }

  lemma Join<C>(p: seq<Ring<C>>, q: seq<Ring<C>>)
    requires Path(p) && Path(q) && Next(p[|p| - 1], q[0])
    ensures Path(p + q)
  {
    forall i: nat | i + 1 < |p + q|
      ensures StepAt(p + q, i)
    {
      if i + 1 < |p| {
        assert StepAt(p, i);
      } else if i >= |p| {
        assert StepAt(q, i - |p|);
      }
    }
  }

  lemma PushPath(obs: Observer) returns (path: seq<Ring<int>>)
    ensures Path(path) && |path| == 6
    ensures path[0] == SmallRing([[0], [0]], [], [], PLoadHead([7]), CIdle, obs)
    ensures path[5] == SmallRing([[7], [0]], [[7]], [], PDone(true), CIdle, obs)
  {
    var x := [7];
    var s0 := SmallRing([[0], [0]], [], [], PLoadHead(x), CIdle, obs);
    var s1 := ProducerNext(s0);
    var s2 := ProducerNext(s1);
    var s3 := ProducerNext(s2);
    assert s3.prod == PCopy(x, 0, 0);
    assert Slot(s3, 0) == 0;
    var s4 := SmallRing([[7], [0]], [], [], PCopy(x, 0, 1), CIdle, obs);
    var cell := s3.slots[0][0 := 7];
    assert cell == [7];
    assert s3.slots[0 := cell] == [[7], [0]];
    var s5 := SmallRing([[7], [0]], [[7]], [], PDone(true), CIdle, obs);
    path := [s0, s1, s2, s3, s4, s5];
  }

  lemma PopPath(obs: Observer) returns (path: seq<Ring<int>>)
    ensures Path(path) && |path| == 6
    ensures path[0] == SmallRing([[7], [0]], [[7]], [], PDone(true), CLoadTail, obs)
    ensures path[5] == SmallRing([[7], [0]], [[7]], [[7]], PDone(true), CDone(Some([7])), obs)
  {
    var s0 := SmallRing([[7], [0]], [[7]], [], PDone(true), CLoadTail, obs);
    var s1 := ConsumerNext(s0);
    var s2 := ConsumerNext(s1);
    var s3 := ConsumerNext(s2);
    assert s3.cons == CCopy(0, []);
    assert Slot(s3, 0) == 0;
    var s4 := SmallRing([[7], [0]], [[7]], [], PDone(true), CCopy(0, [7]), obs);
    var s5 := SmallRing([[7], [0]], [[7]], [[7]], PDone(true), CDone(Some([7])), obs);
    assert ConsumerNext(s3) == s4 by { assert [] + [7] == [7]; }
    assert ConsumerNext(s4) == s5 by { assert [] + [[7]] == [[7]]; }
    path := [s0, s1, s2, s3, s4, s5];
  }

  // The failing case happens: a push and a pop between the two loads make the
  // reported depth 2^64 - 1 although the buffer is empty.
  lemma ObservedSizeCanWrap() returns (run: seq<Ring<int>>)
    ensures IsRun(run)
    ensures var r := run[|run| - 1];
            r.obs.ODone? && r.obs.size == WORD - 1 && |r.pushed| == |r.popped|
  {
    var obs := OLoadTail(0, 0);
    var first := SmallRing([[0], [0]], [], [], PIdle, CIdle, OIdle);
    assert IsCapacity(2) by { assert Pow2(1) == 2; }
    var loaded := first.(obs := obs);
    var push := PushPath(obs);
    var pop := PopPath(obs);
    var last := ObserverNext(pop[5]);
    Join([first, loaded], push);
    Join([first, loaded] + push, pop);
    Join([first, loaded] + push + pop, [last]);
    run := [first, loaded] + push + pop + [last];
  }
}
