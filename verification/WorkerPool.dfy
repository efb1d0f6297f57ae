/** The traffic-worker pool of nta_server.c: slots filled lowest first and drained
    highest first, with the join of a draining worker outside the lock. */
module WorkerPool {
  import opened Wrappers

  // One slot: whether it counts, whose worker record it holds, and its stop flag.
  datatype Slot = Slot(active: bool, workerId: nat, stop: bool)

  datatype Pool = Pool(slots: seq<Slot>, count: int, nextId: nat)

  const EMPTY_SLOT := Slot(false, 0, false)

  // The lowest free slot, or |slots|.
  function FirstFree(slots: seq<Slot>): (i: nat)
    ensures i <= |slots|
    ensures i < |slots| ==> !slots[i].active
    ensures forall k :: 0 <= k < i ==> slots[k].active
  {
    if slots == [] || !slots[0].active then 0 else 1 + FirstFree(slots[1..])
  }

  // The highest active slot.
  function LastActive(slots: seq<Slot>): (i: Option<nat>)
    ensures i.Some? ==> i.value < |slots| && slots[i.value].active
    ensures forall k :: 0 <= k < |slots| && (i.Some? ==> k > i.value) ==> !slots[k].active
  {
    if slots == [] then None
    else if slots[|slots| - 1].active then Some(|slots| - 1)
    else LastActive(slots[..|slots| - 1])
  }

  // pool_spawn_one_locked; created says whether pthread_create succeeded. A failed
  // attempt has still used up a worker id.
  function Spawn(p: Pool, created: bool): Pool {
    var i := FirstFree(p.slots);
    if i == |p.slots| then p
    else Pool(p.slots[i := Slot(created, p.nextId, false)], if created then p.count + 1 else p.count, p.nextId + 1)
  }

  function Up(p: Pool, created: bool): Pool {
    if p.count < |p.slots| then Spawn(p, created) else p
  }

  // The first critical section of pool_down_cb: the worker is told to stop, its slot
  // stays taken.
  function Mark(p: Pool, i: nat): Pool
    requires i < |p.slots|
  {
    p.(slots := p.slots[i := p.slots[i].(stop := true)])
  }

  // The second one, once the worker was joined.
  function Reap(p: Pool, i: nat): Pool
    requires i < |p.slots|
  {
    p.(slots := p.slots[i := p.slots[i].(active := false)], count := p.count - 1)
  }

  function Down(p: Pool): Pool {
    match LastActive(p.slots)
    case None => p
    case Some(i) => Reap(Mark(p, i), i)
  }

  // ---------------------------------------------------------------------
  // The pool in memory
  // ---------------------------------------------------------------------

  class TrafficPool {
    const slots: array<Slot>
    var count: int
    var nextId: nat

    ghost function Contents(): Pool
      reads this, slots
    {
      Pool(slots[..], count, nextId)
    }

    // pool_init.
    constructor (max: nat)
      ensures fresh(slots) && Contents() == Pool(seq(max, _ => EMPTY_SLOT), 0, 0)
    {
      slots := new Slot[max](_ => EMPTY_SLOT);
      count, nextId := 0, 0;
      new;
      assert slots[..] == seq(max, _ => EMPTY_SLOT);
    }

    method SpawnOneLocked(created: bool) returns (r: int)
      modifies this, slots
      ensures Contents() == Spawn(old(Contents()), created)
      ensures r == if created && old(FirstFree(slots[..])) < slots.Length then count else -1
    {
      var i := 0;
      while i < slots.Length && slots[i].active
        invariant 0 <= i <= slots.Length
        invariant forall k :: 0 <= k < i ==> slots[k].active
      {
        i := i + 1;
      }
      FirstFreeAt(slots[..], i);
      if i == slots.Length { return -1; }
      slots[i] := Slot(false, nextId, false);
      nextId := nextId + 1;
      if !created { return -1; }
      slots[i] := slots[i].(active := true);
      count := count + 1;
      return count;
    }

    method Size() returns (n: int)
      ensures n == count
    {
      n := count;
    }

    // pool_up_cb.
    method ScaleUp(created: bool) returns (n: int)
      modifies this, slots
      ensures Contents() == Up(old(Contents()), created)
      ensures old(count) >= 0 ==> n == count
    {
      n := count;
      if n < slots.Length {
        ghost var before := Contents();
        var r := SpawnOneLocked(created);
        if r > 0 { n := r; }
        assert Contents() == Spawn(before, created);
      }
    }

    // Up to the unlock before the join.
    method BeginDown() returns (at: Option<nat>)
      modifies slots
      ensures at == LastActive(old(slots[..]))
      ensures Contents() == if at.Some? then Mark(old(Contents()), at.value) else old(Contents())
    {
      var i := slots.Length - 1;
      while i >= 0 && !slots[i].active
        invariant -1 <= i < slots.Length
        invariant forall k :: i < k < slots.Length ==> !slots[k].active
      {
        i := i - 1;
      }
      at := if i < 0 then None else Some(i);
      LastActiveAt(slots[..], at);
      if i >= 0 { slots[i] := slots[i].(stop := true); }
    }

    // From the lock after the join on.
    method FinishDown(i: nat) returns (n: int)
      requires i < slots.Length
      modifies this`count, slots
      ensures Contents() == Reap(old(Contents()), i) && n == count
    {
      slots[i] := slots[i].(active := false);
      count := count - 1;
      n := count;
    }

    // pool_down_cb when no other call comes between.
    method ScaleDown() returns (n: int)
      modifies this, slots
      ensures Contents() == Down(old(Contents()))
      ensures n == if LastActive(old(slots[..])).Some? then count else 0
    {
      var at := BeginDown();
      if at.None? { return 0; }
      n := FinishDown(at.value);
    }
  }

  lemma FirstFreeAt(slots: seq<Slot>, i: nat)
    requires i <= |slots| && (i < |slots| ==> !slots[i].active)
    requires forall k :: 0 <= k < i ==> slots[k].active
    ensures FirstFree(slots) == i
  {
  }

  lemma LastActiveAt(slots: seq<Slot>, i: Option<nat>)
    requires i.Some? ==> i.value < |slots| && slots[i.value].active
    requires forall k :: 0 <= k < |slots| && (i.Some? ==> k > i.value) ==> !slots[k].active
    ensures LastActive(slots) == i
  {
  }

  // ---------------------------------------------------------------------
  // Interleavings with one draining thread
  // ---------------------------------------------------------------------

  // draining is the slot the scaler is joining with the lock released, and running the
  // workers that were started and not yet joined.
  datatype State = State(pool: Pool, draining: Option<nat>, running: set<nat>)

  datatype Step = Start(created: bool) | StopLast | Joined

  // Any thread may scale up between the two critical sections of a scale-down.
  function Apply(st: State, s: Step): (st': State)
    ensures |st'.pool.slots| == |st.pool.slots|
  {
    match s
    case Start(created) =>
      var p := Up(st.pool, created);
      State(p, st.draining, if p.count > st.pool.count then st.running + {st.pool.nextId} else st.running)
    case StopLast =>
      var i := LastActive(st.pool.slots);
      if st.draining.Some? || i.None? then st else st.(pool := Mark(st.pool, i.value), draining := i)
    case Joined =>
      if st.draining.None? || st.draining.value >= |st.pool.slots| then st
      else
        var i := st.draining.value;
        State(Reap(st.pool, i), None, st.running - {st.pool.slots[i].workerId})
  }

  function CountActive(slots: seq<Slot>): nat {
    if slots == [] then 0 else CountActive(slots[..|slots| - 1]) + (if slots[|slots| - 1].active then 1 else 0)
  }

  // The slots account for every running worker: each sits in a slot of its own, and
  // the slot being drained still holds the worker that is being joined.
  ghost predicate Accounts(slots: seq<Slot>, running: set<nat>, nextId: nat) {
    && (forall i :: 0 <= i < |slots| && slots[i].active ==> slots[i].workerId in running)
    && (forall id :: id in running ==> exists i :: 0 <= i < |slots| && Holds(slots[i], id))
    && (forall i, j :: 0 <= i < j < |slots| && slots[i].active && slots[j].active ==>
          slots[i].workerId != slots[j].workerId)
    && (forall id :: id in running ==> id < nextId)
  }

  predicate Holds(s: Slot, id: nat) {
    s.active && s.workerId == id
  }

  ghost predicate Inv(st: State) {
    && st.pool.count == CountActive(st.pool.slots)
    && Accounts(st.pool.slots, st.running, st.pool.nextId)
    && (st.draining.Some? ==>
          st.draining.value < |st.pool.slots| && st.pool.slots[st.draining.value].active)
    && OnlyStopped(st.pool.slots, st.draining)
  }

  // No worker has been told to stop but the one that is being joined.
  ghost predicate OnlyStopped(slots: seq<Slot>, draining: Option<nat>) {
    forall i :: 0 <= i < |slots| && slots[i].active ==> (slots[i].stop <==> draining == Some(i))
  }

  lemma {:induction false} CountUpdate(slots: seq<Slot>, i: nat, s: Slot)
    requires i < |slots|
    ensures CountActive(slots[i := s])
            == CountActive(slots) - (if slots[i].active then 1 else 0) + (if s.active then 1 else 0)
  {
    var n := |slots| - 1;
    var after := slots[i := s];
    if i == n {
      assert after[..n] == slots[..n];
    } else {
      assert after[..n] == slots[..n][i := s];
      CountUpdate(slots[..n], i, s);
    }
  }

  lemma {:induction false} CountBound(slots: seq<Slot>)
    ensures CountActive(slots) <= |slots|
    ensures (exists i :: 0 <= i < |slots| && !slots[i].active) <==> CountActive(slots) < |slots|
  {
    if slots != [] {
      var n := |slots| - 1;
      CountBound(slots[..n]);
      assert forall i :: 0 <= i < n ==> slots[..n][i] == slots[i];
    }
  }

  lemma StartKeepsInv(st: State, created: bool)
    requires Inv(st)
    ensures Inv(Apply(st, Start(created)))
  {
    var slots, i := st.pool.slots, FirstFree(st.pool.slots);
    if st.pool.count < |slots| && i < |slots| {
      var s := Slot(created, st.pool.nextId, false);
      CountUpdate(slots, i, s);
      StartAccounts(slots, st.running, st.pool.nextId, i, created);
    }
  }

  lemma StartAccounts(slots: seq<Slot>, running: set<nat>, nextId: nat, i: nat, created: bool)
    requires Accounts(slots, running, nextId) && i < |slots| && !slots[i].active
    ensures Accounts(slots[i := Slot(created, nextId, false)], if created then running + {nextId} else running, nextId + 1)
  {
    var after := slots[i := Slot(created, nextId, false)];
    forall id | id in running
      ensures exists j :: 0 <= j < |after| && Holds(after[j], id)
    {
      var j :| 0 <= j < |slots| && Holds(slots[j], id);
      assert Holds(after[j], id);
    }
    assert created ==> Holds(after[i], nextId);
  }

  lemma MarkKeepsInv(st: State)
    requires Inv(st)
    ensures Inv(Apply(st, StopLast))
  {
    var i := LastActive(st.pool.slots);
    if st.draining.None? && i.Some? {
      var slots, s := st.pool.slots, st.pool.slots[i.value].(stop := true);
      CountUpdate(slots, i.value, s);
      var after := slots[i.value := s];
      forall id | id in st.running
        ensures exists j :: 0 <= j < |after| && Holds(after[j], id)
      {
        var j :| 0 <= j < |slots| && Holds(slots[j], id);
        assert Holds(after[j], id);
      }
    }
  }

  lemma ReapKeepsInv(st: State)
    requires Inv(st)
    ensures Inv(Apply(st, Joined))
  {
    if st.draining.Some? {
      var slots, i := st.pool.slots, st.draining.value;
      var s := slots[i].(active := false);
      CountUpdate(slots, i, s);
      var after := slots[i := s];
      forall id | id in st.running && id != slots[i].workerId
        ensures exists j :: 0 <= j < |after| && Holds(after[j], id)
      {
        var j :| 0 <= j < |slots| && Holds(slots[j], id);
        assert Holds(after[j], id);
      }
    }
  }

  lemma ApplyKeepsInv(st: State, s: Step)
    requires Inv(st)
    ensures Inv(Apply(st, s))
  {
    match s
    case Start(created) => StartKeepsInv(st, created);
    case StopLast => MarkKeepsInv(st);
    case Joined => ReapKeepsInv(st);
  }

  // A slot gets a new worker only while it is not active, so not before the worker it
  // held was joined; and the worker is a new one.
  lemma NoRespawnBeforeJoin(st: State, s: Step, i: nat)
    requires Inv(st) && i < |st.pool.slots|
    requires Apply(st, s).pool.slots[i].workerId != st.pool.slots[i].workerId
    ensures !st.pool.slots[i].active && st.draining != Some(i)
    ensures Apply(st, s).pool.slots[i].workerId == st.pool.nextId && st.pool.nextId !in st.running
    ensures !Apply(st, s).pool.slots[i].stop
  {
  }

  // A worker leaves the running ones only by being joined.
  lemma OnlyJoinEnds(st: State, s: Step, id: nat)
    requires Inv(st) && id in st.running && id !in Apply(st, s).running
    ensures s == Joined && st.draining.Some?
    ensures var i := st.draining.value;
            st.pool.slots[i].workerId == id && st.pool.slots[i].stop && !Apply(st, s).pool.slots[i].active
  {
  }

  function Run(max: nat, steps: seq<Step>): (st: State)
    ensures |st.pool.slots| == max
  {
    if steps == [] then State(Pool(seq(max, _ => EMPTY_SLOT), 0, 0), None, {})
    else Apply(Run(max, steps[..|steps| - 1]), steps[|steps| - 1])
  }

  lemma {:induction false} RunKeepsInv(max: nat, steps: seq<Step>)
    ensures Inv(Run(max, steps))
  {
    if steps == [] {
      NoneActive(Run(max, steps).pool.slots);
    } else {
      RunKeepsInv(max, steps[..|steps| - 1]);
      ApplyKeepsInv(Run(max, steps[..|steps| - 1]), steps[|steps| - 1]);
    }
  }

  lemma {:induction false} NoneActive(slots: seq<Slot>)
    requires forall i :: 0 <= i < |slots| ==> !slots[i].active
    ensures CountActive(slots) == 0
  {
    if slots != [] { NoneActive(slots[..|slots| - 1]); }
  }

  predicate SlotHolds(max: nat, steps: seq<Step>, slot: nat, id: nat)
    requires slot < max
  {
    Holds(Run(max, steps).pool.slots[slot], id)
  }

  // Step m joins the worker id that slot holds.
  ghost predicate JoinsAt(max: nat, steps: seq<Step>, m: nat, slot: nat, id: nat)
    requires slot < max
  {
    && m < |steps| && steps[m] == Joined && SlotHolds(max, steps[..m], slot, id)
    && Run(max, steps[..m]).draining == Some(slot) && Run(max, steps[..m]).pool.slots[slot].stop
  }

  // Over any run, a slot gives up its worker, and so becomes free for another one, only
  // at a step m that joins that worker.
  lemma {:induction false} SlotKeepsWorkerUntilJoin(max: nat, steps: seq<Step>, n: nat, slot: nat, id: nat)
    returns (m: nat)
    requires n <= |steps| && slot < max
    requires SlotHolds(max, steps[..n], slot, id) && !SlotHolds(max, steps, slot, id)
    ensures n <= m && JoinsAt(max, steps, m, slot, id)
  {
    assert steps[..|steps|] == steps;
    var last := |steps| - 1;
    if SlotHolds(max, steps[..last], slot, id) {
      m := last;
      LastStepJoins(max, steps, slot, id);
    } else {
      assert steps[..last][..n] == steps[..n];
      m := SlotKeepsWorkerUntilJoin(max, steps[..last], n, slot, id);
      assert steps[..last][..m] == steps[..m];
    }
  }

  lemma LastStepJoins(max: nat, steps: seq<Step>, slot: nat, id: nat)
    requires slot < max && steps != []
    requires SlotHolds(max, steps[..|steps| - 1], slot, id) && !SlotHolds(max, steps, slot, id)
    ensures JoinsAt(max, steps, |steps| - 1, slot, id)
  {
    RunKeepsInv(max, steps[..|steps| - 1]);
    StepKeepsSlot(Run(max, steps[..|steps| - 1]), steps[|steps| - 1], slot);
  }

  lemma StepKeepsSlot(st: State, s: Step, i: nat)
    requires Inv(st) && i < |st.pool.slots| && st.pool.slots[i].active
    ensures var after := Apply(st, s).pool.slots[i];
            (after.active && after.workerId == st.pool.slots[i].workerId) || (s == Joined && st.draining == Some(i))
  {
  }

  // After any interleaving the count is the number of active slots and of workers
  // started but not joined, and never exceeds the slots.
  lemma CountIsExact(max: nat, steps: seq<Step>)
    ensures var st := Run(max, steps);
            && st.pool.count == CountActive(st.pool.slots) == |st.running| <= max
            && OnlyStopped(st.pool.slots, st.draining)
  {
    var st := Run(max, steps);
    RunKeepsInv(max, steps);
    CountBound(st.pool.slots);
    RunningCount(st.pool.slots, st.running, st.pool.nextId);
  }

  // A start uses up an id and the lowest free slot exactly while fewer workers run than
  // there are slots; the slot stays free if the thread could not be created.
  lemma StartOutcome(max: nat, steps: seq<Step>, created: bool) returns (i: nat)
    ensures var st, st' := Run(max, steps), Run(max, steps + [Start(created)]);
            if |st.running| < max then
              && i < max && !st.pool.slots[i].active && (forall k :: 0 <= k < i ==> st.pool.slots[k].active)
              && st'.pool.slots == st.pool.slots[i := Slot(created, st.pool.nextId, false)]
              && st'.pool.nextId == st.pool.nextId + 1 && st'.draining == st.draining
              && st'.running == if created then st.running + {st.pool.nextId} else st.running
            else st' == st
  {
    var st := Run(max, steps);
    assert (steps + [Start(created)])[..|steps|] == steps;
    CountIsExact(max, steps);
    CountBound(st.pool.slots);
    i := FirstFree(st.pool.slots);
  }

  // While no worker is being joined, a scale-down tells the worker in the highest active
  // slot to stop, and does nothing without one.
  lemma StopOutcome(max: nat, steps: seq<Step>) returns (i: nat)
    ensures var st, st' := Run(max, steps), Run(max, steps + [StopLast]);
            if st.draining == None && st.running != {} then
              && i < max && st.pool.slots[i].active && (forall k :: i < k < max ==> !st.pool.slots[k].active)
              && st' == st.(pool := st.pool.(slots := st.pool.slots[i := st.pool.slots[i].(stop := true)]),
                            draining := Some(i))
            else st' == st
  {
    var st := Run(max, steps);
    assert (steps + [StopLast])[..|steps|] == steps;
    RunKeepsInv(max, steps);
    var last := LastActive(st.pool.slots);
    if id :| id in st.running {
      var k :| 0 <= k < |st.pool.slots| && Holds(st.pool.slots[k], id);
    }
    i := if last.Some? then last.value else 0;
  }

  lemma {:induction false} RunningCount(slots: seq<Slot>, running: set<nat>, nextId: nat)
    requires Accounts(slots, running, nextId)
    ensures |running| == CountActive(slots)
  {
    if slots == [] {
      assert running == {};
    } else {
      var n := |slots| - 1;
      var rest := if slots[n].active then running - {slots[n].workerId} else running;
      assert Accounts(slots[..n], rest, nextId) by { AccountsFront(slots, running, nextId, rest); }
      RunningCount(slots[..n], rest, nextId);
    }
  }

  lemma AccountsFront(slots: seq<Slot>, running: set<nat>, nextId: nat, rest: set<nat>)
    requires Accounts(slots, running, nextId) && slots != []
    requires rest == if slots[|slots| - 1].active then running - {slots[|slots| - 1].workerId} else running
    ensures Accounts(slots[..|slots| - 1], rest, nextId)
  {
    var n := |slots| - 1;
    var front := slots[..n];
    forall id | id in rest
      ensures exists i :: 0 <= i < |front| && Holds(front[i], id)
    {
      var i :| 0 <= i < |slots| && Holds(slots[i], id);
      assert Holds(front[i], id);
    }
  }

  // Two overlapping scale-downs would pick the same slot, join one worker twice and
  // count it out twice: there must be only one draining thread.
  lemma OverlappingDownsMiscount(p: Pool, i: nat)
    requires p.count == CountActive(p.slots) && LastActive(p.slots) == Some(i)
    ensures LastActive(Mark(p, i).slots) == Some(i)
    ensures var q := Reap(Reap(Mark(Mark(p, i), i), i), i);
            q.count == CountActive(q.slots) - 1
  {
    var q := Mark(Mark(p, i), i);
    LastActiveAt(Mark(p, i).slots, Some(i));
    CountUpdate(p.slots, i, p.slots[i].(stop := true));
    CountUpdate(Mark(p, i).slots, i, Mark(p, i).slots[i].(stop := true));
    CountUpdate(q.slots, i, q.slots[i].(active := false));
    CountUpdate(Reap(q, i).slots, i, Reap(q, i).slots[i].(active := false));
  }
}
