/** The polling loop of nta_scaler.c that grows and shrinks the worker pool: bounds on
    its size and the hysteresis of every scale-down. */
module Scaler {
  import opened Wrappers
  import opened WorkerPool

  datatype Config = Config(pollSec: int, minWorkers: int, maxWorkers: int, upBacklog: int, downIdleSec: int)

  // The clamping of nta_scaler_load.
  function Clamp(raw: Config): (cfg: Config)
    ensures 1 <= cfg.minWorkers <= cfg.maxWorkers
    ensures 1 <= raw.minWorkers <= raw.maxWorkers ==> cfg == raw
    ensures cfg.minWorkers >= raw.minWorkers && cfg.maxWorkers >= raw.maxWorkers
    ensures (cfg.minWorkers == 1 || cfg.minWorkers == raw.minWorkers)
            && (cfg.maxWorkers == cfg.minWorkers || cfg.maxWorkers == raw.maxWorkers)
            && cfg.pollSec == raw.pollSec && cfg.upBacklog == raw.upBacklog && cfg.downIdleSec == raw.downIdleSec
  {
    var least := if raw.minWorkers < 1 then 1 else raw.minWorkers;
    raw.(minWorkers := least, maxWorkers := if raw.maxWorkers < least then least else raw.maxWorkers)
  }

  // Initial slots: room for the configured workers and for the scaler's maximum.
  function PoolMax(cfg: Config, initial: int): int {
    if cfg.maxWorkers < initial then initial else cfg.maxWorkers
  }

  // One turn of the loop: a failed query, or the backlog with the clock as it is read
  // when idling is judged and after a scale-down, and whether a thread could be created.
  datatype Poll = Failed | Poll(ready: int, now: int, later: int, created: bool)

  datatype Action = Stay | GoUp | GoDown

  datatype Loop = Loop(pool: Pool, idleSince: int)

  predicate IsIdle(cfg: Config, st: Loop, ready: int) {
    ready == 0 && st.pool.count > cfg.minWorkers
  }

  function Decide(cfg: Config, st: Loop, p: Poll): Action {
    if p.Failed? then Stay
    else if p.ready >= cfg.upBacklog && st.pool.count < cfg.maxWorkers then GoUp
    else if IsIdle(cfg, st, p.ready) && st.idleSince != 0 && p.now - st.idleSince >= cfg.downIdleSec then GoDown
    else Stay
  }

  function Turn(cfg: Config, st: Loop, p: Poll): Loop {
    match Decide(cfg, st, p)
    case GoUp => Loop(WorkerPool.Up(st.pool, p.created), 0)
    case GoDown => Loop(WorkerPool.Down(st.pool), p.later)
    case Stay =>
      if p.Failed? then st
      else if !IsIdle(cfg, st, p.ready) then st.(idleSince := 0)
      else if st.idleSince == 0 then st.(idleSince := p.now)
      else st
  }

  // The pool after n initial spawns that all succeeded.
  function Spawned(p: Pool, n: nat): Pool {
    if n == 0 then p else Spawn(Spawned(p, n - 1), true)
  }

  // The pool after the initial spawns; created says which threads could be created, and
  // the first that could not ends them.
  function Started(p: Pool, created: seq<bool>): Pool
    decreases |created|
  {
    if created == [] then p
    else if !created[0] then Spawn(p, false)
    else Started(Spawn(p, true), created[1..])
  }

  function EmptyPool(cfg: Config, workers: nat): Pool {
    Pool(seq(if PoolMax(cfg, workers) < 0 then 0 else PoolMax(cfg, workers), _ => EMPTY_SLOT), 0, 0)
  }

  function Initial(cfg: Config, workers: nat): Loop {
    Loop(Spawned(EmptyPool(cfg, workers), workers), 0)
  }

  function Run(cfg: Config, workers: nat, ps: seq<Poll>): Loop {
    if ps == [] then Initial(cfg, workers)
    else Turn(cfg, Run(cfg, workers, ps[..|ps| - 1]), ps[|ps| - 1])
  }

  // The initial spawns of main: the first thread that cannot be created ends them and
  // sets the global stop.
  method StartPool(cfg: Config, created: seq<bool>) returns (pool: TrafficPool, stop: bool)
    requires 1 <= cfg.minWorkers <= cfg.maxWorkers
    ensures fresh(pool) && fresh(pool.slots)
    ensures pool.Contents() == Started(EmptyPool(cfg, |created|), created)
    ensures stop <==> false in created
  {
    var workers := |created|;
    var max := if cfg.maxWorkers < workers then workers else cfg.maxWorkers;
    pool := new TrafficPool(max);
    stop := false;
    ghost var start := pool.Contents();
    NoneActivePrefix(start);
    var i := 0;
    while i < workers && !stop
      invariant 0 <= i <= workers && fresh(pool) && fresh(pool.slots)
      invariant !stop ==> IsPrefix(pool.Contents()) && pool.count == i
      invariant !stop ==> |pool.slots[..]| == max && false !in created[..i]
      invariant !stop ==> Started(start, created) == Started(pool.Contents(), created[i..])
      invariant stop ==> Started(start, created) == pool.Contents() && false in created
    {
      ghost var before := pool.Contents();
      SpawnPrefix(before, created[i]);
      assert created[i..][1..] == created[i + 1..];
      assert created[..i + 1] == created[..i] + [created[i]];
      var r := pool.SpawnOneLocked(created[i]);
      if r < 0 { stop := true; }
      i := i + 1;
    }
    assert created[..workers] == created;
  }

  lemma NoneActivePrefix(p: Pool)
    requires p.count == 0 && forall i :: 0 <= i < |p.slots| ==> !p.slots[i].active
    ensures IsPrefix(p)
  {
  }

  // The pool that was started holds one worker for each thread up to the first failure;
  // without one it is the pool the scaler begins with.
  lemma {:induction false} StartedPrefix(p: Pool, created: seq<bool>)
    requires IsPrefix(p) && p.count + |created| <= |p.slots|
    ensures IsPrefix(Started(p, created)) && |Started(p, created).slots| == |p.slots|
    ensures Started(p, created).count == p.count + Leading(created)
    ensures Leading(created) == |created| ==> Started(p, created) == Spawned(p, |created|)
    decreases |created|
  {
    if created != [] {
      SpawnPrefix(p, created[0]);
      if created[0] {
        StartedPrefix(Spawn(p, true), created[1..]);
        SpawnedFirst(p, |created|);
      }
    }
  }

  lemma {:induction false} SpawnedFirst(p: Pool, n: nat)
    requires n > 0
    ensures Spawned(p, n) == Spawned(Spawn(p, true), n - 1)
  {
    if n > 1 { SpawnedFirst(p, n - 1); }
  }

  // How many threads are created before the first failure.
  function Leading(created: seq<bool>): (n: nat)
    ensures n <= |created| && (n == |created| <==> false !in created)
  {
    if created == [] || !created[0] then 0 else 1 + Leading(created[1..])
  }

  // The loop of nta_scaler_thread_main over the polls it makes before the stop; a scaler
  // without room between its bounds leaves the pool alone.
  method ScalerLoop(cfg: Config, workers: nat, pool: TrafficPool, ps: seq<Poll>) returns (idleSince: int)
    requires pool.Contents() == Initial(cfg, workers).pool
    modifies pool, pool.slots
    ensures var enabled := cfg.pollSec > 0 && cfg.maxWorkers > cfg.minWorkers;
            Loop(pool.Contents(), idleSince) == if enabled then Run(cfg, workers, ps) else Initial(cfg, workers)
  {
    idleSince := 0;
    if !(cfg.pollSec > 0 && cfg.maxWorkers > cfg.minWorkers) { return; }
    for i := 0 to |ps|
      invariant Loop(pool.Contents(), idleSince) == Run(cfg, workers, ps[..i])
    {
      assert ps[..i + 1][..i] == ps[..i];
      ghost var st := Run(cfg, workers, ps[..i]);
      assert Run(cfg, workers, ps[..i + 1]) == Turn(cfg, st, ps[i]);
      if ps[i].Poll? {
        var cur := pool.Size();
        if ps[i].ready >= cfg.upBacklog && cur < cfg.maxWorkers {
          var n := pool.ScaleUp(ps[i].created);
          idleSince := 0;
        } else if ps[i].ready == 0 && cur > cfg.minWorkers {
          if idleSince == 0 {
            idleSince := ps[i].now;
          } else if ps[i].now - idleSince >= cfg.downIdleSec {
            var n := pool.ScaleDown();
            idleSince := ps[i].later;
          }
        } else {
          idleSince := 0;
        }
      }
    }
    assert ps[..|ps|] == ps;
  }

  // ---------------------------------------------------------------------
  // Size
  // ---------------------------------------------------------------------

  // While only the scaler changes the pool, the active slots are the first ones.
  ghost predicate IsPrefix(p: Pool) {
    && 0 <= p.count <= |p.slots|
    && forall i :: 0 <= i < |p.slots| ==> (p.slots[i].active <==> i < p.count)
  }

  lemma SpawnPrefix(p: Pool, created: bool)
    requires IsPrefix(p)
    ensures IsPrefix(Spawn(p, created)) && |Spawn(p, created).slots| == |p.slots|
    ensures Spawn(p, created).count == if created && p.count < |p.slots| then p.count + 1 else p.count
  {
    FirstFreeAt(p.slots, p.count);
  }

  lemma DownPrefix(p: Pool)
    requires IsPrefix(p)
    ensures IsPrefix(Down(p)) && |Down(p).slots| == |p.slots|
    ensures Down(p).count == if p.count > 0 then p.count - 1 else 0
  {
    LastActiveAt(p.slots, if p.count > 0 then Some(p.count - 1) else None);
  }

  lemma {:induction false} SpawnedPrefix(p: Pool, n: nat)
    requires IsPrefix(p) && p.count + n <= |p.slots|
    ensures IsPrefix(Spawned(p, n)) && |Spawned(p, n).slots| == |p.slots|
    ensures Spawned(p, n).count == p.count + n
  {
    if n > 0 {
      SpawnedPrefix(p, n - 1);
      SpawnPrefix(Spawned(p, n - 1), true);
    }
  }

  function Min(a: int, b: int): int { if a < b then a else b }

  function Max(a: int, b: int): int { if a < b then b else a }

  // The pool never leaves the range between the configured bounds and where it began.
  lemma {:induction false} SizeStaysInRange(cfg: Config, workers: nat, ps: seq<Poll>)
    requires 1 <= cfg.minWorkers <= cfg.maxWorkers
    ensures var p := Run(cfg, workers, ps).pool;
            && IsPrefix(p) && |p.slots| == Max(workers, cfg.maxWorkers)
            && Min(workers, cfg.minWorkers) <= p.count <= Max(workers, cfg.maxWorkers)
  {
    if ps == [] {
      SpawnedPrefix(EmptyPool(cfg, workers), workers);
    } else {
      var n := |ps| - 1;
      SizeStaysInRange(cfg, workers, ps[..n]);
      var p := Run(cfg, workers, ps[..n]).pool;
      SpawnPrefix(p, ps[n].Poll? && ps[n].created);
      DownPrefix(p);
    }
  }

  // ---------------------------------------------------------------------
  // Hysteresis
  // ---------------------------------------------------------------------

  function ActionAt(cfg: Config, workers: nat, ps: seq<Poll>, k: nat): Action
    requires k < |ps|
  {
    Decide(cfg, Run(cfg, workers, ps[..k]), ps[k])
  }

  // The clock is never at its zero, which the loop uses for "not idle".
  ghost predicate Ticking(ps: seq<Poll>) {
    forall k :: 0 <= k < |ps| && ps[k].Poll? ==> ps[k].now > 0 && ps[k].later > 0
  }

  // The idle window at the end of ps began with poll j: a scale-down or a first idle
  // poll, and since then no successful poll saw a backlog and the pool did not change.
  ghost predicate WindowFrom(cfg: Config, workers: nat, ps: seq<Poll>, j: nat, since: int) {
    && j < |ps| && ps[j].Poll? && ps[j].ready == 0
    && since == (if ActionAt(cfg, workers, ps, j) == GoDown then ps[j].later else ps[j].now)
    && ActionAt(cfg, workers, ps, j) != GoUp
    && forall k :: j < k < |ps| ==>
         ActionAt(cfg, workers, ps, k) == Stay && (ps[k].Poll? ==> ps[k].ready == 0)
  }

  lemma ActionAtFront(cfg: Config, workers: nat, ps: seq<Poll>, k: nat)
    requires k + 1 < |ps|
    ensures ActionAt(cfg, workers, ps[..|ps| - 1], k) == ActionAt(cfg, workers, ps, k)
  {
    assert ps[..|ps| - 1][..k] == ps[..k];
  }

  lemma {:induction false} IdleSinceIsWindow(cfg: Config, workers: nat, ps: seq<Poll>) returns (j: nat)
    requires Ticking(ps)
    ensures Run(cfg, workers, ps).idleSince != 0 ==>
              WindowFrom(cfg, workers, ps, j, Run(cfg, workers, ps).idleSince)
  {
    j := 0;
    if ps != [] {
      var n := |ps| - 1;
      var st, st' := Run(cfg, workers, ps[..n]), Run(cfg, workers, ps);
      assert ActionAt(cfg, workers, ps, n) == Decide(cfg, st, ps[n]);
      j := IdleSinceIsWindow(cfg, workers, ps[..n]);
      if st'.idleSince != 0 {
        if ActionAt(cfg, workers, ps, n) == GoDown || st.idleSince == 0 {
          j := n;
        } else {
          WindowGrows(cfg, workers, ps, j, st.idleSince);
        }
      }
    }
  }

  lemma WindowGrows(cfg: Config, workers: nat, ps: seq<Poll>, j: nat, since: int)
    requires ps != [] && WindowFrom(cfg, workers, ps[..|ps| - 1], j, since)
    requires ActionAt(cfg, workers, ps, |ps| - 1) == Stay
    requires ps[|ps| - 1].Poll? ==> ps[|ps| - 1].ready == 0
    ensures WindowFrom(cfg, workers, ps, j, since)
  {
    var n := |ps| - 1;
    ActionAtFront(cfg, workers, ps, j);
    forall k | j < k < |ps|
      ensures ActionAt(cfg, workers, ps, k) == Stay && (ps[k].Poll? ==> ps[k].ready == 0)
    {
      if k < n {
        ActionAtFront(cfg, workers, ps, k);
        assert ps[..n][k] == ps[k];
      }
    }
  }

  // Every scale-down ends an idle window of the configured length: since some poll j,
  // the later of the first idle poll and the previous scale-down, every successful
  // poll saw an empty queue and the pool kept its size.
  lemma ScaleDownFollowsIdleness(cfg: Config, workers: nat, ps: seq<Poll>, k: nat) returns (j: nat)
    requires Ticking(ps) && k < |ps| && ActionAt(cfg, workers, ps, k) == GoDown
    ensures j < k && ps[j].Poll? && ps[j].ready == 0
    ensures var since := if ActionAt(cfg, workers, ps, j) == GoDown then ps[j].later else ps[j].now;
            ps[k].now - since >= cfg.downIdleSec
    ensures forall i :: j < i < k ==> ActionAt(cfg, workers, ps, i) == Stay
    ensures forall i :: j <= i <= k ==> ps[i].Poll? ==> ps[i].ready == 0
  {
    j := IdleSinceIsWindow(cfg, workers, ps[..k]);
    var front := ps[..k];
    assert WindowFrom(cfg, workers, front, j, Run(cfg, workers, front).idleSince);
    forall i | j <= i < k
      ensures ActionAt(cfg, workers, front, i) == ActionAt(cfg, workers, ps, i) && front[i] == ps[i]
    {
      assert front[..i] == ps[..i];
    }
  }

  ghost predicate Monotone(ps: seq<Poll>) {
    && (forall k :: 0 <= k < |ps| && ps[k].Poll? ==> ps[k].now <= ps[k].later)
    && forall j, k :: 0 <= j < k < |ps| && ps[j].Poll? && ps[k].Poll? ==> ps[j].later <= ps[k].now
  }

  // With a clock that does not run back, any two scale-downs are an idle time apart.
  lemma ScaleDownsAreSpaced(cfg: Config, workers: nat, ps: seq<Poll>, i: nat, k: nat)
    requires Ticking(ps) && Monotone(ps) && i < k < |ps|
    requires ActionAt(cfg, workers, ps, i) == GoDown && ActionAt(cfg, workers, ps, k) == GoDown
    ensures ps[i].Poll? && ps[k].Poll? && ps[k].now - ps[i].later >= cfg.downIdleSec
  {
    var j := ScaleDownFollowsIdleness(cfg, workers, ps, k);
    assert i <= j;
  }

  // An empty queue is left alone at the minimum, and a backlog at the threshold is
  // answered at once below the maximum.
  lemma ReactsAtOnce(cfg: Config, workers: nat, ps: seq<Poll>, k: nat)
    requires 1 <= cfg.minWorkers <= cfg.maxWorkers && k < |ps| && ps[k].Poll?
    ensures var p, q := Run(cfg, workers, ps[..k]).pool, Run(cfg, workers, ps[..k + 1]).pool;
            && (p.count <= cfg.minWorkers ==> q.count >= p.count)
            && (ps[k].ready >= cfg.upBacklog && p.count < cfg.maxWorkers && ps[k].created ==> q.count == p.count + 1)
  {
    SizeStaysInRange(cfg, workers, ps[..k]);
    SpawnPrefix(Run(cfg, workers, ps[..k]).pool, ps[k].created);
    assert ps[..k + 1][..k] == ps[..k];
  }

  // ---------------------------------------------------------------------
  // What makes the pool grow and shrink, in its sizes
  // ---------------------------------------------------------------------

  // The workers when poll k is made.
  function SizeAt(cfg: Config, workers: nat, ps: seq<Poll>, k: nat): int
    requires k <= |ps|
  {
    Run(cfg, workers, ps[..k]).pool.count
  }

  lemma NextSize(cfg: Config, workers: nat, ps: seq<Poll>, k: nat)
    requires 1 <= cfg.minWorkers <= cfg.maxWorkers && k < |ps|
    ensures SizeAt(cfg, workers, ps, k + 1) - SizeAt(cfg, workers, ps, k)
            == match ActionAt(cfg, workers, ps, k)
               case GoUp => if ps[k].created then 1 else 0
               case GoDown => -1
               case Stay => 0
    ensures Run(cfg, workers, ps[..k + 1]) == Turn(cfg, Run(cfg, workers, ps[..k]), ps[k])
  {
    var p := Run(cfg, workers, ps[..k]).pool;
    SizeStaysInRange(cfg, workers, ps[..k]);
    SpawnPrefix(p, ps[k].Poll? && ps[k].created);
    DownPrefix(p);
    assert ps[..k + 1][..k] == ps[..k];
  }

  // The pool grows exactly at a poll that sees the threshold while the pool is below its
  // maximum, by the one thread it could create.
  lemma GrowsExactly(cfg: Config, workers: nat, ps: seq<Poll>, k: nat)
    requires 1 <= cfg.minWorkers <= cfg.maxWorkers && k < |ps|
    ensures var n, n' := SizeAt(cfg, workers, ps, k), SizeAt(cfg, workers, ps, k + 1);
            && n - 1 <= n' <= n + 1
            && (n' == n + 1 <==> ps[k].Poll? && ps[k].created && ps[k].ready >= cfg.upBacklog && n < cfg.maxWorkers)
  {
    NextSize(cfg, workers, ps, k);
  }

  // Poll j saw an empty queue, and until poll k every successful poll did and the pool
  // kept its size.
  ghost predicate QuietBetween(cfg: Config, workers: nat, ps: seq<Poll>, j: nat, k: nat) {
    && j < k < |ps| && ps[j].Poll? && ps[j].ready == 0
    && SizeAt(cfg, workers, ps, j + 1) <= SizeAt(cfg, workers, ps, j)
    && forall i :: j < i < k ==> QuietAt(cfg, workers, ps, i)
  }

  predicate QuietAt(cfg: Config, workers: nat, ps: seq<Poll>, i: nat)
    requires i < |ps|
  {
    && (ps[i].Poll? ==> ps[i].ready == 0)
    && SizeAt(cfg, workers, ps, i + 1) == SizeAt(cfg, workers, ps, i)
  }

  // From when the quiet counts: the end of the scale-down at poll j, or poll j.
  function QuietSince(cfg: Config, workers: nat, ps: seq<Poll>, j: nat): int
    requires j < |ps| && ps[j].Poll?
  {
    if SizeAt(cfg, workers, ps, j + 1) < SizeAt(cfg, workers, ps, j) then ps[j].later else ps[j].now
  }

  // Once the queue was empty for the configured time, an empty poll takes exactly one
  // worker away while there are more than the minimum.
  lemma QuietPoolShrinks(cfg: Config, workers: nat, ps: seq<Poll>, j: nat, k: nat)
    requires 1 <= cfg.minWorkers <= cfg.maxWorkers && cfg.upBacklog >= 1
    requires Ticking(ps) && Monotone(ps) && QuietBetween(cfg, workers, ps, j, k)
    requires ps[k].Poll? && ps[k].ready == 0 && SizeAt(cfg, workers, ps, k) > cfg.minWorkers
    requires ps[k].now - QuietSince(cfg, workers, ps, j) >= cfg.downIdleSec
    ensures SizeAt(cfg, workers, ps, k + 1) == SizeAt(cfg, workers, ps, k) - 1
  {
    QuietKeepsMark(cfg, workers, ps, j, k);
    NextSize(cfg, workers, ps, k);
  }

  // The idle mark set by poll k at the latest.
  ghost predicate MarkedBy(cfg: Config, workers: nat, ps: seq<Poll>, j: nat, k: nat)
    requires j < k <= |ps| && ps[j].Poll?
  {
    && Run(cfg, workers, ps[..k]).idleSince != 0
    && Run(cfg, workers, ps[..k]).idleSince <= QuietSince(cfg, workers, ps, j)
  }

  lemma {:induction false} QuietKeepsMark(cfg: Config, workers: nat, ps: seq<Poll>, j: nat, k: nat)
    requires 1 <= cfg.minWorkers <= cfg.maxWorkers && cfg.upBacklog >= 1
    requires Ticking(ps) && Monotone(ps) && QuietBetween(cfg, workers, ps, j, k)
    requires SizeAt(cfg, workers, ps, k) > cfg.minWorkers
    ensures MarkedBy(cfg, workers, ps, j, k)
  {
    if k == j + 1 {
      FirstMark(cfg, workers, ps, j);
    } else {
      assert QuietAt(cfg, workers, ps, k - 1);
      QuietKeepsMark(cfg, workers, ps, j, k - 1);
      NextSize(cfg, workers, ps, k - 1);
    }
  }

  lemma FirstMark(cfg: Config, workers: nat, ps: seq<Poll>, j: nat)
    requires 1 <= cfg.minWorkers <= cfg.maxWorkers && cfg.upBacklog >= 1
    requires Ticking(ps) && Monotone(ps) && j < |ps| && ps[j].Poll? && ps[j].ready == 0
    requires SizeAt(cfg, workers, ps, j + 1) > cfg.minWorkers
    ensures MarkedBy(cfg, workers, ps, j, j + 1)
  {
    var before := ps[..j];
    NextSize(cfg, workers, ps, j);
    var at := IdleSinceIsWindow(cfg, workers, before);
    if Run(cfg, workers, before).idleSince != 0 {
      assert WindowFrom(cfg, workers, before, at, Run(cfg, workers, before).idleSince);
      assert before[at] == ps[at] && ps[at].later <= ps[j].now && ps[at].now <= ps[at].later;
    }
  }
}
