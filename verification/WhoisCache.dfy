/** nta_whois_lookup of nta_whois.c: a cache whose lock is released around the query,
    over every interleaving of concurrent lookups. */
module WhoisCache {
  import opened Wrappers
  import opened Chains

  const BUCKETS: nat := 2048
  const NEGATIVE_TTL: int := 300
  const DEFAULT_TTL: int := 86400

  datatype Info = Info(org: string, country: string, netname: string, hasData: bool)

  datatype Record = Record(info: Info, expires: int)

  const NO_INFO := Info("", "", "", false)

  // The configured lifetime; anything not positive means a day.
  function EffectiveTtl(configured: int): (ttl: int)
    ensures ttl > 0 && (configured > 0 ==> ttl == configured) && (configured <= 0 ==> ttl == 86400)
  {
    if configured > 0 then configured else DEFAULT_TTL
  }

  // What a lookup begun at `began` stores once its queries have given info.
  function RecordOf(ttl: int, info: Info, began: int): Record {
    Record(info, began + (if info.hasData then ttl else NEGATIVE_TTL))
  }

  // cache_get_locked.
  function Cached(cache: Buckets<Record>, ip: Key, now: int): Option<Info>
    requires |cache| > 0
  {
    match Lookup(cache, ip)
    case None => None
    case Some(r) => if r.expires < now then None else Some(r.info)
  }

  // The two critical sections of a lookup.
  class Whois {
    const ttl: int
    const cache: Table<Record>

    constructor (configuredTtl: int)
      ensures ttl == EffectiveTtl(configuredTtl)
      ensures fresh(cache) && fresh(cache.buckets) && cache.buckets[..] == Empty<Record>(BUCKETS)
    {
      ttl := EffectiveTtl(configuredTtl);
      cache := new Table<Record>(BUCKETS);
    }

    method TryCache(ip: Key, now: int) returns (info: Option<Info>)
      requires cache.buckets.Length == BUCKETS
      ensures info == Cached(cache.buckets[..], ip, now)
    {
      var r := cache.Get(ip);
      if r.None? || r.value.expires < now { return None; }
      return Some(r.value.info);
    }

    method Remember(ip: Key, info: Info, began: int)
      requires cache.buckets.Length == BUCKETS
      modifies cache.buckets
      ensures cache.buckets[..] == Put(old(cache.buckets[..]), ip, RecordOf(ttl, info, began))
    {
      var expires := if info.hasData then began + ttl else began + NEGATIVE_TTL;
      cache.Store(ip, Record(info, expires));
    }
  }

  // ---------------------------------------------------------------------
  // Interleavings
  // ---------------------------------------------------------------------

  // A thread between lookups, or past its miss with the lock released.
  datatype Thread = Idle | Querying(ip: Key, began: int)

  datatype State = State(cache: Buckets<Record>, threads: seq<Thread>)

  // A thread enters with an address and the clock, or comes back with the answer of
  // the WHOIS servers.
  datatype Step = Begin(tid: nat, ip: Key, now: int) | Finish(tid: nat, info: Info)

  predicate IsReady(st: State, s: Step) {
    s.tid < |st.threads| && (s.Begin? <==> st.threads[s.tid].Idle?)
  }

  // One critical section; a thread that is not ready for it does nothing.
  function Apply(ttl: int, st: State, s: Step): State
    requires |st.cache| > 0
  {
    if !IsReady(st, s) then st
    else match s
      case Begin(tid, ip, now) =>
        if IsPrivate(ip) || Cached(st.cache, ip, now).Some? then st
        else st.(threads := st.threads[tid := Querying(ip, now)])
      case Finish(tid, info) =>
        var t := st.threads[tid];
        State(Put(st.cache, t.ip, RecordOf(ttl, info, t.began)), st.threads[tid := Idle])
  }

  // What the lookup returns with this step, if it returns.
  function Answer(st: State, s: Step): Option<Info>
    requires |st.cache| > 0 && IsReady(st, s)
  {
    match s
    case Begin(_, ip, now) => if IsPrivate(ip) then Some(NO_INFO) else Cached(st.cache, ip, now)
    case Finish(_, info) => Some(info)
  }

  function Run(ttl: int, n: nat, steps: seq<Step>): (st: State)
    ensures |st.cache| == BUCKETS
  {
    if steps == [] then State(Empty(BUCKETS), seq(n, _ => Idle))
    else Apply(ttl, Run(ttl, n, steps[..|steps| - 1]), steps[|steps| - 1])
  }

  // The last query for ip that finished, in the order of the second critical sections:
  // what it found and when its lookup began.
  datatype Found = Found(info: Info, began: int)

  function LastFound(ttl: int, n: nat, steps: seq<Step>, ip: Key): Option<Found> {
    if steps == [] then None
    else
      var before, s := steps[..|steps| - 1], steps[|steps| - 1];
      var st := Run(ttl, n, before);
      if s.Finish? && IsReady(st, s) && st.threads[s.tid].ip == ip
      then Some(Found(s.info, st.threads[s.tid].began))
      else LastFound(ttl, n, before, ip)
  }

  // The record it left.
  function LastStored(ttl: int, n: nat, steps: seq<Step>, ip: Key): Option<Record> {
    match LastFound(ttl, n, steps, ip)
    case None => None
    case Some(f) => Some(RecordOf(ttl, f.info, f.began))
  }

  // However the lookups interleave, the table stays a map with at most one entry for
  // an address, and that entry is the last one stored.
  lemma {:induction false} HoldsLastStored(ttl: int, n: nat, steps: seq<Step>, ip: Key)
    requires |ip| < KEY_MAX
    ensures IsTable(Run(ttl, n, steps).cache)
    ensures Lookup(Run(ttl, n, steps).cache, ip) == LastStored(ttl, n, steps, ip)
  {
    if steps == [] {
      EmptyIsTable<Record>(BUCKETS);
    } else {
      var before, s := steps[..|steps| - 1], steps[|steps| - 1];
      HoldsLastStored(ttl, n, before, ip);
      var st := Run(ttl, n, before);
      if s.Finish? && IsReady(st, s) {
        var t := st.threads[s.tid];
        PutLookup(st.cache, t.ip, RecordOf(ttl, s.info, t.began), ip);
      }
    }
  }

  // A lookup is answered at once with what the last query for its address found, exactly
  // while that is at most ttl seconds old if it found data and 300 seconds if it did
  // not; otherwise the thread goes out to query.
  lemma ReadsLastStored(ttl: int, n: nat, steps: seq<Step>, s: Step)
    requires s.Begin? && IsReady(Run(ttl, n, steps), s) && !IsPrivate(s.ip) && |s.ip| < 46
    ensures var last := LastFound(ttl, n, steps, s.ip);
            var st := Run(ttl, n, steps);
            && (last.None? ==> Answer(st, s) == None)
            && (last.Some? && last.value.info.hasData ==>
                  Answer(st, s) == if s.now - last.value.began <= ttl then Some(last.value.info) else None)
            && (last.Some? && !last.value.info.hasData ==>
                  Answer(st, s) == if s.now - last.value.began <= 300 then Some(last.value.info) else None)
            && (Answer(st, s).None? <==> Apply(ttl, st, s).threads[s.tid] == Querying(s.ip, s.now))
  {
    HoldsLastStored(ttl, n, steps, s.ip);
  }

  // A private address is answered with nothing, at once, and leaves no trace.
  lemma PrivateIsNeverQueried(ttl: int, n: nat, steps: seq<Step>, s: Step)
    requires s.Begin? && IsReady(Run(ttl, n, steps), s) && IsPrivate(s.ip)
    ensures Answer(Run(ttl, n, steps), s) == Some(Info("", "", "", false))
    ensures Run(ttl, n, steps + [s]) == Run(ttl, n, steps)
  {
    assert (steps + [s])[..|steps|] == steps;
  }

  // A thread returns from its query with the record of the address it asked about.
  lemma FinishStores(ttl: int, n: nat, steps: seq<Step>, s: Step)
    requires s.Finish? && IsReady(Run(ttl, n, steps), s)
    ensures var t := Run(ttl, n, steps).threads[s.tid];
            LastFound(ttl, n, steps + [s], t.ip) == Some(Found(s.info, t.began))
  {
    assert (steps + [s])[..|steps|] == steps;
  }

  // The last to finish wins, not the last to begin: a slow query replaces the record
  // of one that began after it.
  lemma SlowQueryWins(ttl: int, ip: Key, t: int, u: int, a: Info, b: Info)
    requires !IsPrivate(ip) && |ip| < KEY_MAX
    ensures var steps := [Begin(0, ip, t), Begin(1, ip, u), Finish(1, b), Finish(0, a)];
            LastFound(ttl, 2, steps, ip) == Some(Found(a, t))
  {
    var s1, s2, s3, s4 := Begin(0, ip, t), Begin(1, ip, u), Finish(1, b), Finish(0, a);
    MissQueries(ttl, [], s1);
    assert [] + [s1] == [s1];
    MissQueries(ttl, [s1], s2);
    assert [s1] + [s2] == [s1, s2];
    FinishKeepsOthers(ttl, [s1, s2], s3);
    assert [s1, s2] + [s3] == [s1, s2, s3];
    FinishStores(ttl, 2, [s1, s2, s3], s4);
    assert [s1, s2, s3] + [s4] == [s1, s2, s3, s4];
  }

  lemma MissQueries(ttl: int, steps: seq<Step>, s: Step)
    requires s.Begin? && !IsPrivate(s.ip) && |s.ip| < KEY_MAX
    requires IsReady(Run(ttl, 2, steps), s) && LastFound(ttl, 2, steps, s.ip) == None
    ensures Run(ttl, 2, steps + [s]).threads == Run(ttl, 2, steps).threads[s.tid := Querying(s.ip, s.now)]
    ensures LastFound(ttl, 2, steps + [s], s.ip) == None
  {
    assert (steps + [s])[..|steps|] == steps;
    HoldsLastStored(ttl, 2, steps, s.ip);
  }

  lemma FinishKeepsOthers(ttl: int, steps: seq<Step>, s: Step)
    requires s.Finish? && IsReady(Run(ttl, 2, steps), s)
    ensures Run(ttl, 2, steps + [s]).threads == Run(ttl, 2, steps).threads[s.tid := Idle]
  {
    assert (steps + [s])[..|steps|] == steps;
  }
}
