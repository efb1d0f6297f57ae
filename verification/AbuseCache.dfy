/** nta_abuse_score of nta_abuse.c: the AbuseIPDB cache, what it answers, and how often
    it lets the API be queried. */
module AbuseCache {
  import opened Wrappers
  import opened Chains
  import Words

  const BUCKETS: nat := 4096

  // A cached score, -1 for a failed query.
  datatype Rating = Rating(score: int, expires: int)

  datatype Config = Config(ttl: int, negTtl: int)

  // One call: the address, the clock, and what the API would answer if asked.
  datatype Request = Request(ip: Key, now: int, answer: int)

  datatype Reply = Reply(cache: Buckets<Rating>, score: int, queried: bool)

  function Lifetime(cfg: Config, score: int): int {
    if score >= 0 then cfg.ttl else cfg.negTtl
  }

  // cache_get_locked: an expired entry is a miss.
  function Cached(cache: Buckets<Rating>, ip: Key, now: int): Option<int>
    requires |cache| > 0
  {
    match Lookup(cache, ip)
    case None => None
    case Some(r) => if r.expires < now then None else Some(r.score)
  }

  function Serve(cfg: Config, cache: Buckets<Rating>, r: Request): Reply
    requires |cache| > 0
  {
    if IsPrivate(r.ip) then Reply(cache, -1, false)
    else
      match Cached(cache, r.ip, r.now)
      case Some(score) => Reply(cache, score, false)
      case None =>
        Reply(Put(cache, r.ip, Rating(r.answer, r.now + Lifetime(cfg, r.answer))), r.answer, true)
  }

  class Abuse {
    const cfg: Config
    const cache: Table<Rating>

    constructor (cfg: Config)
      ensures this.cfg == cfg && fresh(cache) && fresh(cache.buckets)
      ensures cache.buckets[..] == Empty<Rating>(BUCKETS)
    {
      this.cfg := cfg;
      cache := new Table<Rating>(BUCKETS);
    }

    // nta_abuse_score; the mutex is held from the look into the cache to the store.
    method Score(ip: Key, now: int, answer: int) returns (score: int, queried: bool)
      requires cache.buckets.Length == BUCKETS
      modifies cache.buckets
      ensures Reply(cache.buckets[..], score, queried) == Serve(cfg, old(cache.buckets[..]), Request(ip, now, answer))
    {
      if IsPrivate(ip) { return -1, false; }
      var r := cache.Get(ip);
      if r.Some? && r.value.expires >= now { return r.value.score, false; }
      score, queried := answer, true;
      var expires := if score >= 0 then now + cfg.ttl else now + cfg.negTtl;
      cache.Store(ip, Rating(score, expires));
    }
  }

  // ---------------------------------------------------------------------
  // Runs
  // ---------------------------------------------------------------------

  function Run(cfg: Config, rs: seq<Request>): (cache: Buckets<Rating>)
    ensures |cache| == BUCKETS
  {
    if rs == [] then Empty(BUCKETS) else Serve(cfg, Run(cfg, rs[..|rs| - 1]), rs[|rs| - 1]).cache
  }

  // Whether request k asks the API.
  predicate QueriedAt(cfg: Config, rs: seq<Request>, k: nat)
    requires k < |rs|
  {
    Serve(cfg, Run(cfg, rs[..k]), rs[k]).queried
  }

  // The requests that asked the API about ip, in order.
  function Queries(cfg: Config, rs: seq<Request>, ip: Key): seq<nat> {
    if rs == [] then []
    else
      var n := |rs| - 1;
      var qs := Queries(cfg, rs[..n], ip);
      if rs[n].ip == ip && QueriedAt(cfg, rs, n) then qs + [n] else qs
  }

  predicate IsCacheable(ip: Key) {
    !IsPrivate(ip) && |ip| < KEY_MAX
  }

  // What the answer to request k leaves in the cache.
  function Stored(cfg: Config, r: Request): Rating {
    Rating(r.answer, r.now + Lifetime(cfg, r.answer))
  }

  ghost predicate IsSound(cfg: Config, rs: seq<Request>, ip: Key, qs: seq<nat>) {
    && (forall i :: 0 <= i < |qs| ==> qs[i] < |rs| && rs[qs[i]].ip == ip && QueriedAt(cfg, rs, qs[i]))
    && forall i, j :: 0 <= i < j < |qs| ==> qs[i] < qs[j]
  }

  ghost predicate IsComplete(cfg: Config, rs: seq<Request>, ip: Key, qs: seq<nat>) {
    forall k :: 0 <= k < |rs| && rs[k].ip == ip && QueriedAt(cfg, rs, k) ==> k in qs
  }

  // Which requests asked the API about ip.
  function Asked(cfg: Config, rs: seq<Request>, ip: Key): (fs: seq<bool>)
    ensures |fs| == |rs|
  {
    seq(|rs|, k requires 0 <= k < |rs| => rs[k].ip == ip && QueriedAt(cfg, rs, k))
  }

  // qs lists the positions that are set, in order.
  ghost predicate Lists(fs: seq<bool>, qs: seq<nat>) {
    && (forall i :: 0 <= i < |qs| ==> qs[i] < |fs| && fs[qs[i]])
    && (forall i, j :: 0 <= i < j < |qs| ==> qs[i] < qs[j])
    && (forall k :: 0 <= k < |fs| && fs[k] ==> k in qs)
  }

  lemma ListsNext(fs: seq<bool>, qs: seq<nat>, b: bool)
    requires Lists(fs, qs)
    ensures Lists(fs + [b], if b then qs + [|fs|] else qs)
  {
    assert forall k :: k in qs + [|fs|] <==> k in qs || k == |fs|;
  }

  lemma AskedNext(cfg: Config, rs: seq<Request>, ip: Key)
    requires rs != []
    ensures var n := |rs| - 1;
            Asked(cfg, rs, ip) == Asked(cfg, rs[..n], ip) + [rs[n].ip == ip && QueriedAt(cfg, rs, n)]
  {
    var n := |rs| - 1;
    var fs, gs := Asked(cfg, rs, ip), Asked(cfg, rs[..n], ip);
    forall k | 0 <= k < n ensures fs[k] == gs[k] {
      QueriedBefore(cfg, rs, k);
    }
    ExtendsBy(fs, gs);
  }

  lemma ExtendsBy(fs: seq<bool>, gs: seq<bool>)
    requires |fs| == |gs| + 1 && forall k :: 0 <= k < |gs| ==> fs[k] == gs[k]
    ensures fs == gs + [fs[|gs|]]
  {
  }

  lemma QueriedBefore(cfg: Config, rs: seq<Request>, k: nat)
    requires k + 1 < |rs|
    ensures QueriedAt(cfg, rs[..|rs| - 1], k) == QueriedAt(cfg, rs, k)
  {
    assert rs[..|rs| - 1][..k] == rs[..k];
  }

  lemma {:induction false} QueriesListAsked(cfg: Config, rs: seq<Request>, ip: Key)
    ensures Lists(Asked(cfg, rs, ip), Queries(cfg, rs, ip))
  {
    if rs != [] {
      var n := |rs| - 1;
      QueriesListAsked(cfg, rs[..n], ip);
      AskedNext(cfg, rs, ip);
      ListsNext(Asked(cfg, rs[..n], ip), Queries(cfg, rs[..n], ip), rs[n].ip == ip && QueriedAt(cfg, rs, n));
    }
  }

  // Queries lists exactly the requests for ip that asked the API, in order.
  lemma QueriesAreSound(cfg: Config, rs: seq<Request>, ip: Key)
    ensures IsSound(cfg, rs, ip, Queries(cfg, rs, ip))
    ensures IsComplete(cfg, rs, ip, Queries(cfg, rs, ip))
  {
    QueriesListAsked(cfg, rs, ip);
    var fs := Asked(cfg, rs, ip);
    assert forall k :: 0 <= k < |rs| ==> fs[k] == (rs[k].ip == ip && QueriedAt(cfg, rs, k));
  }

  lemma ServeLookup(cfg: Config, cache: Buckets<Rating>, r: Request, ip: Key)
    requires IsTable(cache)
    ensures var reply := Serve(cfg, cache, r);
            && IsTable(reply.cache)
            && Lookup(reply.cache, ip)
               == if reply.queried && r.ip == ip && |ip| < KEY_MAX then Some(Stored(cfg, r)) else Lookup(cache, ip)
  {
    if Serve(cfg, cache, r).queried { StoreLookup(cfg, cache, r, ip); }
  }

  lemma StoreLookup(cfg: Config, cache: Buckets<Rating>, r: Request, ip: Key)
    requires IsTable(cache)
    ensures var after := Put(cache, r.ip, Stored(cfg, r));
            && IsTable(after)
            && Lookup(after, ip) == if r.ip == ip && |ip| < KEY_MAX then Some(Stored(cfg, r)) else Lookup(cache, ip)
  {
    PutLookup(cache, r.ip, Stored(cfg, r), ip);
  }

  // The answer to the last query for ip.
  function Latest(cfg: Config, rs: seq<Request>, ip: Key): Option<Rating> {
    if rs == [] then None
    else
      var n := |rs| - 1;
      if rs[n].ip == ip && QueriedAt(cfg, rs, n) then Some(Stored(cfg, rs[n])) else Latest(cfg, rs[..n], ip)
  }

  lemma {:induction false} LatestIsLastQuery(cfg: Config, rs: seq<Request>, ip: Key)
    ensures var qs := Queries(cfg, rs, ip);
            && (qs == [] ==> Latest(cfg, rs, ip) == None)
            && (qs != [] ==> var k := qs[|qs| - 1]; k < |rs| && Latest(cfg, rs, ip) == Some(Stored(cfg, rs[k])))
  {
    if rs != [] {
      var n := |rs| - 1;
      LatestIsLastQuery(cfg, rs[..n], ip);
      var before := Queries(cfg, rs[..n], ip);
      assert Queries(cfg, rs, ip) == if rs[n].ip == ip && QueriedAt(cfg, rs, n) then before + [n] else before;
    }
  }

  lemma {:induction false} HoldsLatest(cfg: Config, rs: seq<Request>, ip: Key)
    requires IsCacheable(ip)
    ensures IsTable(Run(cfg, rs)) && Lookup(Run(cfg, rs), ip) == Latest(cfg, rs, ip)
  {
    if rs == [] {
      EmptyIsTable<Rating>(BUCKETS);
    } else {
      var n := |rs| - 1;
      HoldsLatest(cfg, rs[..n], ip);
      ServeLookup(cfg, Run(cfg, rs[..n]), rs[n], ip);
      assert Run(cfg, rs) == Serve(cfg, Run(cfg, rs[..n]), rs[n]).cache;
    }
  }

  // The entry an answer leaves, in the configured lifetimes.
  function EntryFor(ttl: int, negTtl: int, answer: int, now: int): Rating {
    Rating(answer, now + (if answer >= 0 then ttl else negTtl))
  }

  lemma StoredIsEntry(cfg: Config, r: Request)
    ensures Stored(cfg, r) == EntryFor(cfg.ttl, cfg.negTtl, r.answer, r.now)
  {
  }

  // The cache is a map: it holds, for each address ever queried, the answer to its
  // last query, with the lifetime configured for its kind.
  lemma HoldsLastAnswer(cfg: Config, rs: seq<Request>, ip: Key)
    requires IsCacheable(ip)
    ensures IsTable(Run(cfg, rs))
    ensures IsSound(cfg, rs, ip, Queries(cfg, rs, ip))
    ensures Queries(cfg, rs, ip) == [] ==> Lookup(Run(cfg, rs), ip) == None
    ensures Queries(cfg, rs, ip) != [] ==>
              Lookup(Run(cfg, rs), ip)
              == Some(EntryFor(cfg.ttl, cfg.negTtl, LastQuery(cfg, rs, ip).answer, LastQuery(cfg, rs, ip).now))
  {
    QueriesAreSound(cfg, rs, ip);
    HoldsLatest(cfg, rs, ip);
    LatestIsLastQuery(cfg, rs, ip);
    if Queries(cfg, rs, ip) != [] { StoredIsEntry(cfg, LastQuery(cfg, rs, ip)); }
  }

  function LastQuery(cfg: Config, rs: seq<Request>, ip: Key): Request
    requires Queries(cfg, rs, ip) != [] && Queries(cfg, rs, ip)[|Queries(cfg, rs, ip)| - 1] < |rs|
  {
    rs[Queries(cfg, rs, ip)[|Queries(cfg, rs, ip)| - 1]]
  }

  // A call for an address asks the API exactly if it never did, or more than the
  // configured lifetime of the last answer (ttl for a score, negTtl for a failure) has
  // passed; otherwise it is served that answer.
  lemma ServesLastAnswer(cfg: Config, rs: seq<Request>, r: Request)
    requires IsCacheable(r.ip)
    ensures IsSound(cfg, rs, r.ip, Queries(cfg, rs, r.ip))
    ensures var reply := Serve(cfg, Run(cfg, rs), r);
            if Queries(cfg, rs, r.ip) == [] then reply.queried && reply.score == r.answer
            else
              var last := LastQuery(cfg, rs, r.ip);
              && (last.answer >= 0 ==> (reply.queried <==> r.now - last.now > cfg.ttl))
              && (last.answer < 0 ==> (reply.queried <==> r.now - last.now > cfg.negTtl))
              && reply.score == if reply.queried then r.answer else last.answer
  {
    HoldsLastAnswer(cfg, rs, r.ip);
  }

  // A private address is answered -1 without asking or storing anything.
  lemma PrivateIsNeverAsked(cfg: Config, rs: seq<Request>, r: Request)
    requires IsPrivate(r.ip)
    ensures Serve(cfg, Run(cfg, rs), r) == Reply(Run(cfg, rs), -1, false)
  {
  }

  // ---------------------------------------------------------------------
  // Spacing of queries
  // ---------------------------------------------------------------------

  // Query i + 1 for an address comes after the answer to query i has expired.
  lemma {:induction false} NextQueryAfterExpiry(cfg: Config, rs: seq<Request>, ip: Key, i: nat)
    requires IsCacheable(ip) && i + 1 < |Queries(cfg, rs, ip)|
    ensures var qs := Queries(cfg, rs, ip);
            && qs[i] < |rs| && qs[i + 1] < |rs|
            && (rs[qs[i]].answer >= 0 ==> rs[qs[i + 1]].now - rs[qs[i]].now > cfg.ttl)
            && (rs[qs[i]].answer < 0 ==> rs[qs[i + 1]].now - rs[qs[i]].now > cfg.negTtl)
  {
    var n := |rs| - 1;
    var qs, before := Queries(cfg, rs, ip), Queries(cfg, rs[..n], ip);
    HoldsLastAnswer(cfg, rs[..n], ip);
    if i + 1 < |before| {
      NextQueryAfterExpiry(cfg, rs[..n], ip, i);
    } else {
      assert qs == before + [n];
      assert QueriedAt(cfg, rs, n);
    }
  }

  // When query number i for ip was made.
  function QueryTime(cfg: Config, rs: seq<Request>, ip: Key, i: nat): int
    requires i < |Queries(cfg, rs, ip)| && Queries(cfg, rs, ip)[i] < |rs|
  {
    rs[Queries(cfg, rs, ip)[i]].now
  }

  // Times whose neighbours are at least d apart.
  ghost predicate Gaps(ts: seq<int>, d: int) {
    forall i: nat :: i + 1 < |ts| ==> GapAt(ts, d, i)
  }

  ghost predicate GapAt(ts: seq<int>, d: int, i: nat)
    requires i + 1 < |ts|
  {
    ts[i + 1] - ts[i] >= d
  }

  lemma {:induction false} GapsAddUp(ts: seq<int>, d: int, i: nat, j: nat)
    requires Gaps(ts, d) && d >= 0 && i <= j < |ts|
    ensures ts[j] - ts[i] >= (j - i) * d >= 0
  {
    if i < j {
      GapsAddUp(ts, d, i, j - 1);
      assert GapAt(ts, d, j - 1);
      OneMore(j - 1 - i, d);
    }
  }

  lemma OneMore(k: nat, d: int)
    requires d >= 0
    ensures (k + 1) * d == k * d + d >= 0
  {
  }

  function QueryTimes(cfg: Config, rs: seq<Request>, ip: Key): (ts: seq<int>)
    requires IsSound(cfg, rs, ip, Queries(cfg, rs, ip))
    ensures |ts| == |Queries(cfg, rs, ip)|
  {
    seq(|Queries(cfg, rs, ip)|, i requires 0 <= i < |Queries(cfg, rs, ip)| => QueryTime(cfg, rs, ip, i))
  }

  lemma QueriesHaveGaps(cfg: Config, rs: seq<Request>, ip: Key)
    requires IsCacheable(ip) && IsSound(cfg, rs, ip, Queries(cfg, rs, ip))
    ensures Gaps(QueryTimes(cfg, rs, ip), ShortLife(cfg) + 1)
  {
    var ts := QueryTimes(cfg, rs, ip);
    var d := ShortLife(cfg) + 1;
    forall i: nat | i + 1 < |ts|
      ensures GapAt(ts, d, i)
    {
      NextQueryAfterExpiry(cfg, rs, ip, i);
    }
  }

  lemma QueriesSpan(cfg: Config, rs: seq<Request>, ip: Key, i: nat, j: nat)
    requires IsCacheable(ip) && i <= j < |Queries(cfg, rs, ip)|
    requires cfg.ttl >= 0 && cfg.negTtl >= 0
    ensures Queries(cfg, rs, ip)[i] < |rs| && Queries(cfg, rs, ip)[j] < |rs|
    ensures QueryTime(cfg, rs, ip, j) - QueryTime(cfg, rs, ip, i) >= (j - i) * (ShortLife(cfg) + 1) >= 0
  {
    QueriesAreSound(cfg, rs, ip);
    QueriesHaveGaps(cfg, rs, ip);
    GapsAddUp(QueryTimes(cfg, rs, ip), ShortLife(cfg) + 1, i, j);
  }

  // Any two queries for an address are more than cfg.ttl apart if the earlier one got a
  // score and more than cfg.negTtl if it failed, and k queries span at least k - 1 times
  // the shorter lifetime plus one.
  lemma QuerySpacing(cfg: Config, rs: seq<Request>, ip: Key, i: nat, j: nat)
    requires IsCacheable(ip) && i < j < |Queries(cfg, rs, ip)|
    requires cfg.ttl >= 0 && cfg.negTtl >= 0
    ensures var qs := Queries(cfg, rs, ip);
            && qs[i] < |rs| && qs[j] < |rs|
            && (rs[qs[i]].answer >= 0 ==> QueryTime(cfg, rs, ip, j) - QueryTime(cfg, rs, ip, i) > cfg.ttl)
            && (rs[qs[i]].answer < 0 ==> QueryTime(cfg, rs, ip, j) - QueryTime(cfg, rs, ip, i) > cfg.negTtl)
            && QueryTime(cfg, rs, ip, j) - QueryTime(cfg, rs, ip, i) >= (j - i) * (ShortLife(cfg) + 1)
  {
    QueriesSpan(cfg, rs, ip, i, j);
    QueriesSpan(cfg, rs, ip, i + 1, j);
    NextQueryAfterExpiry(cfg, rs, ip, i);
  }

  function ShortLife(cfg: Config): int {
    if cfg.ttl < cfg.negTtl then cfg.ttl else cfg.negTtl
  }

  // At most 1 + T / (shorter lifetime + 1) queries for an address in T seconds.
  lemma QueryBudget(cfg: Config, rs: seq<Request>, ip: Key, i: nat, j: nat, T: nat)
    requires IsCacheable(ip) && i <= j < |Queries(cfg, rs, ip)|
    requires cfg.ttl >= 0 && cfg.negTtl >= 0
    requires var qs := Queries(cfg, rs, ip);
             qs[i] < |rs| && qs[j] < |rs| && QueryTime(cfg, rs, ip, j) - QueryTime(cfg, rs, ip, i) <= T
    ensures j - i + 1 <= 1 + T / (ShortLife(cfg) + 1)
  {
    if i < j {
      var k, d := j - i, ShortLife(cfg) + 1;
      QuerySpacing(cfg, rs, ip, i, j);
      assert k * d <= T;
      Divided(k, d, T);
    }
  }

  lemma Divided(k: nat, d: nat, T: nat)
    requires d > 0 && k * d <= T
    ensures k <= T / d
  {
    assert T == T / d * d + T % d;
    if k > T / d {
      Words.MulMonotone(T / d + 1, k, d);
    }
  }

  // An address too long for a cache key is queried on every request.
  lemma LongKeysAlwaysQuery(cfg: Config, rs: seq<Request>, r: Request)
    requires !IsPrivate(r.ip) && |r.ip| >= 46
    ensures Serve(cfg, Run(cfg, rs), r).queried
  {
    NeverStored(cfg, rs, r.ip);
  }

  lemma {:induction false} NeverStored(cfg: Config, rs: seq<Request>, ip: Key)
    requires |ip| >= KEY_MAX
    ensures IsTable(Run(cfg, rs)) && Lookup(Run(cfg, rs), ip) == None
  {
    if rs == [] {
      EmptyIsTable<Rating>(BUCKETS);
    } else {
      var n := |rs| - 1;
      NeverStored(cfg, rs[..n], ip);
      ServeLookup(cfg, Run(cfg, rs[..n]), rs[n], ip);
    }
  }
}
