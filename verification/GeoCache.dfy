/** nta_geo_lookup of nta_geoip.c: a cache that is filled without looking again, over
    every interleaving of concurrent lookups. */
module GeoCache {
  import opened Wrappers
  import opened Chains

  const BUCKETS: nat := 4096
  const ASN_ORG_MAX: nat := 96

  datatype Geo = Geo(lat: real, lon: real, hasGeo: bool, asnNumber: nat, asnOrg: string, hasAsn: bool)

  const NO_GEO := Geo(0.0, 0.0, false, 0, "", false)

  datatype Place = Place(lat: real, lon: real)

  // The fields of an ASN entry that are present with the right type.
  datatype AsnData = AsnData(number: Option<nat>, org: Option<string>)

  // The two MaxMind databases; what they say of an address does not change.
  datatype Databases = Databases(
    cityOpen: bool, city: Key -> Option<Place>,
    asnOpen: bool, asn: Key -> AsnData)

  function CityOf(db: Databases, ip: Key, out: Geo): Geo {
    var place := db.city(ip);
    if !db.cityOpen || place.None? then out
    else out.(lat := place.value.lat, lon := place.value.lon, hasGeo := true)
  }

  function CutOrg(org: string): string {
    if |org| >= ASN_ORG_MAX then org[..ASN_ORG_MAX - 1] else org
  }

  function AsnOf(db: Databases, ip: Key, out: Geo): Geo {
    var d := db.asn(ip);
    if !db.asnOpen || (d.number.None? && d.org.None?) then out
    else out.(asnNumber := if d.number.Some? then d.number.value else out.asnNumber,
              asnOrg := if d.org.Some? then CutOrg(d.org.value) else out.asnOrg,
              hasAsn := true)
  }

  // What the two database lookups fill in without any cache.
  function Uncached(db: Databases, ip: Key): Geo {
    AsnOf(db, ip, CityOf(db, ip, NO_GEO))
  }

  // Field by field: coordinates if and only if the city database is open and knows them,
  // and the network's number and name (up to 95 characters) as far as the ASN database
  // is open and knows them.
  lemma UncachedTells(db: Databases, ip: Key)
    ensures var r, place, asn := Uncached(db, ip), db.city(ip), db.asn(ip);
            && (r.hasGeo <==> db.cityOpen && place.Some?)
            && (r.hasGeo ==> r.lat == place.value.lat && r.lon == place.value.lon)
            && (!r.hasGeo ==> r.lat == 0.0 && r.lon == 0.0)
            && (r.hasAsn <==> db.asnOpen && (asn.number.Some? || asn.org.Some?))
            && r.asnNumber == (if db.asnOpen && asn.number.Some? then asn.number.value else 0)
            && (db.asnOpen && asn.org.Some? ==> r.asnOrg <= asn.org.value && |r.asnOrg| <= 95
                                                && (|asn.org.value| <= 95 ==> r.asnOrg == asn.org.value)
                                                && (|asn.org.value| > 95 ==> |r.asnOrg| == 95))
            && (!(db.asnOpen && asn.org.Some?) ==> r.asnOrg == "")
  {
  }

  class GeoLookup {
    const db: Databases
    const cache: Table<Geo>

    constructor (db: Databases)
      ensures this.db == db && fresh(cache) && fresh(cache.buckets)
      ensures cache.buckets[..] == Empty<Geo>(BUCKETS)
    {
      this.db := db;
      cache := new Table<Geo>(BUCKETS);
    }

    // lookup_city and lookup_asn, field by field.
    method QueryDatabases(ip: Key) returns (out: Geo)
      ensures out == Uncached(db, ip)
    {
      out := NO_GEO;
      if db.cityOpen {
        var place := db.city(ip);
        if place.Some? {
          out := out.(lat := place.value.lat);
          out := out.(lon := place.value.lon);
          out := out.(hasGeo := true);
        }
      }
      if db.asnOpen {
        var d, got := db.asn(ip), false;
        if d.number.Some? {
          out := out.(asnNumber := d.number.value);
          got := true;
        }
        if d.org.Some? {
          out := out.(asnOrg := CutOrg(d.org.value));
          got := true;
        }
        if got { out := out.(hasAsn := true); }
      }
    }

    // cache_get and cache_put, each under the lock.
    method TryCache(ip: Key) returns (out: Option<Geo>)
      requires cache.buckets.Length == BUCKETS
      ensures out == Lookup(cache.buckets[..], ip)
    {
      out := cache.Get(ip);
    }

    method Remember(ip: Key, out: Geo)
      requires cache.buckets.Length == BUCKETS
      modifies cache.buckets
      ensures cache.buckets[..] == Push(old(cache.buckets[..]), ip, out)
    {
      cache.Prepend(ip, out);
    }
  }

  // ---------------------------------------------------------------------
  // Interleavings
  // ---------------------------------------------------------------------

  // A thread between lookups, or past its miss with the lock released.
  datatype Thread = Idle | Querying(ip: Key)

  datatype State = State(cache: Buckets<Geo>, threads: seq<Thread>)

  datatype Step = Begin(tid: nat, ip: Key) | Finish(tid: nat)

  predicate IsReady(st: State, s: Step) {
    s.tid < |st.threads| && (s.Begin? <==> st.threads[s.tid].Idle?)
  }

  // One critical section; a thread that is not ready for it does nothing.
  function Apply(db: Databases, st: State, s: Step): State
    requires |st.cache| > 0
  {
    if !IsReady(st, s) then st
    else match s
      case Begin(tid, ip) =>
        if IsPrivate(ip) || Lookup(st.cache, ip).Some? then st
        else st.(threads := st.threads[tid := Querying(ip)])
      case Finish(tid) =>
        var ip := st.threads[tid].ip;
        State(Push(st.cache, ip, Uncached(db, ip)), st.threads[tid := Idle])
  }

  // The address the lookup is about, and what it returns with this step, if it does.
  function Subject(st: State, s: Step): Key
    requires IsReady(st, s)
  {
    match s
    case Begin(_, ip) => ip
    case Finish(tid) => st.threads[tid].ip
  }

  function Answer(db: Databases, st: State, s: Step): Option<Geo>
    requires |st.cache| > 0 && IsReady(st, s)
  {
    match s
    case Begin(_, ip) => if IsPrivate(ip) then Some(NO_GEO) else Lookup(st.cache, ip)
    case Finish(tid) => Some(Uncached(db, st.threads[tid].ip))
  }

  function Run(db: Databases, n: nat, steps: seq<Step>): (st: State)
    ensures |st.cache| == BUCKETS && |st.threads| == n
  {
    if steps == [] then State(Empty(BUCKETS), seq(n, _ => Idle))
    else Apply(db, Run(db, n, steps[..|steps| - 1]), steps[|steps| - 1])
  }

  // Every entry, duplicate or not, is what the databases say.
  ghost predicate Agrees(db: Databases, chain: seq<Entry<Geo>>) {
    forall j :: 0 <= j < |chain| ==> chain[j].value == Uncached(db, chain[j].key)
  }

  ghost predicate Inv(db: Databases, st: State) {
    && |st.cache| > 0 && InBuckets(st.cache)
    && (forall i :: 0 <= i < |st.cache| ==> Agrees(db, st.cache[i]))
    && forall t :: 0 <= t < |st.threads| ==> st.threads[t].Querying? ==> !IsPrivate(st.threads[t].ip)
  }

  lemma ApplyKeepsInv(db: Databases, st: State, s: Step)
    requires Inv(db, st)
    ensures Inv(db, Apply(db, st, s))
  {
    if IsReady(st, s) && s.Finish? {
      var ip := st.threads[s.tid].ip;
      var b := Bucket(ip, |st.cache|);
      var pushed := [Entry(ip, Uncached(db, ip))] + st.cache[b];
      assert forall j :: 0 <= j < |pushed| ==>
          pushed[j] == if j == 0 then Entry(ip, Uncached(db, ip)) else st.cache[b][j - 1];
    }
  }

  lemma {:induction false} RunKeepsInv(db: Databases, n: nat, steps: seq<Step>)
    ensures Inv(db, Run(db, n, steps))
  {
    if steps != [] {
      RunKeepsInv(db, n, steps[..|steps| - 1]);
      ApplyKeepsInv(db, Run(db, n, steps[..|steps| - 1]), steps[|steps| - 1]);
    }
  }

  // Transparency: whenever a lookup returns, however it was interleaved with others,
  // it returns what the uncached database lookups give, and nothing for a private
  // address.
  lemma LookupIsTransparent(db: Databases, n: nat, steps: seq<Step>, s: Step)
    requires IsReady(Run(db, n, steps), s) && Answer(db, Run(db, n, steps), s).Some?
    ensures var ip := Subject(Run(db, n, steps), s);
            Answer(db, Run(db, n, steps), s).value
            == if IsPrivate(ip) then Geo(0.0, 0.0, false, 0, "", false) else Uncached(db, ip)
  {
    RunKeepsInv(db, n, steps);
  }

  // ---------------------------------------------------------------------
  // Duplicates
  // ---------------------------------------------------------------------

  function Copies(chain: seq<Entry<Geo>>, ip: Key): nat {
    if chain == [] then 0 else Copies(chain[1..], ip) + (if chain[0].key == ip then 1 else 0)
  }

  function Waiting(threads: seq<Thread>, ip: Key): nat {
    if threads == [] then 0
    else Waiting(threads[..|threads| - 1], ip) + (if threads[|threads| - 1] == Querying(ip) then 1 else 0)
  }

  lemma {:induction false} WaitingUpdate(threads: seq<Thread>, tid: nat, t: Thread, ip: Key)
    requires tid < |threads|
    ensures Waiting(threads[tid := t], ip)
            == Waiting(threads, ip) - (if threads[tid] == Querying(ip) then 1 else 0) + (if t == Querying(ip) then 1 else 0)
  {
    var n := |threads| - 1;
    var after := threads[tid := t];
    if tid == n {
      assert after[..n] == threads[..n];
    } else {
      assert after[..n] == threads[..n][tid := t];
      WaitingUpdate(threads[..n], tid, t, ip);
    }
  }

  lemma {:induction false} WaitingBound(threads: seq<Thread>, ip: Key)
    ensures Waiting(threads, ip) <= |threads|
    ensures (forall t :: 0 <= t < |threads| ==> threads[t] == Idle) ==> Waiting(threads, ip) == 0
  {
    if threads != [] { WaitingBound(threads[..|threads| - 1], ip); }
  }

  lemma {:induction false} FoundIfCopied(chain: seq<Entry<Geo>>, ip: Key)
    ensures Copies(chain, ip) > 0 <==> Find(chain, ip).Some?
  {
    if chain != [] {
      FoundIfCopied(chain[1..], ip);
      assert chain[0].key != ip ==> IndexIn(chain, ip) == 1 + IndexIn(chain[1..], ip);
    }
  }

  function CopiesOf(st: State, ip: Key): nat
    requires |st.cache| > 0
  {
    Copies(st.cache[Bucket(ip, |st.cache|)], ip)
  }

  // The race of the unlocked query is bounded: an address gets at most one entry for
  // each thread that was querying it when the first was stored, so never more than
  // there are threads.
  lemma {:induction false} DuplicatesAreBounded(db: Databases, n: nat, steps: seq<Step>, ip: Key)
    ensures var st := Run(db, n, steps);
            CopiesOf(st, ip) + Waiting(st.threads, ip) <= n
  {
    if steps == [] {
      WaitingBound(Run(db, n, steps).threads, ip);
    } else {
      var before := steps[..|steps| - 1];
      DuplicatesAreBounded(db, n, before, ip);
      CopiesStep(db, Run(db, n, before), steps[|steps| - 1], ip);
    }
  }

  lemma CopiesStep(db: Databases, st: State, s: Step, ip: Key)
    requires |st.cache| > 0 && CopiesOf(st, ip) + Waiting(st.threads, ip) <= |st.threads|
    ensures var st' := Apply(db, st, s);
            CopiesOf(st', ip) + Waiting(st'.threads, ip) <= |st.threads|
  {
    if IsReady(st, s) {
      match s
      case Begin(tid, key) =>
        WaitingUpdate(st.threads, tid, Querying(key), ip);
        FoundIfCopied(st.cache[Bucket(ip, |st.cache|)], ip);
        WaitingBound(st.threads[tid := Querying(key)], ip);
      case Finish(tid) =>
        WaitingUpdate(st.threads, tid, Idle, ip);
        var key := st.threads[tid].ip;
        var chain := st.cache[Bucket(key, |st.cache|)];
        assert ([Entry(key, Uncached(db, key))] + chain)[1..] == chain;
    }
  }

  // ---------------------------------------------------------------------
  // When the databases are queried
  // ---------------------------------------------------------------------

  // A query for ip has finished.
  predicate Finished(db: Databases, n: nat, steps: seq<Step>, ip: Key) {
    if steps == [] then false
    else
      var before, s := steps[..|steps| - 1], steps[|steps| - 1];
      var st := Run(db, n, before);
      (s.Finish? && IsReady(st, s) && st.threads[s.tid].ip == ip) || Finished(db, n, before, ip)
  }

  lemma {:induction false} KeepsFinished(db: Databases, n: nat, steps: seq<Step>, ip: Key)
    ensures Lookup(Run(db, n, steps).cache, ip).Some? <==> |ip| < 46 && Finished(db, n, steps, ip)
  {
    if steps == [] {
      EmptyIsTable<Geo>(BUCKETS);
    } else {
      var before, s := steps[..|steps| - 1], steps[|steps| - 1];
      KeepsFinished(db, n, before, ip);
      var st := Run(db, n, before);
      if IsReady(st, s) && s.Finish? {
        var key := st.threads[s.tid].ip;
        PushLookup(st.cache, key, Uncached(db, key), ip);
      }
    }
  }

  // A lookup is answered at once exactly for a private address and for one a query has
  // finished for whose text fits an entry; any other sends its thread to the databases.
  lemma QueriesExactly(db: Databases, n: nat, steps: seq<Step>, s: Step)
    requires s.Begin? && IsReady(Run(db, n, steps), s)
    ensures var st := Run(db, n, steps);
            var known := IsPrivate(s.ip) || (|s.ip| < 46 && Finished(db, n, steps, s.ip));
            && (Answer(db, st, s).Some? <==> known)
            && Run(db, n, steps + [s]) == if known then st else st.(threads := st.threads[s.tid := Querying(s.ip)])
  {
    KeepsFinished(db, n, steps, s.ip);
    assert (steps + [s])[..|steps|] == steps;
  }

  // The step sends a thread to the databases for ip.
  predicate Asks(db: Databases, st: State, s: Step, ip: Key)
    requires |st.cache| > 0
  {
    s.Begin? && s.ip == ip && IsReady(st, s) && Answer(db, st, s).None?
  }

  // How often a lookup of ip has gone to the databases.
  function Queries(db: Databases, n: nat, steps: seq<Step>, ip: Key): nat {
    if steps == [] then 0
    else
      var before, s := steps[..|steps| - 1], steps[|steps| - 1];
      var st := Run(db, n, before);
      Queries(db, n, before, ip) + (if Asks(db, st, s, ip) then 1 else 0)
  }

  lemma {:induction false} QueriesAccount(db: Databases, n: nat, steps: seq<Step>, ip: Key)
    requires |ip| < 46
    ensures var st := Run(db, n, steps);
            Queries(db, n, steps, ip) == CopiesOf(st, ip) + Waiting(st.threads, ip)
  {
    if steps == [] {
      WaitingBound(Run(db, n, steps).threads, ip);
    } else {
      var before := steps[..|steps| - 1];
      QueriesAccount(db, n, before, ip);
      AccountStep(db, Run(db, n, before), steps[|steps| - 1], ip);
    }
  }

  lemma PushCopies(bs: Buckets<Geo>, key: Key, v: Geo, ip: Key)
    requires |bs| > 0 && |ip| < 46
    ensures var b := Bucket(ip, |bs|);
            Copies(Push(bs, key, v)[b], ip) == Copies(bs[b], ip) + (if key == ip then 1 else 0)
  {
    var chain := bs[Bucket(key, |bs|)];
    assert ([Entry(key, v)] + chain)[1..] == chain;
  }

  lemma AccountStep(db: Databases, st: State, s: Step, ip: Key)
    requires |st.cache| > 0 && |ip| < 46
    ensures var st' := Apply(db, st, s);
            CopiesOf(st', ip) + Waiting(st'.threads, ip)
            == CopiesOf(st, ip) + Waiting(st.threads, ip)
               + (if Asks(db, st, s, ip) then 1 else 0)
  {
    if IsReady(st, s) {
      match s
      case Begin(_, _) => BeginMoves(db, st, s, ip);
      case Finish(tid) => FinishMoves(db, st, tid, ip);
    }
  }

  lemma BeginMoves(db: Databases, st: State, s: Step, ip: Key)
    requires |st.cache| > 0 && s.Begin? && IsReady(st, s)
    ensures var st' := Apply(db, st, s);
            && st'.cache == st.cache
            && Waiting(st'.threads, ip) == Waiting(st.threads, ip) + (if Asks(db, st, s, ip) then 1 else 0)
  {
    WaitingUpdate(st.threads, s.tid, Querying(s.ip), ip);
  }

  // A thread that comes back turns its query into an entry.
  lemma FinishMoves(db: Databases, st: State, tid: nat, ip: Key)
    requires |st.cache| > 0 && |ip| < 46 && tid < |st.threads| && st.threads[tid].Querying?
    ensures var key := st.threads[tid].ip;
            Copies(Push(st.cache, key, Uncached(db, key))[Bucket(ip, |st.cache|)], ip)
            + Waiting(st.threads[tid := Idle], ip)
            == CopiesOf(st, ip) + Waiting(st.threads, ip)
  {
    var key := st.threads[tid].ip;
    WaitingUpdate(st.threads, tid, Idle, ip);
    PushCopies(st.cache, key, Uncached(db, key), ip);
  }

  // However often it is looked up, an address costs at most one database query for each
  // thread.
  lemma QueriesAreBounded(db: Databases, n: nat, steps: seq<Step>, ip: Key)
    requires |ip| < 46
    ensures Queries(db, n, steps, ip) <= n
  {
    QueriesAccount(db, n, steps, ip);
    DuplicatesAreBounded(db, n, steps, ip);
  }
}
