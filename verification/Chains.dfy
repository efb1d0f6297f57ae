/** The chained hash tables shared by the server's caches: FNV-1a buckets of entries,
    and the finite map each table stands for. */
module Chains {
  import opened Wrappers

  // The text of an address, a C string.
  type Key = s: string | '\0' !in s witness ""

  datatype Entry<V> = Entry(key: Key, value: V)

  type Buckets<V> = seq<seq<Entry<V>>>

  // Longest key a table takes, with its terminator.
  const KEY_MAX: nat := 46

  const FNV_BASIS: bv32 := 2166136261
  const FNV_PRIME: bv32 := 16777619

  // is_private_ip: such an address is never looked up.
  predicate IsPrivate(ip: Key) {
    ip == "" || "127." <= ip || "192.168." <= ip || "10." <= ip || "172." <= ip
  }

  function Digit(k: nat): char
    requires k < 10
  {
    ('0' as int + k) as char
  }

  function Decimal(n: nat): (s: string)
    requires n < 256
    ensures '\0' !in s
  {
    if n < 10 then [Digit(n)]
    else if n < 100 then [Digit(n / 10), Digit(n % 10)]
    else [Digit(n / 100), Digit(n / 10 % 10), Digit(n % 10)]
  }

  // The usual text of an IPv4 address.
  function Dotted(a: nat, b: nat, c: nat, d: nat): Key
    requires a < 256 && b < 256 && c < 256 && d < 256
  {
    Decimal(a) + "." + Decimal(b) + "." + Decimal(c) + "." + Decimal(d)
  }

  // Of IPv4 addresses, exactly the blocks 127/8, 10/8, 172/8 and 192.168/16 are private;
  // 172/8 is wider than what is reserved, for parity with the older ingestor.
  lemma PrivateDotted(a: nat, b: nat, c: nat, d: nat)
    requires a < 256 && b < 256 && c < 256 && d < 256
    ensures IsPrivate(Dotted(a, b, c, d)) <==> a == 127 || a == 10 || a == 172 || (a == 192 && b == 168)
  {
    var rest := Decimal(c) + "." + Decimal(d);
    var behind := Decimal(b) + "." + rest;
    assert Dotted(a, b, c, d) == Decimal(a) + "." + behind;
    OctetTexts();
    StartsWithOctet(a, behind, 127);
    StartsWithOctet(a, behind, 10);
    StartsWithOctet(a, behind, 172);
    StartsWithOctet(a, behind, 192);
    StartsWithOctet(b, rest, 168);
    PrefixCancels("192.", "168.", behind);
    PrefixOfPrefix("192.", "168.", Dotted(a, b, c, d));
  }

  lemma OctetTexts()
    ensures Decimal(127) + "." == "127." && Decimal(10) + "." == "10." && Decimal(172) + "." == "172."
    ensures Decimal(192) + "." == "192." && Decimal(168) + "." == "168."
    ensures "192." + "168." == "192.168."
  {
  }

  // A text that starts with an octet and a dot starts with that very octet.
  lemma StartsWithOctet(n: nat, rest: string, m: nat)
    requires n < 256 && m < 256
    ensures Decimal(m) + "." <= Decimal(n) + "." + rest <==> n == m
  {
    var s, t, u := Decimal(n) + "." + rest, Decimal(m), Decimal(n);
    if t + "." <= s {
      assert s[|u|] == '.' && (t + ".")[|t|] == '.';
      assert forall k :: 0 <= k < |t| ==> s[k] == t[k];
      assert forall k :: 0 <= k < |u| ==> s[k] == u[k];
      assert |t| == |u|;
      assert t == u;
      DecimalInjective(n, m);
    }
  }

  lemma DecimalInjective(n: nat, m: nat)
    requires n < 256 && m < 256 && Decimal(n) == Decimal(m)
    ensures n == m
  {
    assert |Decimal(n)| == |Decimal(m)|;
    assert forall k :: 0 <= k < |Decimal(n)| ==> Decimal(n)[k] == Decimal(m)[k];
  }

  lemma PrefixCancels(a: string, x: string, y: string)
    ensures a + x <= a + y <==> x <= y
  {
    assert (a + y)[|a|..] == y;
    if a + x <= a + y {
      assert (a + y)[..|a + x|][|a|..] == x;
    }
  }

  lemma PrefixOfPrefix(a: string, x: string, s: string)
    ensures a + x <= s ==> a <= s
  {
  }

  // ---------------------------------------------------------------------
  // Hash
  // ---------------------------------------------------------------------

  function HashStep(h: bv32, c: char): bv32 {
    (h ^ (c as int % 256) as bv32) * FNV_PRIME
  }

  function HashFrom(h: bv32, s: string): bv32
    decreases |s|
  {
    if s == "" then h else HashFrom(HashStep(h, s[0]), s[1..])
  }

  lemma HashNext(h: bv32, s: string, h': bv32)
    requires s != "" && HashStep(h, s[0]) == h'
    ensures HashFrom(h, s) == HashFrom(h', s[1..])
  {
  }

  // hash_ip, 32-bit FNV-1a.
  method HashIp(s: string) returns (h: bv32)
    ensures h == HashFrom(FNV_BASIS, s)
  {
    h := FNV_BASIS;
    var i := 0;
    while i < |s|
      invariant i <= |s| && HashFrom(FNV_BASIS, s) == HashFrom(h, s[i..])
    {
      HashNext(h, s[i..], HashStep(h, s[i]));
      assert s[i..][1..] == s[i + 1..];
      h := HashStep(h, s[i]);
      i := i + 1;
    }
  }

  function Bucket(key: string, n: nat): (i: nat)
    requires n > 0
    ensures i < n
  {
    HashFrom(FNV_BASIS, key) as nat % n
  }

  // The published values of 32-bit FNV-1a for the empty text, "a" and "foobar".
  lemma HashVectors()
    ensures HashFrom(FNV_BASIS, "") == 0x811C9DC5
    ensures HashFrom(FNV_BASIS, "a") == 0xE40C292C
    ensures HashFrom(FNV_BASIS, "foobar") == 0xBF9CF968
  {
    HashOfA();
    HashOfFoobar();
  }

  lemma HashOfA()
    ensures HashFrom(FNV_BASIS, "a") == 0xE40C292C
  {
    assert "a"[1..] == "";
  }

  lemma HashOfFoobar()
    ensures HashFrom(FNV_BASIS, "foobar") == 0xBF9CF968
  {
    HashFoobar1();
    HashNext(FNV_BASIS, "foobar", 0xE30C2799);
    assert "foobar"[1..] == "oobar";
    HashFoobar2();
    HashNext(0xE30C2799, "oobar", 0x6222E842);
    assert "oobar"[1..] == "obar";
    HashFoobar3();
    HashNext(0x6222E842, "obar", 0xA9F37ED7);
    assert "obar"[1..] == "bar";
    HashFoobar4();
    HashNext(0xA9F37ED7, "bar", 0x3F5076EF);
    assert "bar"[1..] == "ar";
    HashFoobar5();
    HashNext(0x3F5076EF, "ar", 0x39AAA18A);
    assert "ar"[1..] == "r";
    HashFoobar6();
    HashNext(0x39AAA18A, "r", 0xBF9CF968);
    assert "r"[1..] == "";
  }

  lemma HashFoobar1()
    ensures HashStep(FNV_BASIS, 'f') == 0xE30C2799
  {
  }

  lemma HashFoobar2()
    ensures HashStep(0xE30C2799, 'o') == 0x6222E842
  {
  }

  lemma HashFoobar3()
    ensures HashStep(0x6222E842, 'o') == 0xA9F37ED7
  {
  }

  lemma HashFoobar4()
    ensures HashStep(0xA9F37ED7, 'b') == 0x3F5076EF
  {
  }

  lemma HashFoobar5()
    ensures HashStep(0x3F5076EF, 'a') == 0x39AAA18A
  {
  }

  lemma HashFoobar6()
    ensures HashStep(0x39AAA18A, 'r') == 0xBF9CF968
  {
  }

  // ---------------------------------------------------------------------
  // Chains and buckets
  // ---------------------------------------------------------------------

  // The first entry for key, or |chain|.
  function IndexIn<V>(chain: seq<Entry<V>>, key: Key): (i: nat)
    ensures i <= |chain|
    ensures i < |chain| ==> chain[i].key == key
  {
    if chain == [] then 0 else if chain[0].key == key then 0 else 1 + IndexIn(chain[1..], key)
  }

  function Find<V>(chain: seq<Entry<V>>, key: Key): Option<V> {
    var i := IndexIn(chain, key);
    if i < |chain| then Some(chain[i].value) else None
  }

  function Lookup<V>(bs: Buckets<V>, key: Key): Option<V>
    requires |bs| > 0
  {
    Find(bs[Bucket(key, |bs|)], key)
  }

  // Overwrites the entry of key, or prepends one.
  function PutIn<V>(chain: seq<Entry<V>>, key: Key, v: V): seq<Entry<V>> {
    var i := IndexIn(chain, key);
    if i < |chain| then chain[i := Entry(key, v)] else [Entry(key, v)] + chain
  }

  function Put<V>(bs: Buckets<V>, key: Key, v: V): Buckets<V>
    requires |bs| > 0
  {
    var b := Bucket(key, |bs|);
    if |key| >= KEY_MAX then bs else bs[b := PutIn(bs[b], key, v)]
  }

  // Prepends an entry without looking for an older one.
  function Push<V>(bs: Buckets<V>, key: Key, v: V): Buckets<V>
    requires |bs| > 0
  {
    var b := Bucket(key, |bs|);
    if |key| >= KEY_MAX then bs else bs[b := [Entry(key, v)] + bs[b]]
  }

  function Empty<V>(n: nat): Buckets<V> {
    seq(n, _ => [])
  }

  // Every entry sits in the bucket of its key.
  ghost predicate InBuckets<V>(bs: Buckets<V>) {
    forall i, j :: 0 <= i < |bs| && 0 <= j < |bs[i]| ==> Bucket(bs[i][j].key, |bs|) == i && |bs[i][j].key| < KEY_MAX
  }

  ghost predicate Unique<V>(chain: seq<Entry<V>>) {
    forall j, k :: 0 <= j < k < |chain| ==> chain[j].key != chain[k].key
  }

  // A table with one entry at most for a key.
  ghost predicate IsTable<V>(bs: Buckets<V>) {
    |bs| > 0 && InBuckets(bs) && forall i :: 0 <= i < |bs| ==> Unique(bs[i])
  }

  // The map a table stands for.
  ghost function Keys<V>(bs: Buckets<V>): set<Key> {
    set i, j | 0 <= i < |bs| && 0 <= j < |bs[i]| :: bs[i][j].key
  }

  ghost function MapOf<V>(bs: Buckets<V>): map<Key, V>
    requires |bs| > 0
  {
    map k | k in Keys(bs) && Lookup(bs, k).Some? :: Lookup(bs, k).value
  }

  lemma {:induction false} IndexInIsFirst<V>(chain: seq<Entry<V>>, key: Key)
    ensures forall k :: 0 <= k < IndexIn(chain, key) ==> chain[k].key != key
  {
    if chain != [] && chain[0].key != key {
      IndexInIsFirst(chain[1..], key);
      assert forall k :: 1 <= k < |chain| ==> chain[k] == chain[1..][k - 1];
    }
  }

  lemma IndexInAt<V>(chain: seq<Entry<V>>, key: Key, i: nat)
    requires i <= |chain| && (i < |chain| ==> chain[i].key == key)
    requires forall k :: 0 <= k < i ==> chain[k].key != key
    ensures IndexIn(chain, key) == i
  {
    IndexInIsFirst(chain, key);
  }

  lemma PutInFinds<V>(chain: seq<Entry<V>>, key: Key, v: V, other: Key)
    ensures Find(PutIn(chain, key, v), other) == if other == key then Some(v) else Find(chain, other)
    ensures Unique(chain) ==> Unique(PutIn(chain, key, v))
  {
    var i, j := IndexIn(chain, key), IndexIn(chain, other);
    var after := PutIn(chain, key, v);
    IndexInIsFirst(chain, key);
    IndexInIsFirst(chain, other);
    if i < |chain| {
      IndexInAt(after, other, j);
    } else {
      PushFinds(chain, key, v, other);
    }
  }

  lemma PushFinds<V>(chain: seq<Entry<V>>, key: Key, v: V, other: Key)
    ensures Find([Entry(key, v)] + chain, other) == if other == key then Some(v) else Find(chain, other)
  {
    assert ([Entry(key, v)] + chain)[1..] == chain;
  }

  // A put changes what the table answers for its key, and for no other; a key too long
  // for the table changes nothing.
  lemma PutLookup<V>(bs: Buckets<V>, key: Key, v: V, other: Key)
    requires |bs| > 0
    ensures Lookup(Put(bs, key, v), other)
            == if other == key && |key| < KEY_MAX then Some(v) else Lookup(bs, other)
    ensures IsTable(bs) ==> IsTable(Put(bs, key, v))
  {
    if |key| < KEY_MAX {
      PutInFinds(bs[Bucket(key, |bs|)], key, v, other);
      if IsTable(bs) { PutKeepsTable(bs, key, v); }
    }
  }

  lemma PutKeepsTable<V>(bs: Buckets<V>, key: Key, v: V)
    requires IsTable(bs) && |key| < KEY_MAX
    ensures IsTable(Put(bs, key, v))
  {
    var b := Bucket(key, |bs|);
    PutInFinds(bs[b], key, v, key);
    PutInKeys(bs[b], key, v);
    var after: Buckets<V> := Put(bs, key, v);
    forall i: nat, j: nat | i < |after| && j < |after[i]|
      ensures Bucket(after[i][j].key, |after|) == i && |after[i][j].key| < KEY_MAX
    {
      assert i != b ==> after[i] == bs[i];
    }
  }

  // Every key of the new chain is the new one or was there before.
  lemma PutInKeys<V>(chain: seq<Entry<V>>, key: Key, v: V)
    ensures var after := PutIn(chain, key, v);
            forall j :: 0 <= j < |after| ==> after[j].key == key || exists k :: 0 <= k < |chain| && chain[k].key == after[j].key
  {
    var at, after := IndexIn(chain, key), PutIn(chain, key, v);
    forall j | 0 <= j < |after|
      ensures after[j].key == key || exists k :: 0 <= k < |chain| && chain[k].key == after[j].key
    {
      if at < |chain| { assert chain[j].key == after[j].key; } else if j > 0 { assert chain[j - 1].key == after[j].key; }
    }
  }

  lemma PushLookup<V>(bs: Buckets<V>, key: Key, v: V, other: Key)
    requires |bs| > 0
    ensures Lookup(Push(bs, key, v), other)
            == if other == key && |key| < KEY_MAX then Some(v) else Lookup(bs, other)
  {
    if |key| < KEY_MAX {
      PushFinds(bs[Bucket(key, |bs|)], key, v, other);
    }
  }

  // A table answers from its map.
  lemma LookupIsMap<V>(bs: Buckets<V>, key: Key)
    requires |bs| > 0
    ensures Lookup(bs, key) == if key in MapOf(bs) then Some(MapOf(bs)[key]) else None
  {
    var b := Bucket(key, |bs|);
    var i := IndexIn(bs[b], key);
    if i < |bs[b]| {
      assert bs[b][i].key in Keys(bs);
    }
  }

  lemma PutIsMapUpdate<V>(bs: Buckets<V>, key: Key, v: V)
    requires |bs| > 0 && |key| < KEY_MAX
    ensures MapOf(Put(bs, key, v)) == MapOf(bs)[key := v]
  {
    forall k: Key
      ensures k in MapOf(Put(bs, key, v)) <==> k in MapOf(bs)[key := v]
      ensures k in MapOf(bs)[key := v] ==> MapOf(Put(bs, key, v))[k] == MapOf(bs)[key := v][k]
    {
      PutLookup(bs, key, v, k);
      LookupIsMap(bs, k);
      LookupIsMap(Put(bs, key, v), k);
    }
  }

  lemma EmptyIsTable<V>(n: nat)
    requires n > 0
    ensures IsTable(Empty<V>(n)) && MapOf(Empty<V>(n)) == map[]
  {
  }

  // ---------------------------------------------------------------------
  // The table in memory
  // ---------------------------------------------------------------------

  class Table<V> {
    const buckets: array<seq<Entry<V>>>

    constructor (n: nat)
      requires n > 0
      ensures fresh(buckets) && buckets[..] == Empty<V>(n)
    {
      buckets := new seq<Entry<V>>[n](_ => []);
      new;
      assert buckets[..] == Empty<V>(n);
    }

    // The walk down a chain; every operation starts with it.
    method Walk(key: Key) returns (b: nat, i: nat)
      requires buckets.Length > 0
      ensures b == Bucket(key, buckets.Length) && i == IndexIn(buckets[b], key)
    {
      var h := HashIp(key);
      b := h as nat % buckets.Length;
      i := 0;
      while i < |buckets[b]| && buckets[b][i].key != key
        invariant i <= |buckets[b]|
        invariant forall k :: 0 <= k < i ==> buckets[b][k].key != key
      {
        i := i + 1;
      }
      IndexInAt(buckets[b], key, i);
    }

    method Get(key: Key) returns (r: Option<V>)
      requires buckets.Length > 0
      ensures r == Lookup(buckets[..], key)
    {
      var b, i := Walk(key);
      r := if i < |buckets[b]| then Some(buckets[b][i].value) else None;
    }

    method Store(key: Key, v: V)
      requires buckets.Length > 0
      modifies buckets
      ensures buckets[..] == Put(old(buckets[..]), key, v)
    {
      if |key| >= KEY_MAX { return; }
      var b, i := Walk(key);
      if i < |buckets[b]| {
        buckets[b] := buckets[b][i := Entry(key, v)];
      } else {
        buckets[b] := [Entry(key, v)] + buckets[b];
      }
    }

    // Prepends an entry unless there is one: 1 if it did, 0 for a known key, -1 for one
    // too long.
    method Insert(key: Key, v: V) returns (added: int)
      requires buckets.Length > 0
      modifies buckets
      ensures added == if |key| >= KEY_MAX then -1 else if Lookup(old(buckets[..]), key).Some? then 0 else 1
      ensures buckets[..] == if added == 1 then Put(old(buckets[..]), key, v) else old(buckets[..])
    {
      if |key| >= KEY_MAX { return -1; }
      var b, i := Walk(key);
      if i < |buckets[b]| { return 0; }
      buckets[b] := [Entry(key, v)] + buckets[b];
      return 1;
    }

    method Prepend(key: Key, v: V)
      requires buckets.Length > 0
      modifies buckets
      ensures buckets[..] == Push(old(buckets[..]), key, v)
    {
      if |key| >= KEY_MAX { return; }
      var h := HashIp(key);
      var b := h as nat % buckets.Length;
      buckets[b] := [Entry(key, v)] + buckets[b];
    }
  }
}
