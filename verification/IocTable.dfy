/** nta_ioc.c: the table of known-bad addresses, loaded list by list, against the map
    in which the first list that names an address wins. */
module IocTable {
  import opened Wrappers
  import opened Chains

  const BUCKETS: nat := 8192

  // An element of the JSON array "lists": its name and addresses, where they have the
  // right type.
  datatype List = List(name: Option<string>, ips: Option<seq<Option<Key>>>)

  predicate IsUsable(l: List) {
    l.name.Some? && l.ips.Some?
  }

  function AddIp(m: map<Key, string>, ip: Option<Key>, name: string): map<Key, string> {
    if ip.None? || |ip.value| >= KEY_MAX || ip.value in m then m else m[ip.value := name]
  }

  function AddIps(m: map<Key, string>, ips: seq<Option<Key>>, name: string): map<Key, string> {
    if ips == [] then m else AddIp(AddIps(m, ips[..|ips| - 1], name), ips[|ips| - 1], name)
  }

  function AddList(m: map<Key, string>, l: List): map<Key, string> {
    if IsUsable(l) then AddIps(m, l.ips.value, l.name.value) else m
  }

  // What the nested loops of nta_ioc_load build.
  function Loaded(lists: seq<List>): map<Key, string> {
    if lists == [] then map[] else AddList(Loaded(lists[..|lists| - 1]), lists[|lists| - 1])
  }

  // ---------------------------------------------------------------------
  // Reference: the first list that names an address
  // ---------------------------------------------------------------------

  predicate Names(l: List, ip: Key) {
    IsUsable(l) && Some(ip) in l.ips.value
  }

  function FirstNaming(lists: seq<List>, ip: Key): (r: Option<string>)
    ensures r.None? ==> forall i :: 0 <= i < |lists| ==> !Names(lists[i], ip)
    ensures r.Some? ==> exists i :: 0 <= i < |lists| && Names(lists[i], ip) && r.value == lists[i].name.value
                                   && forall j :: 0 <= j < i ==> !Names(lists[j], ip)
  {
    if lists == [] then None
    else
      var n := |lists| - 1;
      var earlier := FirstNaming(lists[..n], ip);
      if earlier.Some? then
        assert forall i :: 0 <= i < n ==> lists[..n][i] == lists[i];
        earlier
      else
        assert forall i :: 0 <= i < n ==> lists[..n][i] == lists[i];
        if Names(lists[n], ip) then Some(lists[n].name.value) else None
  }

  lemma {:induction false} AddIpsIsExtension(m: map<Key, string>, ips: seq<Option<Key>>, name: string, ip: Key)
    ensures var m' := AddIps(m, ips, name);
            && (ip in m' <==> ip in m || (|ip| < KEY_MAX && Some(ip) in ips))
            && (ip in m' ==> m'[ip] == if ip in m then m[ip] else name)
  {
    if ips != [] {
      var n := |ips| - 1;
      AddIpsIsExtension(m, ips[..n], name, ip);
      assert ips == ips[..n] + [ips[n]];
    }
  }

  // The first list to name an address wins, and nothing else is in the table.
  lemma {:induction false} FirstListWins(lists: seq<List>, ip: Key)
    ensures var first := FirstNaming(lists, ip);
            && (ip in Loaded(lists) <==> |ip| < 46 && first.Some?)
            && (ip in Loaded(lists) ==> first == Some(Loaded(lists)[ip]))
  {
    if lists != [] {
      var n := |lists| - 1;
      FirstListWins(lists[..n], ip);
      if IsUsable(lists[n]) {
        AddIpsIsExtension(Loaded(lists[..n]), lists[n].ips.value, lists[n].name.value, ip);
      }
    }
  }

  lemma LoadedNext(lists: seq<List>, i: nat)
    requires i < |lists|
    ensures Loaded(lists[..i + 1]) == AddList(Loaded(lists[..i]), lists[i])
  {
    assert lists[..i + 1][..i] == lists[..i];
  }

  // ---------------------------------------------------------------------
  // The table in memory
  // ---------------------------------------------------------------------

  class Ioc {
    const table: Table<string>
    var nLists: nat
    var nIps: nat

    // The chains stand for m, and the counter is its size.
    ghost predicate Holds(m: map<Key, string>)
      reads this, table.buckets
    {
      && table.buckets.Length == BUCKETS
      && IsTable(table.buckets[..]) && MapOf(table.buckets[..]) == m && nIps == |m|
    }

    constructor ()
      ensures Holds(map[]) && nLists == 0 && fresh(table.buckets)
    {
      table := new Table<string>(BUCKETS);
      nLists, nIps := 0, 0;
      new;
      EmptyIsTable<string>(BUCKETS);
    }

    // ioc_insert.
    method Insert(ip: Key, name: string, ghost m: map<Key, string>) returns (added: int)
      requires Holds(m)
      modifies this`nIps, table.buckets
      ensures Holds(AddIp(m, Some(ip), name))
      ensures added == if |ip| >= 46 then -1 else if ip in m then 0 else 1
    {
      ghost var before := table.buckets[..];
      LookupIsMap(before, ip);
      added := table.Insert(ip, name);
      if added == 1 {
        PutIsMapUpdate(before, ip, name);
        PutLookup(before, ip, name, ip);
        nIps := nIps + 1;
      }
    }

    // The inner loop over the addresses of one list.
    method InsertAll(ips: seq<Option<Key>>, name: string, ghost m: map<Key, string>) returns (listIps: nat)
      requires Holds(m)
      modifies this`nIps, table.buckets
      ensures Holds(AddIps(m, ips, name))
      ensures listIps == |AddIps(m, ips, name)| - |m|
    {
      listIps := 0;
      for i := 0 to |ips|
        invariant Holds(AddIps(m, ips[..i], name)) && listIps == nIps - |m|
      {
        ghost var soFar := AddIps(m, ips[..i], name);
        assert ips[..i + 1][..i] == ips[..i];
        assert AddIps(m, ips[..i + 1], name) == AddIp(soFar, ips[i], name);
        if ips[i].Some? {
          var added := Insert(ips[i].value, name, soFar);
          if added > 0 { listIps := listIps + 1; }
        }
      }
      assert ips[..|ips|] == ips;
    }

    // The outer loop's turn for one list.
    method LoadList(l: List, ghost m: map<Key, string>)
      requires Holds(m)
      modifies this`nLists, this`nIps, table.buckets
      ensures Holds(AddList(m, l))
      ensures nLists == old(nLists) + (if IsUsable(l) then 1 else 0)
    {
      if l.name.Some? && l.ips.Some? {
        nLists := nLists + 1;
        var listIps := InsertAll(l.ips.value, l.name.value, m);
      }
    }

    // nta_ioc_load on a parsed file: null when no address was loaded.
    static method Load(lists: seq<List>) returns (ioc: Ioc?)
      ensures ioc == null <==> Loaded(lists) == map[]
      ensures ioc != null ==> fresh(ioc) && ioc.Holds(Loaded(lists))
    {
      ioc := new Ioc();
      var i := 0;
      while i < |lists|
        invariant i <= |lists| && fresh(ioc) && fresh(ioc.table.buckets)
        invariant ioc.Holds(Loaded(lists[..i]))
      {
        LoadedNext(lists, i);
        ioc.LoadList(lists[i], Loaded(lists[..i]));
        i := i + 1;
      }
      assert lists[..|lists|] == lists;
      if ioc.nIps == 0 { return null; }
    }

    // nta_ioc_match_ip.
    method MatchIp(ip: Key, ghost m: map<Key, string>) returns (name: Option<string>)
      requires Holds(m)
      ensures name == if ip != "" && ip in m then Some(m[ip]) else None
    {
      if ip == "" { return None; }
      name := table.Get(ip);
      LookupIsMap(table.buckets[..], ip);
    }
  }
}
