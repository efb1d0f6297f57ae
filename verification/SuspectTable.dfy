/** The packet dispatcher of analyzer.c on values: frame parsing, the suspect table
    with its cleanup, the ARP table, and the isolation of each address's record. */
module SuspectTable {
  import opened Wrappers
  import opened Suspects
  import Baseline
  import KillChain
  import Words

  const MAX_SUSPECTS: nat := 100
  const MAX_ARP_ENTRIES: nat := 256
  const CLEANUP_INTERVAL: int := 60
  const INACTIVE_TIMEOUT: int := 300

  datatype Packet = Packet(bytes: seq<byte>, highEntropy: bool, time: int)

  // A CIDR block of the home network.
  datatype Cidr = Cidr(address: nat, mask: nat)

  datatype ArpEntry = ArpEntry(mac: seq<byte>, ip: nat)

  datatype State = State(table: seq<Suspect>, lastCleanup: int, arp: seq<ArpEntry>)

  // What publish_packet is given.
  datatype Report = Report(
    ip: nat, port: nat, protocol: string, length: nat,
    attack: Option<Attack>, stage: KillChain.Stage, score: int, mitre: string)

  datatype Verdict = Verdict(attack: Option<Attack>, report: Option<Report>)

  const QUIET := Verdict(None, None)

  // ---------------------------------------------------------------------
  // Frames
  // ---------------------------------------------------------------------

  datatype Frame = Ignored | Arp | Ip(src: nat, view: View)

  function Word16(b: seq<byte>, at: nat): nat
    requires at + 2 <= |b|
  {
    (b[at] as nat) * 256 + b[at + 1] as nat
  }

  function Word32(b: seq<byte>, at: nat): nat
    requires at + 4 <= |b|
  {
    Word16(b, at) * 65536 + Word16(b, at + 2)
  }

  // The headers are validated against the length before they are read.
  function ParseFrame(p: Packet): Frame {
    var b := p.bytes;
    if |b| < 14 then Ignored
    else if Word16(b, 12) == 0x0806 then Arp
    else if Word16(b, 12) != 0x0800 || |b| < 34 then Ignored
    else
      var headerLen := b[14] % 16 * 4;
      if headerLen < 20 || 14 + headerLen > |b| then Ignored
      else Ip(Word32(b, 26), View(p.time, |b|, ParseSegment(b[23], b[14 + headerLen..]), p.highEntropy))
  }

  // A truncated TCP or UDP header leaves nothing for the detectors.
  function ParseSegment(protocol: nat, b: seq<byte>): Segment {
    if protocol == 1 then Icmp
    else if protocol == 6 then
      if |b| < 20 then Other else Tcp(Word16(b, 2), b[13])
    else if protocol == 17 then
      if |b| < 8 then Other else Udp(Word16(b, 0), Word16(b, 2), b[8..])
    else Other
  }

  predicate IsHome(home: seq<Cidr>, ip: nat) {
    exists i :: 0 <= i < |home| && Covers(home[i], ip)
  }

  predicate Covers(c: Cidr, ip: nat) {
    Words.BitAnd(ip, c.mask) == c.address
  }

  // ---------------------------------------------------------------------
  // Table operations
  // ---------------------------------------------------------------------

  predicate IsActive(s: Suspect, now: int) {
    now - s.lastSeen < INACTIVE_TIMEOUT
  }

  // The entries seen within the last five minutes, in their order.
  function Active(table: seq<Suspect>, now: int): seq<Suspect> {
    if table == [] then []
    else
      var s := table[|table| - 1];
      Active(table[..|table| - 1], now) + (if IsActive(s, now) then [s] else [])
  }

  function Cleaned(st: State, now: int): State {
    if now - st.lastCleanup < CLEANUP_INTERVAL then st
    else st.(table := Active(st.table, now), lastCleanup := now)
  }

  // The position of ip, or |table|.
  function IndexOf(table: seq<Suspect>, ip: nat): (i: nat)
    ensures i <= |table|
  {
    if table == [] then 0
    else
      var i := IndexOf(table[..|table| - 1], ip);
      if i < |table| - 1 || table[|table| - 1].ip == ip then i else |table|
  }

  function Lookup(table: seq<Suspect>, ip: nat): Option<Suspect> {
    var i := IndexOf(table, ip);
    if i < |table| then Some(table[i]) else None
  }

  // find_or_create_suspect.
  function Touch(table: seq<Suspect>, ip: nat, now: int): seq<Suspect> {
    var i := IndexOf(table, ip);
    if i < |table| then table[i := table[i].(lastSeen := now)]
    else if |table| >= MAX_SUSPECTS then table
    else table + [Create(ip, now)]
  }

  function ReportOf(o: Outcome, v: View): Option<Report> {
    var mitre := if o.attack.Some? then KillChain.AttackMitre(o.attack.value) else "";
    match v.segment
    case Icmp => Some(Report(o.suspect.ip, 0, "ICMP", v.length, o.attack, o.suspect.kc.stage, o.suspect.kc.score, mitre))
    case Tcp(dport, _) =>
      Some(Report(o.suspect.ip, dport, "TCP", v.length, o.attack, o.suspect.kc.stage, o.suspect.kc.score, mitre))
    case Udp(_, dport, _) =>
      Some(Report(o.suspect.ip, dport, "UDP", v.length, o.attack, o.suspect.kc.stage, o.suspect.kc.score, mitre))
    case Other => None
  }

  // ---------------------------------------------------------------------
  // ARP
  // ---------------------------------------------------------------------

  function ArpIndex(arp: seq<ArpEntry>, mac: seq<byte>): (i: nat)
    ensures i <= |arp|
    ensures i < |arp| ==> arp[i].mac == mac
    ensures forall k :: 0 <= k < i ==> arp[k].mac != mac
  {
    if arp == [] then 0 else if arp[0].mac == mac then 0 else 1 + ArpIndex(arp[1..], mac)
  }

  predicate IsArpReply(b: seq<byte>) {
    |b| >= 42 && Word16(b, 20) == 2
  }

  function SenderMac(b: seq<byte>): seq<byte>
    requires IsArpReply(b)
  {
    b[22..28]
  }

  function SenderIp(b: seq<byte>): nat
    requires IsArpReply(b)
  {
    Word32(b, 28)
  }

  function ArpLearn(arp: seq<ArpEntry>, b: seq<byte>): seq<ArpEntry> {
    if IsArpReply(b) && ArpIndex(arp, SenderMac(b)) == |arp| && |arp| < MAX_ARP_ENTRIES
    then arp + [ArpEntry(SenderMac(b), SenderIp(b))]
    else arp
  }

  predicate IsSpoof(arp: seq<ArpEntry>, b: seq<byte>) {
    && IsArpReply(b)
    && var i := ArpIndex(arp, SenderMac(b));
       i < |arp| && arp[i].ip != SenderIp(b)
  }

  function ArpVerdict(arp: seq<ArpEntry>, b: seq<byte>): Verdict {
    if IsSpoof(arp, b) then
      Verdict(Some(KillChain.ArpSpoof),
              Some(Report(SenderIp(b), 0, "ARP", |b|, Some(KillChain.ArpSpoof), KillChain.Recon, 20, "T1557")))
    else QUIET
  }

  // ---------------------------------------------------------------------
  // analyze_packet
  // ---------------------------------------------------------------------

  datatype Analysis = Analysis(state: State, verdict: Verdict)

  function Analyze(home: seq<Cidr>, st0: State, p: Packet): Analysis {
    var st := Cleaned(st0, p.time);
    match ParseFrame(p)
    case Ignored => Analysis(st, QUIET)
    case Arp => Analysis(st.(arp := ArpLearn(st.arp, p.bytes)), ArpVerdict(st.arp, p.bytes))
    case Ip(src, v) => Dispatch(home, st, src, v)
  }

  // A source without a record is not analysed while the table is full.
  function Dispatch(home: seq<Cidr>, st: State, src: nat, v: View): Analysis {
    var table := Touch(st.table, src, v.time);
    var i := IndexOf(table, src);
    if IsHome(home, src) || i == |table| then Analysis(st, QUIET)
    else
      var o := Observe(table[i], v);
      Analysis(st.(table := table[i := o.suspect]), Verdict(o.attack, ReportOf(o, v)))
  }

  const START := State([], 0, [])

  function Run(home: seq<Cidr>, ps: seq<Packet>): State {
    if ps == [] then START
    else Analyze(home, Run(home, ps[..|ps| - 1]), ps[|ps| - 1]).state
  }

  // The verdict on each packet of a capture.
  function Verdicts(home: seq<Cidr>, ps: seq<Packet>): seq<Verdict> {
    if ps == [] then []
    else
      var n := |ps| - 1;
      Verdicts(home, ps[..n]) + [Analyze(home, Run(home, ps[..n]), ps[n]).verdict]
  }

  // ---------------------------------------------------------------------
  // The table is a map from at most 100 addresses
  // ---------------------------------------------------------------------

  ghost predicate Distinct(table: seq<Suspect>) {
    forall i, j :: 0 <= i < j < |table| ==> table[i].ip != table[j].ip
  }

  ghost predicate IsTable(table: seq<Suspect>) {
    |table| <= 100 && Distinct(table)
  }

  lemma {:induction false} IndexOfIsFirst(table: seq<Suspect>, ip: nat)
    ensures var i := IndexOf(table, ip);
            && (i < |table| ==> table[i].ip == ip)
            && forall k :: 0 <= k < i ==> table[k].ip != ip
  {
    if table != [] {
      var n := |table| - 1;
      IndexOfIsFirst(table[..n], ip);
      assert forall k :: 0 <= k < n ==> table[..n][k] == table[k];
    }
  }

  lemma LookupAt(table: seq<Suspect>, ip: nat, i: nat)
    requires Distinct(table) && i < |table| && table[i].ip == ip
    ensures IndexOf(table, ip) == i && Lookup(table, ip) == Some(table[i])
  {
    IndexOfIsFirst(table, ip);
  }

  lemma LookupNone(table: seq<Suspect>, ip: nat)
    requires forall k :: 0 <= k < |table| ==> table[k].ip != ip
    ensures IndexOf(table, ip) == |table| && Lookup(table, ip) == None
  {
    IndexOfIsFirst(table, ip);
  }

  // Cleanup keeps exactly the entries that are not idle, in their order.
  ghost predicate KeepsActive(table: seq<Suspect>, kept: seq<Suspect>, at: seq<nat>, now: int) {
    && |at| == |kept| <= |table|
    && (forall i :: 0 <= i < |at| ==> at[i] < |table| && kept[i] == table[at[i]])
    && (forall i, j :: 0 <= i < j < |at| ==> at[i] < at[j])
    && forall k :: 0 <= k < |table| ==> (now - table[k].lastSeen < 300 <==> k in at)
  }

  lemma {:induction false} ActiveKeeps(table: seq<Suspect>, now: int) returns (at: seq<nat>)
    ensures KeepsActive(table, Active(table, now), at, now)
  {
    at := [];
    if table != [] {
      var n := |table| - 1;
      at := ActiveKeeps(table[..n], now);
      KeepsNext(table[..n], Active(table[..n], now), at, now, table[n]);
      assert table == table[..n] + [table[n]];
      if IsActive(table[n], now) {
        at := at + [n];
      }
    }
  }

  lemma KeepsNext(table: seq<Suspect>, kept: seq<Suspect>, at: seq<nat>, now: int, s: Suspect)
    requires KeepsActive(table, kept, at, now)
    ensures !IsActive(s, now) ==> KeepsActive(table + [s], kept + [], at, now)
    ensures IsActive(s, now) ==> KeepsActive(table + [s], kept + [s], at + [|table|], now)
  {
    assert kept + [] == kept;
    assert forall i :: 0 <= i < |at| ==> at[i] < |table|;
    assert |table| !in at;
    assert forall k :: k in at + [|table|] <==> k in at || k == |table|;
  }

  lemma ActiveLookup(table: seq<Suspect>, now: int, ip: nat)
    requires Distinct(table)
    ensures Distinct(Active(table, now)) && |Active(table, now)| <= |table|
    ensures var s := Lookup(table, ip);
            Lookup(Active(table, now), ip) == if s.Some? && IsActive(s.value, now) then s else None
  {
    var at := ActiveKeeps(table, now);
    var kept := Active(table, now);
    IndexOfIsFirst(table, ip);
    var i := IndexOf(table, ip);
    if i < |table| && IsActive(table[i], now) {
      var k :| 0 <= k < |at| && at[k] == i;
      LookupAt(kept, ip, k);
    } else {
      LookupNone(kept, ip);
    }
  }

  lemma CleanedLookup(st: State, now: int, ip: nat)
    requires IsTable(st.table)
    ensures IsTable(Cleaned(st, now).table)
    ensures var s := Lookup(st.table, ip);
            Lookup(Cleaned(st, now).table, ip)
            == if now - st.lastCleanup >= 60 && s.Some? && now - s.value.lastSeen >= 300 then None else s
  {
    ActiveLookup(st.table, now, ip);
  }

  lemma TouchLookup(table: seq<Suspect>, src: nat, now: int, ip: nat)
    requires IsTable(table)
    ensures IsTable(Touch(table, src, now))
    ensures Lookup(Touch(table, src, now), ip)
            == if ip != src then Lookup(table, ip)
               else match Lookup(table, ip)
                    case Some(s) => Some(s.(lastSeen := now))
                    case None => if |table| < 100 then Some(Create(ip, now)) else None
  {
    var i := IndexOf(table, src);
    IndexOfIsFirst(table, src);
    if i < |table| {
      UpdateLookup(table, i, table[i].(lastSeen := now), ip);
    } else if |table| < MAX_SUSPECTS {
      AppendLookup(table, Create(src, now), ip);
    }
  }

  lemma AppendLookup(table: seq<Suspect>, s: Suspect, ip: nat)
    requires Distinct(table) && IndexOf(table, s.ip) == |table|
    ensures Distinct(table + [s])
    ensures Lookup(table + [s], ip) == if ip == s.ip then Some(s) else Lookup(table, ip)
  {
    AppendDistinct(table, s);
    IndexOfAppend(table, s, ip);
    IndexOfIsFirst(table, ip);
  }

  lemma AppendDistinct(table: seq<Suspect>, s: Suspect)
    requires Distinct(table) && IndexOf(table, s.ip) == |table|
    ensures Distinct(table + [s])
  {
    IndexOfIsFirst(table, s.ip);
  }

  lemma IndexOfAppend(table: seq<Suspect>, s: Suspect, ip: nat)
    ensures IndexOf(table + [s], ip)
            == (var i := IndexOf(table, ip);
                if i < |table| then i else if s.ip == ip then |table| else |table| + 1)
  {
    assert (table + [s])[..|table|] == table;
  }

  lemma UpdateLookup(table: seq<Suspect>, i: nat, s: Suspect, ip: nat)
    requires IsTable(table) && i < |table| && s.ip == table[i].ip
    ensures IsTable(table[i := s])
    ensures Lookup(table[i := s], ip) == if ip == s.ip then Some(s) else Lookup(table, ip)
  {
    IndexOfIsFirst(table, ip);
    var k := IndexOf(table, ip);
    if k < |table| {
      LookupAt(table[i := s], ip, k);
      LookupAt(table, s.ip, i);
    } else {
      LookupNone(table[i := s], ip);
    }
  }

  // ---------------------------------------------------------------------
  // One packet as its addresses see it
  // ---------------------------------------------------------------------

  // What the packet is to address ip: nothing, unless it is the source.
  function OwnView(home: seq<Cidr>, ip: nat, p: Packet): Option<View> {
    match ParseFrame(p)
    case Ip(src, v) => if src == ip && !IsHome(home, ip) then Some(v) else None
    case _ => None
  }

  // The record after a packet; room says whether the table could take a new entry.
  function Received(ip: nat, record: Option<Suspect>, view: Option<View>, room: bool): Option<Outcome> {
    match view
    case None => None
    case Some(v) =>
      match record
      case Some(s) => Some(Observe(s.(lastSeen := v.time), v))
      case None => if room then Some(Observe(Create(ip, v.time), v)) else None
  }

  function HasRoom(st: State, p: Packet): bool {
    |Cleaned(st, p.time).table| < MAX_SUSPECTS
  }

  // A packet changes the record of its own source only, as Received says, and its
  // verdict is about that record.
  lemma AnalyzeLookup(home: seq<Cidr>, st: State, p: Packet, ip: nat)
    requires IsTable(st.table)
    ensures var a := Analyze(home, st, p);
            var before := Lookup(Cleaned(st, p.time).table, ip);
            var r := Received(ip, before, OwnView(home, ip, p), HasRoom(st, p));
            && IsTable(a.state.table) && a.state.lastCleanup == Cleaned(st, p.time).lastCleanup
            && Lookup(a.state.table, ip) == (if r.Some? then Some(r.value.suspect) else before)
            && (OwnView(home, ip, p).Some? ==>
                  a.verdict == match r case None => QUIET
                               case Some(o) => Verdict(o.attack, ReportOf(o, OwnView(home, ip, p).value)))
  {
    CleanedLookup(st, p.time, ip);
    match ParseFrame(p)
    case Ignored =>
    case Arp =>
    case Ip(src, v) =>
      if !IsHome(home, src) {
        DispatchLookup(Cleaned(st, p.time), src, v, ip);
      }
  }

  lemma DispatchLookup(st: State, src: nat, v: View, ip: nat)
    requires IsTable(st.table)
    ensures var touched := Touch(st.table, src, v.time);
            var i := IndexOf(touched, src);
            var before := Lookup(st.table, src);
            var r := Received(src, before, Some(v), |st.table| < MAX_SUSPECTS);
            && IsTable(touched) && (i < |touched| <==> r.Some?)
            && (i == |touched| ==> Lookup(st.table, src) == None)
            && (i == |touched| ==> touched == st.table)
            && (i < |touched| ==>
                  var o := Observe(touched[i], v);
                  && o == r.value && o.suspect.ip == src
                  && IsTable(touched[i := o.suspect])
                  && Lookup(touched[i := o.suspect], ip)
                     == (if ip == src then Some(o.suspect) else Lookup(st.table, ip)))
  {
    var touched := Touch(st.table, src, v.time);
    var i := IndexOf(touched, src);
    TouchLookup(st.table, src, v.time, src);
    TouchLookup(st.table, src, v.time, ip);
    IndexOfIsFirst(touched, src);
    if i < |touched| {
      DetectExplained(touched[i], v);
      UpdateLookup(touched, i, Observe(touched[i], v).suspect, ip);
    }
  }

  // ---------------------------------------------------------------------
  // Isolation
  // ---------------------------------------------------------------------

  // All that address ip can see of a packet: its time, its content if ip sent it,
  // and whether the table had room.
  datatype Glimpse = Glimpse(time: int, view: Option<View>, room: bool)

  function Glimpses(home: seq<Cidr>, ip: nat, ps: seq<Packet>): seq<Glimpse> {
    if ps == [] then []
    else
      var n := |ps| - 1;
      Glimpses(home, ip, ps[..n])
      + [Glimpse(ps[n].time, OwnView(home, ip, ps[n]), HasRoom(Run(home, ps[..n]), ps[n]))]
  }

  // One address on its own: its record and the clock of the cleanup.
  datatype Solo = Solo(record: Option<Suspect>, lastCleanup: int)

  function SoloNext(ip: nat, solo: Solo, g: Glimpse): Solo {
    var due := g.time - solo.lastCleanup >= 60;
    var idle := solo.record.Some? && g.time - solo.record.value.lastSeen >= 300;
    var record := if due && idle then None else solo.record;
    var r := Received(ip, record, g.view, g.room);
    Solo(if r.Some? then Some(r.value.suspect) else record, if due then g.time else solo.lastCleanup)
  }

  function SoloRun(ip: nat, gs: seq<Glimpse>): Solo {
    if gs == [] then Solo(None, 0)
    else SoloNext(ip, SoloRun(ip, gs[..|gs| - 1]), gs[|gs| - 1])
  }

  lemma {:induction false} Isolation(home: seq<Cidr>, ip: nat, ps: seq<Packet>)
    ensures IsTable(Run(home, ps).table)
    ensures SoloRun(ip, Glimpses(home, ip, ps)) == Solo(Lookup(Run(home, ps).table, ip), Run(home, ps).lastCleanup)
  {
    if ps != [] {
      var n := |ps| - 1;
      Isolation(home, ip, ps[..n]);
      var st, gs := Run(home, ps[..n]), Glimpses(home, ip, ps);
      assert gs[..n] == Glimpses(home, ip, ps[..n]) by { GlimpseCount(home, ip, ps[..n]); }
      GlimpseCount(home, ip, ps);
      CleanedLookup(st, ps[n].time, ip);
      AnalyzeLookup(home, st, ps[n], ip);
    } else {
      LookupNone([], ip);
    }
  }

  lemma {:induction false} GlimpseCount(home: seq<Cidr>, ip: nat, ps: seq<Packet>)
    ensures |Glimpses(home, ip, ps)| == |ps|
  {
    if ps != [] { GlimpseCount(home, ip, ps[..|ps| - 1]); }
  }

  // Whatever other addresses send in between: two captures that look alike to ip
  // leave the same record, and report its next packet alike.
  lemma OthersDoNotInterfere(home: seq<Cidr>, ip: nat, ps: seq<Packet>, qs: seq<Packet>, p: Packet)
    requires Glimpses(home, ip, ps + [p]) == Glimpses(home, ip, qs + [p])
    ensures Lookup(Run(home, ps).table, ip) == Lookup(Run(home, qs).table, ip)
    ensures OwnView(home, ip, p).Some? ==>
              Analyze(home, Run(home, ps), p).verdict == Analyze(home, Run(home, qs), p).verdict
  {
    GlimpseCount(home, ip, ps);
    GlimpseCount(home, ip, qs);
    GlimpseCount(home, ip, ps + [p]);
    GlimpseCount(home, ip, qs + [p]);
    GlimpsesAppend(home, ip, ps, p);
    GlimpsesAppend(home, ip, qs, p);
    Isolation(home, ip, ps);
    Isolation(home, ip, qs);
    var st, st' := Run(home, ps), Run(home, qs);
    CleanedLookup(st, p.time, ip);
    CleanedLookup(st', p.time, ip);
    AnalyzeLookup(home, st, p, ip);
    AnalyzeLookup(home, st', p, ip);
  }

  lemma GlimpsesAppend(home: seq<Cidr>, ip: nat, ps: seq<Packet>, p: Packet)
    ensures var gs := Glimpses(home, ip, ps + [p]);
            && |gs| == |ps| + 1 && gs[..|ps|] == Glimpses(home, ip, ps)
            && gs[|ps|] == Glimpse(p.time, OwnView(home, ip, p), HasRoom(Run(home, ps), p))
  {
    assert (ps + [p])[..|ps|] == ps;
    GlimpseCount(home, ip, ps);
  }

  // ---------------------------------------------------------------------
  // The record since the address was last created
  // ---------------------------------------------------------------------

  function OwnViews(home: seq<Cidr>, ip: nat, ps: seq<Packet>): seq<View> {
    if ps == [] then []
    else
      var v := OwnView(home, ip, ps[|ps| - 1]);
      OwnViews(home, ip, ps[..|ps| - 1]) + (if v.Some? then [v.value] else [])
  }

  predicate IsTracked(home: seq<Cidr>, ip: nat, ps: seq<Packet>) {
    Lookup(Run(home, ps).table, ip).Some?
  }

  // ip has a record when packet j is dispatched, behind the cleanup it may cause.
  predicate HasRecordAt(home: seq<Cidr>, ip: nat, ps: seq<Packet>, j: nat)
    requires j < |ps|
  {
    Lookup(Cleaned(Run(home, ps[..j]), ps[j].time).table, ip).Some?
  }

  // Packet k was the last to create the record of ip: it had none, the table had room,
  // and no cleanup has dropped it since.
  ghost predicate CreatedBy(home: seq<Cidr>, ip: nat, ps: seq<Packet>, k: nat) {
    && k < |ps|
    && OwnView(home, ip, ps[k]).Some?
    && !HasRecordAt(home, ip, ps, k) && HasRoom(Run(home, ps[..k]), ps[k])
    && forall j :: k < j < |ps| ==> HasRecordAt(home, ip, ps, j)
  }

  function After(s: Suspect, v: Option<View>): Suspect {
    if v.Some? then Observe(s.(lastSeen := v.value.time), v.value).suspect else s
  }

  // The last packet of a capture.
  lemma LastPacket(home: seq<Cidr>, ip: nat, ps: seq<Packet>)
    requires ps != []
    ensures var n := |ps| - 1;
            var st, v := Run(home, ps[..n]), OwnView(home, ip, ps[n]);
            var after := Lookup(Run(home, ps).table, ip);
            if HasRecordAt(home, ip, ps, n) then
              Lookup(st.table, ip).Some? && after == Some(After(Lookup(st.table, ip).value, v))
            else if v.Some? && HasRoom(st, ps[n]) then
              v.value.time == ps[n].time && after == Some(After(Create(ip, ps[n].time), v))
            else after == None
  {
    var n := |ps| - 1;
    Isolation(home, ip, ps[..n]);
    CleanedLookup(Run(home, ps[..n]), ps[n].time, ip);
    AnalyzeLookup(home, Run(home, ps[..n]), ps[n], ip);
  }

  lemma {:induction false} LastCreation(home: seq<Cidr>, ip: nat, ps: seq<Packet>) returns (k: nat)
    requires IsTracked(home, ip, ps)
    ensures CreatedBy(home, ip, ps, k)
  {
    if ps == [] {
      LookupNone([], ip);
    } else {
      var n := |ps| - 1;
      LastPacket(home, ip, ps);
      if HasRecordAt(home, ip, ps, n) {
        k := LastCreation(home, ip, ps[..n]);
        CreationGoesOn(home, ip, ps, k);
      } else {
        k := n;
      }
    }
  }

  lemma CreationGoesOn(home: seq<Cidr>, ip: nat, ps: seq<Packet>, k: nat)
    requires ps != [] && k + 1 < |ps|
    ensures CreatedBy(home, ip, ps, k)
            <==> CreatedBy(home, ip, ps[..|ps| - 1], k) && HasRecordAt(home, ip, ps, |ps| - 1)
  {
    var n := |ps| - 1;
    assert ps[..n][..k] == ps[..k];
    forall j | k <= j < n
      ensures HasRecordAt(home, ip, ps, j) == HasRecordAt(home, ip, ps[..n], j)
    {
      assert ps[..n][..j] == ps[..j];
    }
  }

  // The record of a tracked address is the automaton of its own packets since then.
  lemma {:induction false} RecordSinceCreation(home: seq<Cidr>, ip: nat, ps: seq<Packet>, k: nat)
    requires CreatedBy(home, ip, ps, k)
    ensures Lookup(Run(home, ps).table, ip) == Some(Follow(ip, ps[k].time, OwnViews(home, ip, ps[k..])))
  {
    var n := |ps| - 1;
    LastPacket(home, ip, ps);
    if k < n {
      CreationGoesOn(home, ip, ps, k);
      RecordSinceCreation(home, ip, ps[..n], k);
      assert ps[..n][k] == ps[k];
      FollowGrows(home, ip, ps, k);
    } else {
      FirstFollow(home, ip, ps);
    }
  }

  lemma FollowGrows(home: seq<Cidr>, ip: nat, ps: seq<Packet>, k: nat)
    requires k + 1 < |ps|
    ensures var n := |ps| - 1;
            Follow(ip, ps[k].time, OwnViews(home, ip, ps[k..]))
            == After(Follow(ip, ps[k].time, OwnViews(home, ip, ps[..n][k..])), OwnView(home, ip, ps[n]))
  {
    var n := |ps| - 1;
    ViewsGrow(home, ip, ps, k);
    FollowNext(ip, ps[k].time, OwnViews(home, ip, ps[..n][k..]), OwnView(home, ip, ps[n]));
  }

  lemma FirstFollow(home: seq<Cidr>, ip: nat, ps: seq<Packet>)
    requires ps != [] && OwnView(home, ip, ps[|ps| - 1]).Some?
    ensures var n := |ps| - 1;
            Follow(ip, ps[n].time, OwnViews(home, ip, ps[n..]))
            == After(Create(ip, ps[n].time), OwnView(home, ip, ps[n]))
  {
    var n := |ps| - 1;
    FirstView(home, ip, ps);
    FollowNext(ip, ps[n].time, [], OwnView(home, ip, ps[n]));
    assert [] + [OwnView(home, ip, ps[n]).value] == [OwnView(home, ip, ps[n]).value];
  }

  lemma RecordIsAutomaton(home: seq<Cidr>, ip: nat, ps: seq<Packet>) returns (k: nat)
    requires IsTracked(home, ip, ps)
    ensures CreatedBy(home, ip, ps, k)
    ensures Lookup(Run(home, ps).table, ip) == Some(Follow(ip, ps[k].time, OwnViews(home, ip, ps[k..])))
  {
    k := LastCreation(home, ip, ps);
    RecordSinceCreation(home, ip, ps, k);
  }

  // The packets of the address since packet k, as it sees them.
  function ViewsSince(home: seq<Cidr>, ip: nat, ps: seq<Packet>, k: nat): seq<View>
    requires k < |ps|
  {
    OwnViews(home, ip, ps[k..])
  }

  function VerdictAt(home: seq<Cidr>, ps: seq<Packet>, m: nat): Verdict
    requires m < |ps|
  {
    Analyze(home, Run(home, ps[..m]), ps[m]).verdict
  }

  // And the verdict on a packet is what that automaton reports, so all that holds of
  // its reports holds of the verdicts on a capture.
  lemma VerdictSince(home: seq<Cidr>, ip: nat, ps: seq<Packet>, k: nat)
    requires CreatedBy(home, ip, ps, k) && OwnView(home, ip, ps[|ps| - 1]).Some?
    ensures OwnViews(home, ip, ps[k..]) != []
    ensures Analyze(home, Run(home, ps[..|ps| - 1]), ps[|ps| - 1]).verdict.attack
            == Reported(ip, ps[k].time, OwnViews(home, ip, ps[k..]))
  {
    if k < |ps| - 1 {
      VerdictGrows(home, ip, ps, k);
    } else {
      FirstVerdict(home, ip, ps);
    }
  }

  lemma VerdictGrows(home: seq<Cidr>, ip: nat, ps: seq<Packet>, k: nat)
    requires CreatedBy(home, ip, ps, k) && k + 1 < |ps| && OwnView(home, ip, ps[|ps| - 1]).Some?
    ensures var vs := OwnViews(home, ip, ps[k..]);
            vs != []
            && Analyze(home, Run(home, ps[..|ps| - 1]), ps[|ps| - 1]).verdict.attack == Reported(ip, ps[k].time, vs)
  {
    var n := |ps| - 1;
    var v := OwnView(home, ip, ps[n]).value;
    LastVerdict(home, ip, ps);
    CreationGoesOn(home, ip, ps, k);
    RecordSinceCreation(home, ip, ps[..n], k);
    assert ps[..n][k] == ps[k];
    ViewsGrow(home, ip, ps, k);
    ReportedNext(ip, ps[k].time, OwnViews(home, ip, ps[..n][k..]), v);
  }

  lemma FirstVerdict(home: seq<Cidr>, ip: nat, ps: seq<Packet>)
    requires ps != [] && CreatedBy(home, ip, ps, |ps| - 1)
    ensures var n := |ps| - 1;
            var vs := OwnViews(home, ip, ps[n..]);
            vs != [] && Analyze(home, Run(home, ps[..n]), ps[n]).verdict.attack == Reported(ip, ps[n].time, vs)
  {
    var n := |ps| - 1;
    var v := OwnView(home, ip, ps[n]).value;
    LastVerdict(home, ip, ps);
    FirstView(home, ip, ps);
    ReportedNext(ip, ps[n].time, [], v);
    assert [] + [v] == [v];
  }

  // The verdict on the last packet of a capture, from the record it finds.
  lemma LastVerdict(home: seq<Cidr>, ip: nat, ps: seq<Packet>)
    requires ps != [] && OwnView(home, ip, ps[|ps| - 1]).Some?
    ensures var n := |ps| - 1;
            var st, v := Run(home, ps[..n]), OwnView(home, ip, ps[n]).value;
            var attack := Analyze(home, st, ps[n]).verdict.attack;
            if HasRecordAt(home, ip, ps, n) then
              && Lookup(st.table, ip).Some?
              && attack == Observe(Lookup(st.table, ip).value.(lastSeen := v.time), v).attack
            else
              HasRoom(st, ps[n]) ==>
                v.time == ps[n].time && attack == Observe(Create(ip, v.time).(lastSeen := v.time), v).attack
  {
    var n := |ps| - 1;
    Isolation(home, ip, ps[..n]);
    CleanedLookup(Run(home, ps[..n]), ps[n].time, ip);
    AnalyzeLookup(home, Run(home, ps[..n]), ps[n], ip);
  }

  // Without a record there is no verdict.
  lemma VerdictIsReported(home: seq<Cidr>, ip: nat, ps: seq<Packet>) returns (k: nat)
    requires ps != [] && OwnView(home, ip, ps[|ps| - 1]).Some?
    ensures var verdict := Analyze(home, Run(home, ps[..|ps| - 1]), ps[|ps| - 1]).verdict;
            if IsTracked(home, ip, ps) then
              && CreatedBy(home, ip, ps, k) && OwnViews(home, ip, ps[k..]) != []
              && verdict.attack == Reported(ip, ps[k].time, OwnViews(home, ip, ps[k..]))
            else verdict == QUIET
  {
    var n := |ps| - 1;
    k := 0;
    if IsTracked(home, ip, ps) {
      k := LastCreation(home, ip, ps);
      VerdictSince(home, ip, ps, k);
    } else {
      Isolation(home, ip, ps[..n]);
      AnalyzeLookup(home, Run(home, ps[..n]), ps[n], ip);
    }
  }

  // The creation stays the last one in every part of the capture behind it.
  lemma {:induction false} CreatedPrefix(home: seq<Cidr>, ip: nat, ps: seq<Packet>, k: nat, m: nat)
    requires CreatedBy(home, ip, ps, k) && k <= m < |ps|
    ensures CreatedBy(home, ip, ps[..m + 1], k)
    decreases |ps|
  {
    if m + 1 == |ps| {
      assert ps[..m + 1] == ps;
    } else {
      CreationGoesOn(home, ip, ps, k);
      CreatedPrefix(home, ip, ps[..|ps| - 1], k, m);
      assert ps[..|ps| - 1][..m + 1] == ps[..m + 1];
    }
  }

  // The packet that own view number n came from.
  lemma {:induction false} ViewPacket(home: seq<Cidr>, ip: nat, ps: seq<Packet>, n: nat) returns (m: nat)
    requires n < |OwnViews(home, ip, ps)|
    ensures m < |ps| && OwnView(home, ip, ps[m]) == Some(OwnViews(home, ip, ps)[n])
    ensures OwnViews(home, ip, ps[..m + 1]) == OwnViews(home, ip, ps)[..n + 1]
  {
    var last := |ps| - 1;
    var front := OwnViews(home, ip, ps[..last]);
    if n < |front| {
      m := ViewPacket(home, ip, ps[..last], n);
      assert ps[..last][..m + 1] == ps[..m + 1];
    } else {
      m := last;
      assert ps[..last + 1] == ps;
    }
  }

  lemma ReportedNext(ip: nat, start: int, vs: seq<View>, v: View)
    ensures Reported(ip, start, vs + [v]) == Observe(Follow(ip, start, vs).(lastSeen := v.time), v).attack
  {
    assert (vs + [v])[..|vs|] == vs;
  }

  lemma FollowNext(ip: nat, start: int, vs: seq<View>, v: Option<View>)
    ensures Follow(ip, start, vs + (if v.Some? then [v.value] else [])) == After(Follow(ip, start, vs), v)
  {
    if v.Some? {
      assert (vs + [v.value])[..|vs|] == vs;
    } else {
      assert vs + [] == vs;
    }
  }

  lemma ViewsGrow(home: seq<Cidr>, ip: nat, ps: seq<Packet>, k: nat)
    requires k + 1 < |ps|
    ensures var n := |ps| - 1;
            var v := OwnView(home, ip, ps[n]);
            OwnViews(home, ip, ps[k..]) == OwnViews(home, ip, ps[..n][k..]) + (if v.Some? then [v.value] else [])
  {
    assert ps[k..][..|ps| - 1 - k] == ps[..|ps| - 1][k..];
  }

  lemma FirstView(home: seq<Cidr>, ip: nat, ps: seq<Packet>)
    requires ps != [] && OwnView(home, ip, ps[|ps| - 1]).Some?
    ensures OwnViews(home, ip, ps[|ps| - 1..]) == [OwnView(home, ip, ps[|ps| - 1]).value]
  {
    var last := ps[|ps| - 1..];
    assert last[..0] == [];
    assert OwnViews(home, ip, last) == [] + [OwnView(home, ip, ps[|ps| - 1]).value];
  }

  ghost predicate AllPositive(ds: seq<KillChain.Detection>) {
    forall k :: 0 <= k < |ds| ==> ds[k].time > 0
  }

  lemma EntryDetections(s: Suspect, v: View)
    requires v.time > 0
    ensures AllPositive(Entry(s, v).detections)
  {
  }

  lemma AppendPositive(ds: seq<KillChain.Detection>, e: seq<KillChain.Detection>)
    requires AllPositive(ds) && AllPositive(e)
    ensures AllPositive(ds + e)
  {
  }

  lemma {:induction false} DetectionTimes(ip: nat, start: int, vs: seq<View>)
    requires PositiveTimes(vs)
    ensures AllPositive(LogOf(ip, start, vs).detections)
  {
    if vs != [] {
      var n := |vs| - 1;
      DetectionTimes(ip, start, vs[..n]);
      var s := Follow(ip, start, vs[..n]).(lastSeen := vs[n].time);
      EntryDetections(s, vs[n]);
      AppendPositive(LogOf(ip, start, vs[..n]).detections, Entry(s, vs[n]).detections);
    }
  }

  ghost predicate PositiveTimes(vs: seq<View>) {
    forall k :: 0 <= k < |vs| ==> vs[k].time > 0
  }

  lemma {:induction false} ViewTimes(home: seq<Cidr>, ip: nat, ps: seq<Packet>)
    requires forall k :: 0 <= k < |ps| ==> ps[k].time > 0
    ensures PositiveTimes(OwnViews(home, ip, ps))
  {
    if ps != [] {
      var n := |ps| - 1;
      ViewTimes(home, ip, ps[..n]);
      var front, v := OwnViews(home, ip, ps[..n]), OwnView(home, ip, ps[n]);
      assert v.Some? ==> v.value.time == ps[n].time;
      assert PositiveTimes(front + (if v.Some? then [v.value] else []));
    }
  }

  // What the whole capture leaves in the record of an address: its kill chain tells
  // its current incident, its baseline the windows of its own packets.
  lemma RecordMeaning(home: seq<Cidr>, ip: nat, ps: seq<Packet>) returns (k: nat)
    requires IsTracked(home, ip, ps)
    requires forall j :: 0 <= j < |ps| ==> ps[j].time > 0
    ensures CreatedBy(home, ip, ps, k)
    ensures var s := Lookup(Run(home, ps).table, ip).value;
            var l := LogOf(ip, ps[k].time, OwnViews(home, ip, ps[k..]));
            && Explains(s, ip, ps[k].time, l)
            && KillChain.Describes(s.kc, KillChain.Incident(l.detections))
            && Baseline.Reflects(s.baseline, Baseline.Divide(ps[k].time, l.sightings))
  {
    k := RecordIsAutomaton(home, ip, ps);
    var vs := OwnViews(home, ip, ps[k..]);
    var l := LogOf(ip, ps[k].time, vs);
    FollowExplained(ip, ps[k].time, vs);
    ViewTimes(home, ip, ps[k..]);
    DetectionTimes(ip, ps[k].time, vs);
    KillChain.RunDescribesIncident(l.detections);
    Baseline.RunReflectsWindows(ps[k].time, l.sightings);
  }

  // ---------------------------------------------------------------------
  // ARP: the first address each MAC claimed
  // ---------------------------------------------------------------------

  predicate Claims(p: Packet, mac: seq<byte>) {
    ParseFrame(p).Arp? && IsArpReply(p.bytes) && SenderMac(p.bytes) == mac
  }

  function FirstClaim(ps: seq<Packet>, mac: seq<byte>): Option<nat> {
    if ps == [] then None
    else
      var earlier, p := FirstClaim(ps[..|ps| - 1], mac), ps[|ps| - 1];
      if earlier.Some? then earlier else if Claims(p, mac) then Some(SenderIp(p.bytes)) else None
  }

  lemma {:induction false} ArpKnowsFirstClaims(home: seq<Cidr>, ps: seq<Packet>, mac: seq<byte>)
    ensures var arp, claim := Run(home, ps).arp, FirstClaim(ps, mac);
            var i := ArpIndex(arp, mac);
            && |arp| <= 256
            && (i < |arp| ==> claim == Some(arp[i].ip))
            && (|arp| < 256 && claim.Some? ==> i < |arp|)
  {
    if ps != [] {
      var n := |ps| - 1;
      ArpKnowsFirstClaims(home, ps[..n], mac);
      var arp := Run(home, ps[..n]).arp;
      assert Run(home, ps).arp == if ParseFrame(ps[n]).Arp? then ArpLearn(arp, ps[n].bytes) else arp;
      LearnIndex(arp, ps[n].bytes, mac);
    }
  }

  lemma LearnIndex(arp: seq<ArpEntry>, b: seq<byte>, mac: seq<byte>)
    ensures var learnt := ArpLearn(arp, b);
            var i, j := ArpIndex(arp, mac), ArpIndex(learnt, mac);
            && (learnt == arp || (IsArpReply(b) && learnt == arp + [ArpEntry(SenderMac(b), SenderIp(b))]))
            && (i < |arp| ==> j == i && learnt[j] == arp[i])
            && (i == |arp| && j < |learnt| ==>
                  IsArpReply(b) && SenderMac(b) == mac && learnt[j].ip == SenderIp(b))
            && (IsArpReply(b) && SenderMac(b) == mac && |arp| < MAX_ARP_ENTRIES ==> j < |learnt|)
  {
    var learnt := ArpLearn(arp, b);
    var i := ArpIndex(arp, mac);
    if i < |arp| { assert learnt[i].mac == mac; }
    if IsArpReply(b) && learnt != arp && SenderMac(b) == mac { assert learnt[|arp|].mac == mac; }
  }

  // A spoofing alert means the MAC first claimed another address; while the ARP table
  // has room, every such reply is reported.
  lemma SpoofReport(home: seq<Cidr>, ps: seq<Packet>, p: Packet)
    requires ParseFrame(p).Arp? && IsArpReply(p.bytes)
    ensures var st := Run(home, ps);
            var claim := FirstClaim(ps, SenderMac(p.bytes));
            var alert := Analyze(home, st, p).verdict.attack == Some(KillChain.ArpSpoof);
            && (alert ==> claim.Some? && claim.value != SenderIp(p.bytes))
            && (|st.arp| < 256 ==> (alert <==> claim.Some? && claim.value != SenderIp(p.bytes)))
            && Analyze(home, st, p).verdict.report
               == (if alert then Some(Report(SenderIp(p.bytes), 0, "ARP", |p.bytes|, Some(KillChain.ArpSpoof),
                                             KillChain.Recon, 20, "T1557"))
                   else None)
  {
    ArpKnowsFirstClaims(home, ps, SenderMac(p.bytes));
  }
}
