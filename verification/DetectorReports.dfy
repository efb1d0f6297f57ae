/** What the counting detectors of analyzer.c report, in terms of the packets an address
    has sent since its record was created. */
module DetectorReports {
  import opened Wrappers
  import opened Suspects
  import opened SuspectTable
  import Ewma
  import Baseline
  import BruteForce
  import DnsName
  import KillChain
  import Words

  predicate IsIcmp(v: View) {
    v.segment.Icmp?
  }

  // The TCP flags by their bits: FIN is 1, SYN 2, PSH 8, ACK 16 and URG 32.
  predicate IsNullProbe(v: View) {
    v.segment.Tcp? && v.segment.flags == 0
  }

  predicate IsXmasProbe(v: View) {
    v.segment.Tcp? && v.segment.flags % 2 == 1 && v.segment.flags / 8 % 2 == 1 && v.segment.flags / 32 % 2 == 1
  }

  predicate IsInitialSyn(v: View) {
    v.segment.Tcp? && v.segment.flags / 2 % 2 == 1 && v.segment.flags / 16 % 2 == 0
  }

  predicate IsSynfinProbe(v: View) {
    v.segment.Tcp? && v.segment.flags / 2 % 2 == 1 && v.segment.flags % 2 == 1
  }

  // A packet from or to port 53 with at least a whole DNS header.
  predicate IsDnsMessage(v: View) {
    v.segment.Udp? && (v.segment.sport == 53 || v.segment.udport == 53) && |v.segment.payload| >= 12
  }

  // The QR bit is the highest one of byte 2.
  predicate IsReply(v: View) {
    IsDnsMessage(v) && v.segment.payload[2] / 128 == 1
  }

  predicate IsRequest(v: View) {
    IsDnsMessage(v) && v.segment.payload[2] / 128 == 0
  }

  // A DNS query for a name that can be decoded.
  predicate IsNamedQuery(v: View) {
    && IsRequest(v)
    && var name := DnsName.Extract(v.segment.payload, 256);
       name.Some? && name.value != []
  }

  function One(b: bool): nat { if b then 1 else 0 }

  // How many of the packets satisfy p.
  function Tally(vs: seq<View>, p: View -> bool): nat {
    if vs == [] then 0 else Tally(vs[..|vs| - 1], p) + One(p(vs[|vs| - 1]))
  }

  function Total(xs: seq<nat>): nat {
    if xs == [] then 0 else Total(xs[..|xs| - 1]) + xs[|xs| - 1]
  }

  // The lengths of the packets that satisfy p, 0 for the others.
  function Lengths(vs: seq<View>, p: View -> bool): (xs: seq<nat>)
    ensures |xs| == |vs|
  {
    seq(|vs|, k requires 0 <= k < |vs| => if p(vs[k]) then vs[k].length else 0)
  }

  function ReplyBytes(vs: seq<View>): nat {
    Total(Lengths(vs, REPLY))
  }

  const REPLY := (v: View) => IsReply(v)

  const REQUEST := (v: View) => IsRequest(v)

  const ICMP := (v: View) => IsIcmp(v)

  const NULL_PROBE := (v: View) => IsNullProbe(v)

  const XMAS_PROBE := (v: View) => IsXmasProbe(v)

  const NAMED_QUERY := (v: View) => IsNamedQuery(v)

  // One packet moves exactly the counters of its kind.
  lemma StepCounters(s: Suspect, v: View)
    ensures var t := Observe(s, v).suspect;
            && t.icmpCount == s.icmpCount + One(IsIcmp(v))
            && t.nullCount == s.nullCount + One(IsNullProbe(v))
            && t.xmasCount == s.xmasCount + One(IsXmasProbe(v))
            && t.dnsQueries == s.dnsQueries + One(IsNamedQuery(v))
            && s.dnsSuspicious <= t.dnsSuspicious <= s.dnsSuspicious + One(IsNamedQuery(v))
  {
    match v.segment
    case Icmp =>
    case Tcp(dport, flags) => TcpCounters(s, dport, flags, v.time);
    case Udp(_, _, _) => UdpCounters(s, v);
    case Other =>
  }

  lemma TcpCounters(s: Suspect, dport: nat, flags: byte, now: int)
    ensures var t := DetectTcp(s, dport, flags, now).suspect;
            && t.nullCount == s.nullCount + One(flags == 0)
            && t.xmasCount == s.xmasCount + One(Has(flags, FIN) && Has(flags, PUSH) && Has(flags, URG))
            && t.icmpCount == s.icmpCount && t.dnsQueries == s.dnsQueries
            && t.dnsSuspicious == s.dnsSuspicious && t.respBytes == s.respBytes && t.reqBytes == s.reqBytes
  {
    var o1 := BeforeBrute(s, dport, flags, now);
    BeforeBruteKeeps(s, dport, flags, now);
    StealthCounters(UpdateBaseline(s, dport !in s.ports, false, now), flags);
    var o2 := DetectBruteForce(o1.suspect, flags, dport, now);
    assert o2.suspect == o1.suspect.(brute := o2.suspect.brute);
    var o3 := DetectPortScan(o2.suspect, dport);
    assert o3.suspect == o2.suspect.(ports := o3.suspect.ports);
  }

  lemma StealthCounters(s: Suspect, flags: byte)
    ensures var t := DetectStealthScan(s, flags).suspect;
            && t.nullCount == s.nullCount + One(flags == 0)
            && t.xmasCount == s.xmasCount + One(Has(flags, FIN) && Has(flags, PUSH) && Has(flags, URG))
  {
  }

  lemma UdpCounters(s: Suspect, v: View)
    requires v.segment.Udp?
    ensures var t := DetectUdp(s, v).suspect;
            && t.nullCount == s.nullCount && t.xmasCount == s.xmasCount && t.icmpCount == s.icmpCount
            && t.dnsQueries == s.dnsQueries + One(IsNamedQuery(v))
            && s.dnsSuspicious <= t.dnsSuspicious <= s.dnsSuspicious + One(IsNamedQuery(v))
  {
  }

  // Each counter of a record is the number of packets of its kind.
  lemma {:induction false} CountersCount(ip: nat, start: int, vs: seq<View>)
    ensures var s := Follow(ip, start, vs);
            && s.icmpCount == Tally(vs, ICMP)
            && s.nullCount == Tally(vs, NULL_PROBE)
            && s.xmasCount == Tally(vs, XMAS_PROBE)
            && s.dnsQueries == Tally(vs, NAMED_QUERY)
            && s.dnsSuspicious <= s.dnsQueries
  {
    if vs != [] {
      var n := |vs| - 1;
      CountersCount(ip, start, vs[..n]);
      StepCounters(Follow(ip, start, vs[..n]).(lastSeen := vs[n].time), vs[n]);
    }
  }

  // The values of a total that is kept modulo 2^64 and grows by xs[k] at step k.
  ghost predicate IsTotal(rs: seq<nat>, xs: seq<nat>) {
    && |rs| == |xs| + 1 && rs[0] == 0
    && forall k :: 0 <= k < |xs| ==> Grows(rs[k], xs[k], rs[k + 1])
  }

  predicate Grows(before: nat, x: nat, after: nat) {
    after == (before + x) % Words.WORD || (x == 0 && after == before)
  }

  lemma {:induction false} TotalWraps(rs: seq<nat>, xs: seq<nat>)
    requires IsTotal(rs, xs)
    ensures rs[|xs|] == Total(xs) % Words.WORD
  {
    if xs == [] {
      Words.SmallRemainder(0);
    } else {
      var n := |xs| - 1;
      assert forall k :: 0 <= k < n ==> Grows(rs[k], xs[k], rs[k + 1]);
      TotalWraps(rs[..n + 1], xs[..n]);
      assert Grows(rs[n], xs[n], rs[n + 1]);
      Words.AddWrapped(Total(xs[..n]), xs[n]);
    }
  }

  lemma {:induction false} TotalMonotone(xs: seq<nat>, ys: seq<nat>)
    requires |xs| == |ys| && forall k :: 0 <= k < |xs| ==> xs[k] <= ys[k]
    ensures Total(xs) <= Total(ys)
  {
    if xs != [] { TotalMonotone(xs[..|xs| - 1], ys[..|ys| - 1]); }
  }

  lemma StepReply(s: Suspect, v: View)
    ensures Grows(s.respBytes, if IsReply(v) then v.length else 0, Observe(s, v).suspect.respBytes)
  {
    match v.segment
    case Icmp =>
    case Tcp(dport, flags) => TcpCounters(s, dport, flags, v.time);
    case Udp(_, _, _) => UdpReply(s, v);
    case Other =>
  }

  lemma UdpReply(s: Suspect, v: View)
    requires v.segment.Udp?
    ensures Grows(s.respBytes, if IsReply(v) then v.length else 0, DetectUdp(s, v).suspect.respBytes)
  {
  }

  lemma LastReply(ip: nat, start: int, vs: seq<View>)
    requires vs != []
    ensures Grows(Follow(ip, start, vs[..|vs| - 1]).respBytes,
                  if IsReply(vs[|vs| - 1]) then vs[|vs| - 1].length else 0,
                  Follow(ip, start, vs).respBytes)
  {
    var n := |vs| - 1;
    var s := Follow(ip, start, vs[..n]).(lastSeen := vs[n].time);
    assert Follow(ip, start, vs) == Observe(s, vs[n]).suspect;
    StepReply(s, vs[n]);
  }

  lemma ReplyGrowsAt(ip: nat, start: int, vs: seq<View>, k: nat)
    requires k < |vs|
    ensures Grows(Follow(ip, start, vs[..k]).respBytes, Lengths(vs, REPLY)[k], Follow(ip, start, vs[..k + 1]).respBytes)
  {
    assert vs[..k + 1][..k] == vs[..k];
    LastReply(ip, start, vs[..k + 1]);
  }

  // The response total is the bytes of the DNS responses, modulo 2^64.
  lemma ReplyBytesCount(ip: nat, start: int, vs: seq<View>)
    ensures Follow(ip, start, vs).respBytes == ReplyBytes(vs) % Words.WORD
  {
    var rs := seq(|vs| + 1, k requires 0 <= k <= |vs| => Follow(ip, start, vs[..k]).respBytes);
    var xs := Lengths(vs, REPLY);
    forall k | 0 <= k < |vs|
      ensures Grows(rs[k], xs[k], rs[k + 1])
    {
      ReplyGrowsAt(ip, start, vs, k);
    }
    TotalWraps(rs, xs);
    assert vs[..|vs|] == vs;
  }

  // The report on the last packet, from the record before it.
  lemma LastReport(ip: nat, start: int, vs: seq<View>) returns (s: Suspect)
    requires vs != []
    ensures s == Follow(ip, start, vs[..|vs| - 1]).(lastSeen := vs[|vs| - 1].time)
    ensures Reported(ip, start, vs) == Detect(s, vs[|vs| - 1]).attack
    ensures Observe(s, vs[|vs| - 1]).suspect == Follow(ip, start, vs)
    ensures Follow(ip, start, vs).baseline == Detect(s, vs[|vs| - 1]).suspect.baseline
  {
    s := Follow(ip, start, vs[..|vs| - 1]).(lastSeen := vs[|vs| - 1].time);
  }

  // ICMP_FLOOD is reported for an ICMP packet exactly when, before calibration, it is
  // at least the 21st of the address, and after it the count is above the adaptive
  // threshold.
  lemma IcmpFloodReport(ip: nat, start: int, vs: seq<View>)
    requires vs != []
    ensures var n, b := Tally(vs, ICMP), Follow(ip, start, vs).baseline;
            Reported(ip, start, vs) == Some(KillChain.IcmpFlood)
            <==> IsIcmp(vs[|vs| - 1])
                 && if b.sampleCount >= 100 && b.pps.variance > 0.0 then n > 5 && ExceedsBurst(n, 1.5, b.pps) else n > 20
  {
    var s := LastReport(ip, start, vs);
    CountersCount(ip, start, vs);
    OtherAttacks(s, vs[|vs| - 1]);
  }

  // Which segments can raise which attacks.
  lemma OtherAttacks(s: Suspect, v: View)
    ensures Detect(s, v).attack == Some(KillChain.IcmpFlood) ==> v.segment.Icmp?
    ensures Detect(s, v).attack == Some(KillChain.NullScan) ==> v.segment.Tcp?
    ensures Detect(s, v).attack == Some(KillChain.XmasScan) ==> v.segment.Tcp?
    ensures Detect(s, v).attack == Some(KillChain.DnsTunnel) ==> v.segment.Udp?
    ensures Detect(s, v).attack == Some(KillChain.Amplification) ==> v.segment.Udp?
  {
  }

  // NULL_SCAN and XMAS_SCAN are reported exactly from the third probe of their kind on.
  lemma StealthReport(ip: nat, start: int, vs: seq<View>)
    requires vs != []
    ensures Reported(ip, start, vs) == Some(KillChain.NullScan)
            <==> IsNullProbe(vs[|vs| - 1]) && Tally(vs, NULL_PROBE) >= 3
    ensures Reported(ip, start, vs) == Some(KillChain.XmasScan)
            <==> IsXmasProbe(vs[|vs| - 1]) && Tally(vs, XMAS_PROBE) >= 3
  {
    var v := vs[|vs| - 1];
    var s := LastReport(ip, start, vs);
    CountersCount(ip, start, vs);
    OtherAttacks(s, v);
    if v.segment.Tcp? { StealthAttack(s, v.segment.dport, v.segment.flags, v.time); }
  }

  lemma StealthAttack(s: Suspect, dport: nat, flags: byte, now: int)
    ensures var o := DetectTcp(s, dport, flags, now);
            && (o.attack == Some(KillChain.NullScan) <==> flags == 0 && o.suspect.nullCount >= STEALTH_THRESHOLD)
            && (o.attack == Some(KillChain.XmasScan)
                <==> Has(flags, FIN) && Has(flags, PUSH) && Has(flags, URG) && o.suspect.xmasCount >= STEALTH_THRESHOLD)
  {
    TcpCounters(s, dport, flags, now);
  }

  // The decoded name of a query, seen with the baseline b and the number of named
  // queries so far, is suspicious.
  predicate IsSuspicious(b: Baseline.Baseline, queries: nat, v: View)
    requires IsNamedQuery(v)
  {
    || DnsName.Subdomain(DnsName.Extract(v.segment.payload, 256).value) > 50
    || v.highEntropy
    || (b.sampleCount >= 100 && Ewma.IsAnomaly(queries as real, b.dns))
  }

  // Packet k is a query for a suspicious name.
  predicate JudgedAt(ip: nat, start: int, vs: seq<View>, k: nat)
    requires k < |vs|
  {
    IsNamedQuery(vs[k]) && IsSuspicious(Follow(ip, start, vs[..k + 1]).baseline, Tally(vs[..k + 1], NAMED_QUERY), vs[k])
  }

  ghost function Judged(ip: nat, start: int, vs: seq<View>): set<nat> {
    set k: nat | k < |vs| && JudgedAt(ip, start, vs, k)
  }

  lemma JudgedNext(ip: nat, start: int, vs: seq<View>)
    requires vs != []
    ensures var n := |vs| - 1;
            && Judged(ip, start, vs) == Judged(ip, start, vs[..n]) + (if JudgedAt(ip, start, vs, n) then {n} else {})
            && n !in Judged(ip, start, vs[..n])
  {
    var n := |vs| - 1;
    forall k: nat | k < n
      ensures JudgedAt(ip, start, vs[..n], k) == JudgedAt(ip, start, vs, k)
    {
      assert vs[..n][..k + 1] == vs[..k + 1];
    }
  }

  // What one packet does to the suspicious counter and when it raises DNS_TUNNEL.
  lemma StepSuspicious(s: Suspect, v: View)
    ensures var t := Observe(s, v).suspect;
            var judged := IsNamedQuery(v) && IsSuspicious(t.baseline, t.dnsQueries, v);
            && t.dnsSuspicious == s.dnsSuspicious + One(judged)
            && (Detect(s, v).attack == Some(KillChain.DnsTunnel) <==> judged && t.dnsSuspicious >= DNS_SUSPICIOUS_MAX)
  {
    OtherAttacks(s, v);
    match v.segment
    case Icmp =>
    case Tcp(dport, flags) => TcpCounters(s, dport, flags, v.time);
    case Udp(_, _, _) => UdpSuspicious(s, v);
    case Other =>
  }

  lemma UdpSuspicious(s: Suspect, v: View)
    requires v.segment.Udp?
    ensures var o := DetectUdp(s, v);
            var judged := IsNamedQuery(v) && IsSuspicious(o.suspect.baseline, o.suspect.dnsQueries, v);
            && o.suspect.dnsSuspicious == s.dnsSuspicious + One(judged)
            && (o.attack == Some(KillChain.DnsTunnel) <==> judged && o.suspect.dnsSuspicious >= DNS_SUSPICIOUS_MAX)
  {
  }

  // The suspicious counter is the number of queries for suspicious names.
  lemma {:induction false} SuspiciousCount(ip: nat, start: int, vs: seq<View>)
    ensures Follow(ip, start, vs).dnsSuspicious == |Judged(ip, start, vs)|
  {
    if vs == [] {
      assert Judged(ip, start, vs) == {};
    } else {
      var n := |vs| - 1;
      var s := Follow(ip, start, vs[..n]).(lastSeen := vs[n].time);
      SuspiciousCount(ip, start, vs[..n]);
      CountersCount(ip, start, vs);
      StepSuspicious(s, vs[n]);
      JudgedNext(ip, start, vs);
      assert vs[..n + 1] == vs;
    }
  }

  // DNS_TUNNEL is reported exactly for a query with a suspicious name that is at least
  // the tenth such query of the address.
  lemma DnsTunnelReport(ip: nat, start: int, vs: seq<View>)
    requires vs != []
    ensures Reported(ip, start, vs) == Some(KillChain.DnsTunnel)
            <==> JudgedAt(ip, start, vs, |vs| - 1) && |Judged(ip, start, vs)| >= 10
  {
    var s := LastReport(ip, start, vs);
    CountersCount(ip, start, vs);
    SuspiciousCount(ip, start, vs);
    StepSuspicious(s, vs[|vs| - 1]);
    assert vs[..|vs|] == vs;
  }

  function RequestBytes(vs: seq<View>): nat {
    Total(Lengths(vs, REQUEST))
  }

  predicate IsCounted(ip: nat, start: int, vs: seq<View>)
    requires vs != []
  {
    IsRequest(vs[|vs| - 1]) && Reported(ip, start, vs) != Some(KillChain.DnsTunnel)
  }

  // The lengths of the requests that were not reported as DNS_TUNNEL.
  function CountedLengths(ip: nat, start: int, vs: seq<View>): (xs: seq<nat>)
    ensures |xs| == |vs|
  {
    seq(|vs|, k requires 0 <= k < |vs| => if IsCounted(ip, start, vs[..k + 1]) then vs[k].length else 0)
  }

  function CountedBytes(ip: nat, start: int, vs: seq<View>): nat {
    Total(CountedLengths(ip, start, vs))
  }

  lemma CountedAtMost(ip: nat, start: int, vs: seq<View>)
    ensures CountedBytes(ip, start, vs) <= RequestBytes(vs)
  {
    TotalMonotone(CountedLengths(ip, start, vs), Lengths(vs, REQUEST));
  }

  // What one packet does to the request total and when it raises AMPLIFICATION.
  lemma StepRequests(s: Suspect, v: View)
    ensures var t, attack := Observe(s, v).suspect, Detect(s, v).attack;
            && Grows(s.reqBytes, if IsRequest(v) && attack != Some(KillChain.DnsTunnel) then v.length else 0, t.reqBytes)
            && (attack == Some(KillChain.Amplification)
                <==> IsDnsMessage(v) && attack != Some(KillChain.DnsTunnel) && IsAmplified(t))
  {
    match v.segment
    case Icmp =>
    case Tcp(dport, flags) => TcpRequests(s, v);
    case Udp(_, _, _) => UdpRequests(s, v);
    case Other =>
  }

  lemma TcpRequests(s: Suspect, v: View)
    requires v.segment.Tcp?
    ensures Observe(s, v).suspect.reqBytes == s.reqBytes
    ensures Detect(s, v).attack != Some(KillChain.Amplification)
  {
    TcpCounters(s, v.segment.dport, v.segment.flags, v.time);
    OtherAttacks(s, v);
  }

  // The wrapped comparison of detect_amplification.
  predicate IsAmplified(s: Suspect) {
    s.reqBytes >= 100 && s.respBytes > s.reqBytes * AMPLIFICATION_RATIO % Words.WORD
  }

  lemma UdpRequests(s: Suspect, v: View)
    requires v.segment.Udp?
    ensures var o := DetectUdp(s, v);
            && Grows(s.reqBytes, if IsRequest(v) && o.attack != Some(KillChain.DnsTunnel) then v.length else 0,
                     o.suspect.reqBytes)
            && (o.attack == Some(KillChain.Amplification)
                <==> IsDnsMessage(v) && o.attack != Some(KillChain.DnsTunnel) && IsAmplified(o.suspect))
  {
  }

  lemma LastRequest(ip: nat, start: int, vs: seq<View>)
    requires vs != []
    ensures Grows(Follow(ip, start, vs[..|vs| - 1]).reqBytes,
                  if IsCounted(ip, start, vs) then vs[|vs| - 1].length else 0,
                  Follow(ip, start, vs).reqBytes)
  {
    var s := LastReport(ip, start, vs);
    StepRequests(s, vs[|vs| - 1]);
  }

  lemma RequestGrowsAt(ip: nat, start: int, vs: seq<View>, k: nat)
    requires k < |vs|
    ensures Grows(Follow(ip, start, vs[..k]).reqBytes, CountedLengths(ip, start, vs)[k],
                  Follow(ip, start, vs[..k + 1]).reqBytes)
  {
    assert vs[..k + 1][..k] == vs[..k];
    LastRequest(ip, start, vs[..k + 1]);
  }

  // The request total is the bytes of those DNS requests, modulo 2^64.
  lemma RequestBytesCount(ip: nat, start: int, vs: seq<View>)
    ensures Follow(ip, start, vs).reqBytes == CountedBytes(ip, start, vs) % Words.WORD
  {
    var rs := seq(|vs| + 1, k requires 0 <= k <= |vs| => Follow(ip, start, vs[..k]).reqBytes);
    var xs := CountedLengths(ip, start, vs);
    forall k | 0 <= k < |vs|
      ensures Grows(rs[k], xs[k], rs[k + 1])
    {
      RequestGrowsAt(ip, start, vs, k);
    }
    TotalWraps(rs, xs);
    assert vs[..|vs|] == vs;
  }

  // AMPLIFICATION is reported exactly for a DNS message that is not reported as
  // DNS_TUNNEL and leaves at least 100 request bytes and more than ten times as many
  // response bytes, all modulo 2^64.
  lemma AmplificationReport(ip: nat, start: int, vs: seq<View>)
    requires vs != []
    ensures var req, resp := CountedBytes(ip, start, vs) % Words.WORD, ReplyBytes(vs) % Words.WORD;
            Reported(ip, start, vs) == Some(KillChain.Amplification)
            <==> && IsDnsMessage(vs[|vs| - 1])
                 && Reported(ip, start, vs) != Some(KillChain.DnsTunnel)
                 && req >= 100 && resp > req * 10 % Words.WORD
  {
    var s := LastReport(ip, start, vs);
    ReplyBytesCount(ip, start, vs);
    RequestBytesCount(ip, start, vs);
    StepRequests(s, vs[|vs| - 1]);
  }

  // So the address has sent at least 100 bytes of DNS requests, and, while no total has
  // wrapped, its responses are more than ten times the requests that were counted.
  lemma AmplificationRests(ip: nat, start: int, vs: seq<View>)
    requires vs != [] && Reported(ip, start, vs) == Some(KillChain.Amplification)
    ensures 100 <= CountedBytes(ip, start, vs) <= RequestBytes(vs)
    ensures CountedBytes(ip, start, vs) * 10 < Words.WORD ==> ReplyBytes(vs) > CountedBytes(ip, start, vs) * 10
  {
    var req, resp := CountedBytes(ip, start, vs), ReplyBytes(vs);
    AmplificationReport(ip, start, vs);
    CountedAtMost(ip, start, vs);
    RemainderAtMost(req);
    RemainderAtMost(resp);
    if req * 10 < Words.WORD {
      Words.SmallRemainder(req);
      Words.SmallRemainder(req * 10);
    }
  }

  lemma RemainderAtMost(x: nat)
    ensures 0 <= x % Words.WORD <= x
  {
  }

  // ---------------------------------------------------------------------
  // Verdicts on a capture
  // ---------------------------------------------------------------------

  ghost predicate InOrder(ps: seq<Packet>) {
    forall j, k :: 0 <= j <= k < |ps| ==> ps[j].time <= ps[k].time
  }

  ghost predicate Between(start: int, vs: seq<View>, end: int) {
    Monotone(start, vs) && start <= end && forall k :: 0 <= k < |vs| ==> vs[k].time <= end
  }

  lemma BetweenGrows(start: int, vs: seq<View>, end: int, v: View)
    requires Between(start, vs, end) && end <= v.time
    ensures Between(start, vs + [v], v.time)
  {
  }

  lemma {:induction false} ViewsInOrder(home: seq<Cidr>, ip: nat, ps: seq<Packet>)
    requires ps != [] && InOrder(ps)
    ensures Between(ps[0].time, OwnViews(home, ip, ps), ps[|ps| - 1].time)
  {
    var n := |ps| - 1;
    var v := OwnView(home, ip, ps[n]);
    assert v.Some? ==> v.value.time == ps[n].time;
    if n == 0 {
      assert OwnViews(home, ip, ps[..0]) == [];
    } else {
      ViewsInOrder(home, ip, ps[..n]);
      var front := OwnViews(home, ip, ps[..n]);
      assert ps[n - 1].time <= ps[n].time;
      if v.Some? { BetweenGrows(ps[0].time, front, ps[n - 1].time, v.value); } else { assert front + [] == front; }
    }
  }

  // At least 30 attempts within the minute before now.
  ghost predicate IsBurst(ts: seq<int>, now: int) {
    && |ts| >= 30
    && forall i :: |ts| - 30 <= i < |ts| ==> now - 60 <= ts[i] <= now
  }

  lemma BurstReported(ip: nat, start: int, vs: seq<View>, now: int)
    requires vs != [] && Between(start, vs, now) && vs[|vs| - 1].time == now
    requires Reported(ip, start, vs) == Some(KillChain.BruteForce)
    ensures IsBurst(LogOf(ip, start, vs).attempts, now)
  {
    BruteForceReport(ip, start, vs);
  }

  // Whatever the other addresses send: if a packet of a capture with ordered timestamps
  // gets the verdict BRUTE_FORCE, its source made at least 30 login attempts within the
  // last minute, all since its record was created by packet k.
  lemma BruteForceVerdict(home: seq<Cidr>, ip: nat, ps: seq<Packet>) returns (k: nat)
    requires ps != [] && InOrder(ps) && OwnView(home, ip, ps[|ps| - 1]).Some?
    requires Analyze(home, Run(home, ps[..|ps| - 1]), ps[|ps| - 1]).verdict.attack == Some(KillChain.BruteForce)
    ensures CreatedBy(home, ip, ps, k)
    ensures IsBurst(LogOf(ip, ps[k].time, OwnViews(home, ip, ps[k..])).attempts, ps[|ps| - 1].time)
  {
    k := VerdictIsReported(home, ip, ps);
    OrderedSince(home, ip, ps, k);
    BurstReported(ip, ps[k].time, OwnViews(home, ip, ps[k..]), ps[|ps| - 1].time);
  }

  lemma OrderedSince(home: seq<Cidr>, ip: nat, ps: seq<Packet>, k: nat)
    requires k < |ps| && InOrder(ps) && OwnView(home, ip, ps[|ps| - 1]).Some?
    ensures var vs := OwnViews(home, ip, ps[k..]);
            vs != [] && Between(ps[k].time, vs, ps[|ps| - 1].time) && vs[|vs| - 1].time == ps[|ps| - 1].time
  {
    ViewsInOrder(home, ip, ps[k..]);
    LastView(home, ip, ps[k..]);
  }

  // Attempts j to j + 58 fall within one minute.
  ghost predicate FiftyNine(ts: seq<int>, j: nat) {
    j + 58 < |ts| && ts[j + 58] - ts[j] <= 60
  }

  // Any 59 login attempts within a minute that reach the counter are reported.
  lemma FiftyNineReported(ip: nat, start: int, vs: seq<View>, j: nat) returns (n: nat)
    requires Monotone(start, vs) && FiftyNine(AttemptsOf(ip, start, vs), j)
    ensures n < |vs| && Reported(ip, start, vs[..n + 1]) == Some(KillChain.BruteForce)
    ensures AttemptsOf(ip, start, vs)[j] <= vs[n].time <= AttemptsOf(ip, start, vs)[j + 58]
  {
    var ts := AttemptsOf(ip, start, vs);
    AttemptsMonotone(ip, start, vs);
    var i := BruteForce.FiftyNineAlert(start, ts, j);
    n := AttemptView(ip, start, vs, i);
    assert vs[..n + 1][..n] == vs[..n];
    AlertIsReported(ip, start, vs[..n + 1]);
    assert ts[j] <= ts[i] <= ts[j + 58];
  }

  // And whatever the other addresses send: 59 logged attempts of one address within a
  // minute get the verdict BRUTE_FORCE for one of them.
  lemma FiftyNineVerdict(home: seq<Cidr>, ip: nat, ps: seq<Packet>, k: nat, j: nat) returns (m: nat)
    requires InOrder(ps) && CreatedBy(home, ip, ps, k)
    requires FiftyNine(AttemptsOf(ip, ps[k].time, ViewsSince(home, ip, ps, k)), j)
    ensures k <= m < |ps| && OwnView(home, ip, ps[m]).Some?
    ensures VerdictAt(home, ps, m).attack == Some(KillChain.BruteForce)
    ensures var ts := AttemptsOf(ip, ps[k].time, ViewsSince(home, ip, ps, k));
            ts[j] <= ps[m].time <= ts[j + 58]
  {
    ViewsInOrder(home, ip, ps[k..]);
    var n := FiftyNineReported(ip, ps[k].time, ViewsSince(home, ip, ps, k), j);
    m := PacketSince(home, ip, ps, k, n);
    VerdictAtPacket(home, ip, ps, k, m);
  }

  lemma PacketSince(home: seq<Cidr>, ip: nat, ps: seq<Packet>, k: nat, n: nat) returns (m: nat)
    requires k < |ps| && n < |ViewsSince(home, ip, ps, k)|
    ensures k <= m < |ps| && OwnView(home, ip, ps[m]).Some?
    ensures ViewsSince(home, ip, ps, k)[n].time == ps[m].time
    ensures ViewsSince(home, ip, ps[..m + 1], k) == ViewsSince(home, ip, ps, k)[..n + 1]
  {
    var at := ViewPacket(home, ip, ps[k..], n);
    m := k + at;
    assert ps[k..][at] == ps[m];
    assert ps[k..][..at + 1] == ps[..m + 1][k..];
  }

  // The verdict on any packet of the address since its creation.
  lemma VerdictAtPacket(home: seq<Cidr>, ip: nat, ps: seq<Packet>, k: nat, m: nat)
    requires CreatedBy(home, ip, ps, k) && k <= m < |ps| && OwnView(home, ip, ps[m]).Some?
    ensures ViewsSince(home, ip, ps[..m + 1], k) != []
    ensures VerdictAt(home, ps, m).attack == Reported(ip, ps[k].time, ViewsSince(home, ip, ps[..m + 1], k))
  {
    var part := ps[..m + 1];
    CreatedPrefix(home, ip, ps, k, m);
    assert part[..m] == ps[..m] && part[m] == ps[m] && part[k] == ps[k];
    VerdictSince(home, ip, part, k);
  }

  lemma LastView(home: seq<Cidr>, ip: nat, ps: seq<Packet>)
    requires ps != [] && OwnView(home, ip, ps[|ps| - 1]).Some?
    ensures var vs := OwnViews(home, ip, ps);
            vs != [] && vs[|vs| - 1].time == ps[|ps| - 1].time
  {
  }
}
