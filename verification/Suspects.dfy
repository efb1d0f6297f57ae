/** The per-address record of analyzer.c: the detectors, one packet's effect on the
    record of its source, and what the record says about the packets behind it. */
module Suspects {
  import opened Wrappers
  import opened Ewma
  import Baseline
  import BruteForce
  import DnsName
  import KillChain
  import Words

  type byte = DnsName.byte

  type Attack = KillChain.Attack

  const SCAN_THRESHOLD: nat := 15
  const ICMP_THRESHOLD: nat := 20
  const SYN_FLOOD_THRESHOLD: nat := 100
  const STEALTH_THRESHOLD: nat := 3
  const DNS_SUBDOMAIN_LEN: nat := 50
  const DNS_SUSPICIOUS_MAX: nat := 10
  const AMPLIFICATION_RATIO: nat := 10
  const DOMAIN_SIZE: nat := 256

  const FIN: nat := 1
  const SYN: nat := 2
  const PUSH: nat := 8
  const ACK: nat := 16
  const URG: nat := 32

  predicate Has(flags: byte, bit: nat)
    requires bit > 0
  {
    flags / bit % 2 == 1
  }

  datatype Suspect = Suspect(
    ip: nat,
    lastSeen: int,
    ports: seq<nat>,
    icmpCount: nat,
    synCount: nat,
    nullCount: nat,
    xmasCount: nat,
    synfinCount: nat,
    brute: BruteForce.Counter,
    dnsQueries: nat,
    dnsSuspicious: nat,
    reqBytes: nat,
    respBytes: nat,
    baseline: Baseline.Baseline,
    kc: KillChain.KillChain)

  // A record as find_or_create_suspect zeroes it.
  function Create(ip: nat, now: int): Suspect {
    Suspect(ip, now, [], 0, 0, 0, 0, 0, BruteForce.Counter(0, now), 0, 0, 0, 0,
            Baseline.Fresh(now), KillChain.FRESH)
  }

  // What follows a valid IPv4 header.
  datatype Segment =
    | Icmp
    | Tcp(dport: nat, flags: byte)
    | Udp(sport: nat, udport: nat, payload: seq<byte>)
    | Other

  // A packet as the detectors see it; highEntropy is the entropy verdict on the
  // name it queries, if it has one.
  datatype View = View(time: int, length: nat, segment: Segment, highEntropy: bool)

  datatype Outcome = Outcome(suspect: Suspect, attack: Option<Attack>)

  // ---------------------------------------------------------------------
  // Adaptive thresholds
  // ---------------------------------------------------------------------

  predicate Calibrated(b: Baseline.Baseline) {
    b.sampleCount >= CALIBRATION && b.pps.variance > 0.0
  }

  // count > (int)(factor * (mean + 3 * stddev)), without the square root.
  predicate ExceedsBurst(count: nat, factor: real, t: Track)
    requires factor > 0.0
  {
    var excess := count as real / factor - t.mean;
    excess > 0.0 && Square(excess) > 9.0 * t.variance
  }

  // The threshold of the source, with its truncation to an integer.
  function BurstThreshold(factor: real, t: Track, stddev: real, least: nat): int {
    var adaptive := (factor * (t.mean + 3.0 * stddev)).Floor;
    if adaptive < least then least else adaptive
  }

  lemma BurstBySquareRoot(count: nat, factor: real, t: Track, stddev: real, least: nat)
    requires factor > 0.0 && stddev >= 0.0 && Square(stddev) == t.variance
    ensures count > BurstThreshold(factor, t, stddev, least)
            <==> count > least && ExceedsBurst(count, factor, t)
  {
    var c, y := count as real, factor * (t.mean + 3.0 * stddev);
    assert count > y.Floor <==> c > y;
    var excess := c / factor - t.mean;
    ScaledOrder(c, factor, t.mean + 3.0 * stddev);
    assert c > y <==> excess > 3.0 * stddev;
    assert Square(3.0 * stddev) == 9.0 * Square(stddev);
    if excess >= 0.0 {
      SquareOrder(excess, 3.0 * stddev);
    }
    assert Square(0.0) == 0.0;
    SquareSign(stddev);
  }

  lemma ScaledOrder(c: real, f: real, m: real)
    requires f > 0.0
    ensures c > f * m <==> c / f > m
  {
    var q := c / f;
    assert q * f == c;
    if q > m {
      ProductSign(f, q - m);
      assert Product(f, q - m) == c - f * m;
    } else {
      ProductSign(f, m - q);
      assert Product(f, m - q) == f * m - c;
    }
  }

  // ---------------------------------------------------------------------
  // Detectors
  // ---------------------------------------------------------------------

  function DetectSynFlood(s0: Suspect, flags: byte): Outcome {
    if !Has(flags, SYN) || Has(flags, ACK) then Outcome(s0, None)
    else
      var s := s0.(synCount := s0.synCount + 1);
      var exceeded := if Calibrated(s.baseline) then s.synCount > 10 && ExceedsBurst(s.synCount, 2.0, s.baseline.pps)
                      else s.synCount > SYN_FLOOD_THRESHOLD;
      Outcome(s, if exceeded then Some(KillChain.SynFlood) else None)
  }

  function DetectIcmpFlood(s0: Suspect): Outcome {
    var s := s0.(icmpCount := s0.icmpCount + 1);
    var exceeded := if Calibrated(s.baseline) then s.icmpCount > 5 && ExceedsBurst(s.icmpCount, 1.5, s.baseline.pps)
                    else s.icmpCount > ICMP_THRESHOLD;
    Outcome(s, if exceeded then Some(KillChain.IcmpFlood) else None)
  }

  function DetectStealthScan(s0: Suspect, flags: byte): Outcome {
    var s1 := if flags == 0 then s0.(nullCount := s0.nullCount + 1) else s0;
    if flags == 0 && s1.nullCount >= STEALTH_THRESHOLD then Outcome(s1, Some(KillChain.NullScan))
    else
      var xmas := Has(flags, FIN) && Has(flags, PUSH) && Has(flags, URG);
      var s2 := if xmas then s1.(xmasCount := s1.xmasCount + 1) else s1;
      if xmas && s2.xmasCount >= STEALTH_THRESHOLD then Outcome(s2, Some(KillChain.XmasScan))
      else
        var synfin := Has(flags, SYN) && Has(flags, FIN);
        var s3 := if synfin then s2.(synfinCount := s2.synfinCount + 1) else s2;
        Outcome(s3, if synfin && s3.synfinCount >= STEALTH_THRESHOLD then Some(KillChain.SynfinScan) else None)
  }

  predicate IsLogin(flags: byte, dport: nat) {
    Has(flags, SYN) && !Has(flags, ACK) && (dport == 22 || dport == 21 || dport == 3389)
  }

  function DetectBruteForce(s0: Suspect, flags: byte, dport: nat, now: int): Outcome {
    if !IsLogin(flags, dport) then Outcome(s0, None)
    else
      var s := s0.(brute := BruteForce.Attempt(s0.brute, now));
      Outcome(s, if s.brute.Alerts() then Some(KillChain.BruteForce) else None)
  }

  function DetectPortScan(s0: Suspect, dport: nat): Outcome {
    if dport in s0.ports then Outcome(s0, None)
    else
      var s := if |s0.ports| < SCAN_THRESHOLD then s0.(ports := s0.ports + [dport]) else s0;
      Outcome(s, if |s.ports| >= SCAN_THRESHOLD then Some(KillChain.PortScan) else None)
  }

  // The name of a query is suspicious.
  predicate SuspiciousName(s: Suspect, name: seq<byte>, highEntropy: bool) {
    || DnsName.Subdomain(name) > DNS_SUBDOMAIN_LEN
    || highEntropy
    || (s.baseline.sampleCount >= CALIBRATION && IsAnomaly(s.dnsQueries as real, s.baseline.dns))
  }

  function DetectDnsTunnel(s0: Suspect, payload: seq<byte>, highEntropy: bool): Outcome {
    match DnsName.Extract(payload, DOMAIN_SIZE)
    case None => Outcome(s0, None)
    case Some(name) =>
      if name == [] then Outcome(s0, None)
      else
        var s := s0.(dnsQueries := s0.dnsQueries + 1);
        if !SuspiciousName(s, name, highEntropy) then Outcome(s, None)
        else
          var s' := s.(dnsSuspicious := s.dnsSuspicious + 1);
          Outcome(s', if s'.dnsSuspicious >= DNS_SUSPICIOUS_MAX then Some(KillChain.DnsTunnel) else None)
  }

  // The byte totals are 64-bit and wrap.
  function DetectAmplification(s0: Suspect, bytes: nat, isResponse: bool): Outcome {
    var s := if isResponse then s0.(respBytes := (s0.respBytes + bytes) % Words.WORD)
             else s0.(reqBytes := (s0.reqBytes + bytes) % Words.WORD);
    var amplified := s.reqBytes >= 100 && s.respBytes > s.reqBytes * AMPLIFICATION_RATIO % Words.WORD;
    Outcome(s, if amplified then Some(KillChain.Amplification) else None)
  }

  // ---------------------------------------------------------------------
  // One packet
  // ---------------------------------------------------------------------

  function UpdateBaseline(s: Suspect, newPort: bool, isDns: bool, now: int): Suspect {
    s.(baseline := Baseline.Update(s.baseline, newPort, isDns, now))
  }

  // The detectors a packet runs through, in order; the first hit ends the chain.
  function Detect(s: Suspect, v: View): Outcome {
    match v.segment
    case Icmp => DetectIcmpFlood(UpdateBaseline(s, false, false, v.time))
    case Tcp(dport, flags) => DetectTcp(s, dport, flags, v.time)
    case Udp(sport, dport, payload) => DetectUdp(s, v)
    case Other => Outcome(s, None)
  }

  function BeforeBrute(s: Suspect, dport: nat, flags: byte, now: int): Outcome {
    var o := DetectStealthScan(UpdateBaseline(s, dport !in s.ports, false, now), flags);
    if o.attack.Some? then o else DetectSynFlood(o.suspect, flags)
  }

  function DetectTcp(s: Suspect, dport: nat, flags: byte, now: int): Outcome {
    var o1 := BeforeBrute(s, dport, flags, now);
    if o1.attack.Some? then o1
    else
      var o2 := DetectBruteForce(o1.suspect, flags, dport, now);
      if o2.attack.Some? then o2 else DetectPortScan(o2.suspect, dport)
  }

  predicate IsDns(v: View)
    requires v.segment.Udp?
  {
    v.segment.sport == 53 || v.segment.udport == 53
  }

  predicate IsResponse(payload: seq<byte>)
    requires |payload| >= 12
  {
    payload[2] >= 128
  }

  function DetectUdp(s0: Suspect, v: View): Outcome
    requires v.segment.Udp?
  {
    var s := UpdateBaseline(s0, false, IsDns(v), v.time);
    var payload := v.segment.payload;
    if !IsDns(v) || |payload| < 12 then Outcome(s, None)
    else
      var o := if IsResponse(payload) then Outcome(s, None) else DetectDnsTunnel(s, payload, v.highEntropy);
      if o.attack.Some? then o else DetectAmplification(o.suspect, v.length, IsResponse(payload))
  }

  // A detection advances the kill chain.
  function Observe(s: Suspect, v: View): Outcome {
    var o := Detect(s, v);
    match o.attack
    case None => o
    case Some(a) => Outcome(o.suspect.(kc := KillChain.Advance(o.suspect.kc, a, v.time)), o.attack)
  }

  // ---------------------------------------------------------------------
  // The record of an address as an automaton over its own packets
  // ---------------------------------------------------------------------

  function Follow(ip: nat, start: int, vs: seq<View>): Suspect {
    if vs == [] then Create(ip, start)
    else
      var v := vs[|vs| - 1];
      Observe(Follow(ip, start, vs[..|vs| - 1]).(lastSeen := v.time), v).suspect
  }

  // What the packets meant to the components of the record.
  datatype Log = Log(
    sightings: seq<Baseline.Sighting>,
    attempts: seq<int>,
    detections: seq<KillChain.Detection>,
    ports: set<nat>)

  function Entry(s: Suspect, v: View): Log {
    var o := Detect(s, v);
    var ds := if o.attack.Some? then [KillChain.Detection(o.attack.value, v.time)] else [];
    match v.segment
    case Icmp => Log([Baseline.Sighting(false, false, v.time)], [], ds, {})
    case Tcp(dport, flags) =>
      var reached := BeforeBrute(s, dport, flags, v.time).attack.None? && IsLogin(flags, dport);
      Log([Baseline.Sighting(dport !in s.ports, false, v.time)], if reached then [v.time] else [], ds, {dport})
    case Udp(_, _, _) => Log([Baseline.Sighting(false, IsDns(v), v.time)], [], ds, {})
    case Other => Log([], [], ds, {})
  }

  function LogOf(ip: nat, start: int, vs: seq<View>): Log {
    if vs == [] then Log([], [], [], {})
    else
      var v := vs[|vs| - 1];
      var l := LogOf(ip, start, vs[..|vs| - 1]);
      var e := Entry(Follow(ip, start, vs[..|vs| - 1]).(lastSeen := v.time), v);
      Log(l.sightings + e.sightings, l.attempts + e.attempts, l.detections + e.detections, l.ports + e.ports)
  }

  // Each component of the record is its own automaton on its part of the log, so
  // what is proved about baselines, brute-force counters and kill chains holds of it.
  ghost predicate Explains(s: Suspect, ip: nat, start: int, l: Log) {
    && s.ip == ip
    && s.baseline == Baseline.Run(start, l.sightings)
    && s.brute == BruteForce.Run(start, l.attempts)
    && s.kc == KillChain.Run(l.detections)
    && PortsFrom(s.ports, l.ports)
  }

  ghost predicate PortsFrom(ports: seq<nat>, hit: set<nat>) {
    && |ports| <= SCAN_THRESHOLD
    && (forall i, j :: 0 <= i < j < |ports| ==> ports[i] != ports[j])
    && (forall i :: 0 <= i < |ports| ==> ports[i] in hit)
  }

  // One packet changes the components as its log entry says.
  ghost predicate EntryExplains(s: Suspect, t: Suspect, e: Log) {
    && t.ip == s.ip && t.lastSeen == s.lastSeen && t.kc == s.kc
    && t.baseline == (if e.sightings == [] then s.baseline
                      else var g := e.sightings[0]; Baseline.Update(s.baseline, g.newPort, g.isDns, g.now))
    && t.brute == (if e.attempts == [] then s.brute else BruteForce.Attempt(s.brute, e.attempts[0]))
    && |e.sightings| <= 1 && |e.attempts| <= 1
    && PortsGrow(s.ports, t.ports, e.ports)
  }

  // At most one port is added, one the packet hit and the table did not have.
  ghost predicate PortsGrow(before: seq<nat>, after: seq<nat>, hit: set<nat>) {
    || after == before
    || exists p :: p in hit && p !in before && |before| < SCAN_THRESHOLD && after == before + [p]
  }

  // The first two TCP detectors touch their counters and the baseline only.
  lemma BeforeBruteKeeps(s: Suspect, dport: nat, flags: byte, now: int)
    ensures var t := BeforeBrute(s, dport, flags, now).suspect;
            t == UpdateBaseline(s, dport !in s.ports, false, now).(
                   nullCount := t.nullCount, xmasCount := t.xmasCount, synfinCount := t.synfinCount, synCount := t.synCount)
  {
    var u := UpdateBaseline(s, dport !in s.ports, false, now);
    var o := DetectStealthScan(u, flags);
    assert o.suspect == u.(nullCount := o.suspect.nullCount, xmasCount := o.suspect.xmasCount,
                           synfinCount := o.suspect.synfinCount);
  }

  lemma TcpExplained(s: Suspect, v: View)
    requires v.segment.Tcp?
    ensures EntryExplains(s, Detect(s, v).suspect, Entry(s, v))
  {
    var dport, flags := v.segment.dport, v.segment.flags;
    var o1 := BeforeBrute(s, dport, flags, v.time);
    BeforeBruteKeeps(s, dport, flags, v.time);
    var o2 := DetectBruteForce(o1.suspect, flags, dport, v.time);
    assert o2.suspect == o1.suspect.(brute := o2.suspect.brute);
    var o3 := DetectPortScan(o2.suspect, dport);
    assert o3.suspect == o2.suspect.(ports := o3.suspect.ports);
    assert o3.suspect.ports != s.ports ==> dport !in s.ports && o3.suspect.ports == s.ports + [dport];
  }

  lemma UdpExplained(s: Suspect, v: View)
    requires v.segment.Udp?
    ensures EntryExplains(s, Detect(s, v).suspect, Entry(s, v))
  {
  }

  lemma DetectExplained(s: Suspect, v: View)
    ensures EntryExplains(s, Detect(s, v).suspect, Entry(s, v))
  {
    match v.segment
    case Tcp(_, _) => TcpExplained(s, v);
    case Udp(_, _, _) => UdpExplained(s, v);
    case Icmp =>
    case Other =>
  }

  function Append(l: Log, e: Log): Log {
    Log(l.sightings + e.sightings, l.attempts + e.attempts, l.detections + e.detections, l.ports + e.ports)
  }

  lemma SightingsRun(start: int, ss: seq<Baseline.Sighting>, e: seq<Baseline.Sighting>)
    requires |e| <= 1
    ensures Baseline.Run(start, ss + e)
            == if e == [] then Baseline.Run(start, ss)
               else Baseline.Update(Baseline.Run(start, ss), e[0].newPort, e[0].isDns, e[0].now)
  {
    if e == [] { assert ss + e == ss; } else { assert (ss + e)[..|ss|] == ss; }
  }

  lemma AttemptsRun(start: int, ts: seq<int>, e: seq<int>)
    requires |e| <= 1
    ensures BruteForce.Run(start, ts + e)
            == if e == [] then BruteForce.Run(start, ts) else BruteForce.Attempt(BruteForce.Run(start, ts), e[0])
  {
    if e == [] { assert ts + e == ts; } else { assert (ts + e)[..|ts|] == ts; }
  }

  lemma DetectionsRun(ds: seq<KillChain.Detection>, e: seq<KillChain.Detection>)
    requires |e| <= 1
    ensures KillChain.Run(ds + e)
            == if e == [] then KillChain.Run(ds) else KillChain.Advance(KillChain.Run(ds), e[0].attack, e[0].time)
  {
    if e == [] { assert ds + e == ds; } else { assert (ds + e)[..|ds|] == ds; }
  }

  lemma PortsFromGrow(before: seq<nat>, after: seq<nat>, all: set<nat>, hit: set<nat>)
    requires PortsFrom(before, all) && PortsGrow(before, after, hit)
    ensures PortsFrom(after, all + hit)
  {
  }

  lemma ObserveExplained(s: Suspect, v: View, ip: nat, start: int, l: Log)
    requires Explains(s, ip, start, l)
    ensures Explains(Observe(s, v).suspect, ip, start, Append(l, Entry(s, v)))
    ensures Observe(s, v).suspect.lastSeen == s.lastSeen
  {
    DetectExplained(s, v);
    EntryGrows(s, Detect(s, v).suspect, Observe(s, v).suspect.kc, ip, start, l, Entry(s, v));
  }

  lemma EntryGrows(s: Suspect, t: Suspect, kc: KillChain.KillChain, ip: nat, start: int, l: Log, e: Log)
    requires Explains(s, ip, start, l) && EntryExplains(s, t, e) && |e.detections| <= 1
    requires kc == if e.detections == [] then s.kc
                   else KillChain.Advance(s.kc, e.detections[0].attack, e.detections[0].time)
    ensures Explains(t.(kc := kc), ip, start, Append(l, e))
  {
    SightingsRun(start, l.sightings, e.sightings);
    AttemptsRun(start, l.attempts, e.attempts);
    DetectionsRun(l.detections, e.detections);
    PortsFromGrow(s.ports, t.ports, l.ports, e.ports);
  }

  lemma {:induction false} FollowExplained(ip: nat, start: int, vs: seq<View>)
    ensures Explains(Follow(ip, start, vs), ip, start, LogOf(ip, start, vs))
    ensures Follow(ip, start, vs).lastSeen == if vs == [] then start else vs[|vs| - 1].time
  {
    if vs != [] {
      var n := |vs| - 1;
      FollowExplained(ip, start, vs[..n]);
      var s := Follow(ip, start, vs[..n]).(lastSeen := vs[n].time);
      ObserveExplained(s, vs[n], ip, start, LogOf(ip, start, vs[..n]));
    }
  }

  // ---------------------------------------------------------------------
  // What a detection guarantees
  // ---------------------------------------------------------------------

  ghost predicate Monotone(start: int, vs: seq<View>) {
    && (forall k :: 0 <= k < |vs| ==> start <= vs[k].time)
    && forall j, k :: 0 <= j <= k < |vs| ==> vs[j].time <= vs[k].time
  }

  ghost predicate AttemptsUpTo(start: int, ts: seq<int>, t: int) {
    BruteForce.Monotone(start, ts) && start <= t && forall k :: 0 <= k < |ts| ==> ts[k] <= t
  }

  lemma AttemptsAppend(start: int, ts: seq<int>, t: int, e: seq<int>, t': int)
    requires AttemptsUpTo(start, ts, t) && t <= t' && (e == [] || e == [t'])
    ensures AttemptsUpTo(start, ts + e, t')
  {
  }

  lemma EntryAttempts(s: Suspect, v: View)
    ensures Entry(s, v).attempts == [] || Entry(s, v).attempts == [v.time]
  {
  }

  function LastTime(start: int, vs: seq<View>): int {
    if vs == [] then start else vs[|vs| - 1].time
  }

  lemma {:induction false} AttemptsMonotone(ip: nat, start: int, vs: seq<View>)
    requires Monotone(start, vs)
    ensures AttemptsUpTo(start, LogOf(ip, start, vs).attempts, LastTime(start, vs))
  {
    if vs != [] {
      var n := |vs| - 1;
      var l := LogOf(ip, start, vs[..n]);
      AttemptsMonotone(ip, start, vs[..n]);
      var s := Follow(ip, start, vs[..n]).(lastSeen := vs[n].time);
      EntryAttempts(s, vs[n]);
      AttemptsAppend(start, l.attempts, LastTime(start, vs[..n]), Entry(s, vs[n]).attempts, vs[n].time);
    }
  }

  // The attack an address is reported for with its last packet.
  function Reported(ip: nat, start: int, vs: seq<View>): Option<Attack>
    requires vs != []
  {
    var v := vs[|vs| - 1];
    Observe(Follow(ip, start, vs[..|vs| - 1]).(lastSeen := v.time), v).attack
  }

  // The login attempts of the address that reached the counter.
  function AttemptsOf(ip: nat, start: int, vs: seq<View>): seq<int> {
    LogOf(ip, start, vs).attempts
  }

  lemma AttemptsNext(ip: nat, start: int, vs: seq<View>)
    requires vs != []
    ensures var n := |vs| - 1;
            var front := AttemptsOf(ip, start, vs[..n]);
            AttemptsOf(ip, start, vs) == front || AttemptsOf(ip, start, vs) == front + [vs[n].time]
  {
    var n := |vs| - 1;
    var s := Follow(ip, start, vs[..n]).(lastSeen := vs[n].time);
    EntryAttempts(s, vs[n]);
    assert AttemptsOf(ip, start, vs) == AttemptsOf(ip, start, vs[..n]) + Entry(s, vs[n]).attempts;
  }

  // The packet that logged attempt number i.
  ghost predicate LoggedBy(ip: nat, start: int, vs: seq<View>, i: nat, n: nat) {
    && n < |vs| && i < |AttemptsOf(ip, start, vs)|
    && vs[n].time == AttemptsOf(ip, start, vs)[i]
    && AttemptsOf(ip, start, vs[..n]) == AttemptsOf(ip, start, vs)[..i]
    && AttemptsOf(ip, start, vs[..n + 1]) == AttemptsOf(ip, start, vs)[..i + 1]
  }

  lemma {:induction false} AttemptView(ip: nat, start: int, vs: seq<View>, i: nat) returns (n: nat)
    requires i < |AttemptsOf(ip, start, vs)|
    ensures LoggedBy(ip, start, vs, i, n)
  {
    var last := |vs| - 1;
    AttemptsNext(ip, start, vs);
    if i < |AttemptsOf(ip, start, vs[..last])| {
      n := AttemptView(ip, start, vs[..last], i);
      LoggedBefore(ip, start, vs, i, n);
    } else {
      n := last;
      assert vs[..last + 1] == vs;
    }
  }

  lemma LoggedBefore(ip: nat, start: int, vs: seq<View>, i: nat, n: nat)
    requires vs != [] && LoggedBy(ip, start, vs[..|vs| - 1], i, n)
    ensures LoggedBy(ip, start, vs, i, n)
  {
    AttemptsNext(ip, start, vs);
    assert vs[..|vs| - 1][..n] == vs[..n] && vs[..|vs| - 1][..n + 1] == vs[..n + 1];
  }

  // An attempt that makes the counter alert is reported.
  lemma AlertIsReported(ip: nat, start: int, vs: seq<View>)
    requires vs != []
    requires |LogOf(ip, start, vs).attempts| > |LogOf(ip, start, vs[..|vs| - 1]).attempts|
    requires BruteForce.Run(start, LogOf(ip, start, vs).attempts).Alerts()
    ensures Reported(ip, start, vs) == Some(KillChain.BruteForce)
  {
    var n := |vs| - 1;
    var s := Follow(ip, start, vs[..n]).(lastSeen := vs[n].time);
    FollowExplained(ip, start, vs);
    assert Follow(ip, start, vs) == Observe(s, vs[n]).suspect;
    LoggedAlert(s, vs[n]);
  }

  lemma LoggedAlert(s: Suspect, v: View)
    requires Entry(s, v).attempts != [] && Observe(s, v).suspect.brute.Alerts()
    ensures Observe(s, v).attack == Some(KillChain.BruteForce)
  {
    assert v.segment.Tcp?;
  }

  // A brute-force report rests on 30 login attempts of this very address within the
  // last minute.
  lemma BruteForceReport(ip: nat, start: int, vs: seq<View>)
    requires vs != [] && Monotone(start, vs) && Reported(ip, start, vs) == Some(KillChain.BruteForce)
    ensures var ts := LogOf(ip, start, vs).attempts;
            && |ts| >= 30
            && ts[|ts| - 1] == vs[|vs| - 1].time
            && forall k :: |ts| - 30 <= k < |ts| ==>
                 vs[|vs| - 1].time - 60 <= ts[k] <= vs[|vs| - 1].time
  {
    var n := |vs| - 1;
    var v := vs[n];
    var s := Follow(ip, start, vs[..n]).(lastSeen := v.time);
    FollowExplained(ip, start, vs);
    AttemptsMonotone(ip, start, vs);
    BruteDetection(s, v);
    var ts := LogOf(ip, start, vs).attempts;
    BruteForce.AlertMeansThirty(start, ts);
  }

  lemma BruteDetection(s: Suspect, v: View)
    requires Observe(s, v).attack == Some(KillChain.BruteForce)
    ensures Entry(s, v).attempts == [v.time] && Observe(s, v).suspect.brute.Alerts()
  {
    match v.segment
    case Tcp(dport, flags) =>
    case Udp(_, _, _) =>
    case Icmp =>
    case Other =>
  }

  // A port-scan report rests on 15 different ports hit by this very address.
  lemma PortScanReport(ip: nat, start: int, vs: seq<View>)
    requires vs != [] && Reported(ip, start, vs) == Some(KillChain.PortScan)
    ensures var ports := Follow(ip, start, vs).ports;
            && |ports| == SCAN_THRESHOLD
            && (forall i, j :: 0 <= i < j < |ports| ==> ports[i] != ports[j])
            && forall i :: 0 <= i < |ports| ==> ports[i] in LogOf(ip, start, vs).ports
  {
    var n := |vs| - 1;
    var s := Follow(ip, start, vs[..n]).(lastSeen := vs[n].time);
    FollowExplained(ip, start, vs);
    PortDetection(s, vs[n]);
  }

  lemma PortDetection(s: Suspect, v: View)
    requires Observe(s, v).attack == Some(KillChain.PortScan)
    ensures |Observe(s, v).suspect.ports| >= SCAN_THRESHOLD
  {
    match v.segment
    case Tcp(dport, flags) =>
    case Udp(_, _, _) =>
    case Icmp =>
    case Other =>
  }
}
