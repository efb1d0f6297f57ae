/** What the TCP detectors of analyzer.c report: exactly when, in terms of the packets an
    address has sent since its record was created and of the earlier detectors of the
    chain. */
module ScanReports {
  import opened Wrappers
  import opened Suspects
  import opened SuspectTable
  import opened DetectorReports
  import Baseline
  import BruteForce
  import KillChain

  // ---------------------------------------------------------------------
  // One packet through the chain
  // ---------------------------------------------------------------------

  predicate IsStealth(a: Option<Attack>) {
    a == Some(KillChain.NullScan) || a == Some(KillChain.XmasScan) || a == Some(KillChain.SynfinScan)
  }

  // A count of initial SYNs that is too high for the record's baseline.
  predicate IsFlood(s: Suspect, count: nat) {
    if s.baseline.sampleCount >= 100 && s.baseline.pps.variance > 0.0
    then count > 10 && ExceedsBurst(count, 2.0, s.baseline.pps)
    else count > 100
  }

  // An initial SYN to SSH, FTP or RDP.
  predicate IsLoginAttempt(v: View) {
    IsInitialSyn(v) && (v.segment.dport == 22 || v.segment.dport == 21 || v.segment.dport == 3389)
  }

  lemma SynStep(s: Suspect, v: View)
    ensures var o := Detect(s, v);
            && o.suspect.synCount == s.synCount + One(IsInitialSyn(v) && !IsStealth(o.attack))
            && (o.attack == Some(KillChain.SynFlood)
                <==> IsInitialSyn(v) && !IsStealth(o.attack) && IsFlood(o.suspect, o.suspect.synCount))
  {
    OtherAttacks(s, v);
    if v.segment.Tcp? { TcpSynStep(s, v.segment.dport, v.segment.flags, v.time); }
  }

  lemma TcpSynStep(s: Suspect, dport: nat, flags: byte, now: int)
    ensures var o := DetectTcp(s, dport, flags, now);
            var initial := flags / 2 % 2 == 1 && flags / 16 % 2 == 0;
            && o.suspect.synCount == s.synCount + One(initial && !IsStealth(o.attack))
            && (o.attack == Some(KillChain.SynFlood)
                <==> initial && !IsStealth(o.attack) && IsFlood(o.suspect, o.suspect.synCount))
  {
    var o1 := BeforeBrute(s, dport, flags, now);
    BeforeBruteKeeps(s, dport, flags, now);
    var o2 := DetectBruteForce(o1.suspect, flags, dport, now);
    assert o2.suspect == o1.suspect.(brute := o2.suspect.brute);
    var o3 := DetectPortScan(o2.suspect, dport);
    assert o3.suspect == o2.suspect.(ports := o3.suspect.ports);
  }

  lemma SynfinStep(s: Suspect, v: View)
    ensures var o := Detect(s, v);
            && o.suspect.synfinCount == s.synfinCount + One(IsSynfinProbe(v) && o.attack != Some(KillChain.XmasScan))
            && (o.attack == Some(KillChain.SynfinScan)
                <==> IsSynfinProbe(v) && o.attack != Some(KillChain.XmasScan) && o.suspect.synfinCount >= 3)
  {
    OtherAttacks(s, v);
    if v.segment.Tcp? { TcpSynfinStep(s, v.segment.dport, v.segment.flags, v.time); }
  }

  lemma TcpSynfinStep(s: Suspect, dport: nat, flags: byte, now: int)
    ensures var o := DetectTcp(s, dport, flags, now);
            var synfin := flags / 2 % 2 == 1 && flags % 2 == 1;
            && o.suspect.synfinCount == s.synfinCount + One(synfin && o.attack != Some(KillChain.XmasScan))
            && (o.attack == Some(KillChain.SynfinScan)
                <==> synfin && o.attack != Some(KillChain.XmasScan) && o.suspect.synfinCount >= 3)
  {
    var o1 := BeforeBrute(s, dport, flags, now);
    BeforeBruteKeeps(s, dport, flags, now);
    var o2 := DetectBruteForce(o1.suspect, flags, dport, now);
    assert o2.suspect == o1.suspect.(brute := o2.suspect.brute);
    var o3 := DetectPortScan(o2.suspect, dport);
    assert o3.suspect == o2.suspect.(ports := o3.suspect.ports);
  }

  // A login attempt is logged unless an earlier detector reported the packet.
  lemma LoginStep(s: Suspect, v: View)
    ensures var o := Detect(s, v);
            var logged := IsLoginAttempt(v) && !IsStealth(o.attack) && o.attack != Some(KillChain.SynFlood);
            && Entry(s, v).attempts == (if logged then [v.time] else [])
            && (o.attack == Some(KillChain.BruteForce) <==> logged && o.suspect.brute.Alerts())
  {
    OtherAttacks(s, v);
    if v.segment.Tcp? { TcpLoginStep(s, v); }
  }

  lemma TcpLoginStep(s: Suspect, v: View)
    requires v.segment.Tcp?
    ensures var o := Detect(s, v);
            var logged := IsLoginAttempt(v) && !IsStealth(o.attack) && o.attack != Some(KillChain.SynFlood);
            && Entry(s, v).attempts == (if logged then [v.time] else [])
            && (o.attack == Some(KillChain.BruteForce) <==> logged && o.suspect.brute.Alerts())
  {
    var dport, flags := v.segment.dport, v.segment.flags;
    var o1 := BeforeBrute(s, dport, flags, v.time);
    var o2 := DetectBruteForce(o1.suspect, flags, dport, v.time);
    var o3 := DetectPortScan(o2.suspect, dport);
    assert o3.suspect == o2.suspect.(ports := o3.suspect.ports);
  }

  // A packet reaches the port-scan detector unless an earlier one reported it.
  predicate PassedOn(a: Option<Attack>) {
    a == None || a == Some(KillChain.PortScan)
  }

  lemma PortStep(s: Suspect, v: View)
    ensures var o := Detect(s, v);
            var unseen := v.segment.Tcp? && PassedOn(o.attack) && v.segment.dport !in s.ports;
            && o.suspect.ports == (if unseen && |s.ports| < 15 then s.ports + [v.segment.dport] else s.ports)
            && (o.attack == Some(KillChain.PortScan) <==> unseen && |o.suspect.ports| >= 15)
  {
    match v.segment
    case Icmp =>
    case Tcp(dport, flags) => TcpPortStep(s, dport, flags, v.time);
    case Udp(_, _, _) => UdpLeavesPorts(s, v);
    case Other =>
  }

  lemma TcpPortStep(s: Suspect, dport: nat, flags: byte, now: int)
    ensures var o := DetectTcp(s, dport, flags, now);
            var unseen := PassedOn(o.attack) && dport !in s.ports;
            && o.suspect.ports == (if unseen && |s.ports| < 15 then s.ports + [dport] else s.ports)
            && (o.attack == Some(KillChain.PortScan) <==> unseen && |o.suspect.ports| >= 15)
  {
    var o1 := BeforeBrute(s, dport, flags, now);
    BeforeBruteKeeps(s, dport, flags, now);
    var o2 := DetectBruteForce(o1.suspect, flags, dport, now);
    assert o2.suspect == o1.suspect.(brute := o2.suspect.brute);
  }

  lemma UdpLeavesPorts(s: Suspect, v: View)
    requires v.segment.Udp?
    ensures DetectUdp(s, v).suspect.ports == s.ports && DetectUdp(s, v).attack != Some(KillChain.PortScan)
  {
  }

  // ---------------------------------------------------------------------
  // Reports on an address
  // ---------------------------------------------------------------------

  // The initial SYNs of an address that no stealth scan was reported for.
  predicate CountsSyn(ip: nat, start: int, vs: seq<View>)
    requires vs != []
  {
    IsInitialSyn(vs[|vs| - 1]) && !IsStealth(Reported(ip, start, vs))
  }

  function SynCount(ip: nat, start: int, vs: seq<View>): nat {
    if vs == [] then 0 else SynCount(ip, start, vs[..|vs| - 1]) + One(CountsSyn(ip, start, vs))
  }

  lemma {:induction false} SynsAreCounted(ip: nat, start: int, vs: seq<View>)
    ensures Follow(ip, start, vs).synCount == SynCount(ip, start, vs)
  {
    if vs != [] {
      SynsAreCounted(ip, start, vs[..|vs| - 1]);
      var s := LastReport(ip, start, vs);
      SynStep(s, vs[|vs| - 1]);
    }
  }

  // SYN_FLOOD is reported exactly for an initial SYN that no stealth scan is reported for
  // and that is, before calibration, at least the 101st such SYN of the address, and
  // after it above the adaptive threshold.
  lemma SynFloodReport(ip: nat, start: int, vs: seq<View>)
    requires vs != []
    ensures Reported(ip, start, vs) == Some(KillChain.SynFlood)
            <==> CountsSyn(ip, start, vs) && IsFlood(Follow(ip, start, vs), SynCount(ip, start, vs))
  {
    var s := LastReport(ip, start, vs);
    SynStep(s, vs[|vs| - 1]);
    SynsAreCounted(ip, start, vs);
  }

  predicate CountsSynfin(ip: nat, start: int, vs: seq<View>)
    requires vs != []
  {
    IsSynfinProbe(vs[|vs| - 1]) && Reported(ip, start, vs) != Some(KillChain.XmasScan)
  }

  function SynfinCount(ip: nat, start: int, vs: seq<View>): nat {
    if vs == [] then 0 else SynfinCount(ip, start, vs[..|vs| - 1]) + One(CountsSynfin(ip, start, vs))
  }

  lemma {:induction false} SynfinsAreCounted(ip: nat, start: int, vs: seq<View>)
    ensures Follow(ip, start, vs).synfinCount == SynfinCount(ip, start, vs)
  {
    if vs != [] {
      SynfinsAreCounted(ip, start, vs[..|vs| - 1]);
      var s := LastReport(ip, start, vs);
      SynfinStep(s, vs[|vs| - 1]);
    }
  }

  // SYNFIN_SCAN is reported exactly from the third such probe on that is not reported as
  // XMAS_SCAN.
  lemma SynfinReport(ip: nat, start: int, vs: seq<View>)
    requires vs != []
    ensures Reported(ip, start, vs) == Some(KillChain.SynfinScan)
            <==> CountsSynfin(ip, start, vs) && SynfinCount(ip, start, vs) >= 3
  {
    var s := LastReport(ip, start, vs);
    SynfinStep(s, vs[|vs| - 1]);
    SynfinsAreCounted(ip, start, vs);
  }

  // The last packet is a login attempt that reaches the counter.
  predicate LogsAttempt(ip: nat, start: int, vs: seq<View>)
    requires vs != []
  {
    && IsLoginAttempt(vs[|vs| - 1])
    && !IsStealth(Reported(ip, start, vs)) && Reported(ip, start, vs) != Some(KillChain.SynFlood)
  }

  // Exactly the attempts that no earlier detector reports are logged.
  lemma AttemptsAreLogged(ip: nat, start: int, vs: seq<View>)
    requires vs != []
    ensures AttemptsOf(ip, start, vs)
            == AttemptsOf(ip, start, vs[..|vs| - 1])
               + (if LogsAttempt(ip, start, vs) then [vs[|vs| - 1].time] else [])
  {
    var s := LastReport(ip, start, vs);
    LoginStep(s, vs[|vs| - 1]);
  }

  // BRUTE_FORCE is reported exactly for a logged attempt at which the window holds 30.
  lemma BruteForceExactly(ip: nat, start: int, vs: seq<View>)
    requires vs != []
    ensures Reported(ip, start, vs) == Some(KillChain.BruteForce)
            <==> LogsAttempt(ip, start, vs) && BruteForce.Run(start, AttemptsOf(ip, start, vs)).count >= 30
  {
    var s := LastReport(ip, start, vs);
    LoginStep(s, vs[|vs| - 1]);
    FollowExplained(ip, start, vs);
  }

  // ---------------------------------------------------------------------
  // Port scans
  // ---------------------------------------------------------------------

  // The last packet reaches the port-scan detector.
  predicate ReachesPortScan(ip: nat, start: int, vs: seq<View>)
    requires vs != []
  {
    vs[|vs| - 1].segment.Tcp? && PassedOn(Reported(ip, start, vs))
  }

  // The different ports that reached the detector, in the order of their first packet.
  function PortsReached(ip: nat, start: int, vs: seq<View>): seq<nat> {
    if vs == [] then []
    else
      var before := PortsReached(ip, start, vs[..|vs| - 1]);
      if ReachesPortScan(ip, start, vs) && vs[|vs| - 1].segment.dport !in before
      then before + [vs[|vs| - 1].segment.dport]
      else before
  }

  function FirstFifteen(ports: seq<nat>): seq<nat> {
    if |ports| <= 15 then ports else ports[..15]
  }

  // The table holds the first 15 of them.
  lemma {:induction false} PortsAreStored(ip: nat, start: int, vs: seq<View>)
    ensures Follow(ip, start, vs).ports == FirstFifteen(PortsReached(ip, start, vs))
  {
    if vs != [] {
      var n := |vs| - 1;
      PortsAreStored(ip, start, vs[..n]);
      var s := LastReport(ip, start, vs);
      PortStep(s, vs[n]);
      if vs[n].segment.Tcp? {
        FifteenGrow(PortsReached(ip, start, vs[..n]), vs[n].segment.dport);
      }
    }
  }

  lemma FifteenGrow(before: seq<nat>, port: nat)
    ensures var stored := FirstFifteen(before);
            && (port !in before && |stored| < 15 ==> FirstFifteen(before + [port]) == stored + [port])
            && (port !in before && |stored| == 15 ==> FirstFifteen(before + [port]) == stored)
            && (port in before && |before| <= 15 ==> port in stored)
  {
  }

  // PORT_SCAN is reported exactly for a packet that reaches the detector with a port that
  // is not among the first 15, once at least 15 different ports have reached it.
  lemma PortScanExactly(ip: nat, start: int, vs: seq<View>)
    requires vs != []
    ensures Reported(ip, start, vs) == Some(KillChain.PortScan)
            <==> && ReachesPortScan(ip, start, vs)
                 && vs[|vs| - 1].segment.dport !in FirstFifteen(PortsReached(ip, start, vs[..|vs| - 1]))
                 && |PortsReached(ip, start, vs)| >= 15
  {
    var s := LastReport(ip, start, vs);
    PortStep(s, vs[|vs| - 1]);
    PortsAreStored(ip, start, vs);
    PortsAreStored(ip, start, vs[..|vs| - 1]);
  }

  // The same of the verdict on a capture.
  lemma PortScanVerdict(home: seq<Cidr>, ip: nat, ps: seq<Packet>, k: nat)
    requires CreatedBy(home, ip, ps, k) && OwnView(home, ip, ps[|ps| - 1]).Some?
    ensures var vs := ViewsSince(home, ip, ps, k);
            && vs != []
            && (VerdictAt(home, ps, |ps| - 1).attack == Some(KillChain.PortScan)
                <==> && ReachesPortScan(ip, ps[k].time, vs)
                     && vs[|vs| - 1].segment.dport !in FirstFifteen(PortsReached(ip, ps[k].time, vs[..|vs| - 1]))
                     && |PortsReached(ip, ps[k].time, vs)| >= 15)
  {
    VerdictSince(home, ip, ps, k);
    PortScanExactly(ip, ps[k].time, ViewsSince(home, ip, ps, k));
  }

  // ---------------------------------------------------------------------
  // What the baseline and the kill chain are fed
  // ---------------------------------------------------------------------

  // The sighting a packet is logged as: its port is new if it is not among the first 15
  // that reached the port-scan detector.
  function SightingOf(ip: nat, start: int, vs: seq<View>): seq<Baseline.Sighting>
    requires vs != []
  {
    var v := vs[|vs| - 1];
    match v.segment
    case Icmp => [Baseline.Sighting(false, false, v.time)]
    case Tcp(dport, _) =>
      [Baseline.Sighting(dport !in FirstFifteen(PortsReached(ip, start, vs[..|vs| - 1])), false, v.time)]
    case Udp(sport, dport, _) => [Baseline.Sighting(false, sport == 53 || dport == 53, v.time)]
    case Other => []
  }

  // Every ICMP, TCP and UDP packet goes into the baseline, reported or not.
  lemma SightingsAreLogged(ip: nat, start: int, vs: seq<View>)
    requires vs != []
    ensures LogOf(ip, start, vs).sightings
            == LogOf(ip, start, vs[..|vs| - 1]).sightings + SightingOf(ip, start, vs)
  {
    PortsAreStored(ip, start, vs[..|vs| - 1]);
  }

  // Every report advances the kill chain, at the time of its packet, and nothing else does.
  lemma DetectionsAreLogged(ip: nat, start: int, vs: seq<View>)
    requires vs != []
    ensures var attack := Reported(ip, start, vs);
            LogOf(ip, start, vs).detections
            == LogOf(ip, start, vs[..|vs| - 1]).detections
               + (if attack.Some? then [KillChain.Detection(attack.value, vs[|vs| - 1].time)] else [])
  {
    var s := LastReport(ip, start, vs);
    assert Observe(s, vs[|vs| - 1]).attack == Detect(s, vs[|vs| - 1]).attack;
  }
}
