/** The engine of analyzer.c with its global tables as arrays: every operation updates
    one record in place, and analyze_packet refines the value-level dispatcher. */
module Analyzer {
  import opened Wrappers
  import opened Suspects
  import opened SuspectTable
  import Baseline
  import BruteForce
  import DnsName
  import Ewma
  import KillChain
  import Words

  const BLANK := Create(0, 0)

  class Engine {
    const home: seq<Cidr>
    const suspects: array<Suspect>
    var count: nat
    var lastCleanup: int
    const arpTable: array<ArpEntry>
    var arpCount: nat

    ghost predicate Valid()
      reads this
    {
      && suspects.Length == MAX_SUSPECTS && count <= MAX_SUSPECTS
      && arpTable.Length == MAX_ARP_ENTRIES && arpCount <= MAX_ARP_ENTRIES
    }

    ghost function Contents(): State
      reads this, suspects, arpTable
      requires Valid()
    {
      State(suspects[..count], lastCleanup, arpTable[..arpCount])
    }

    constructor (home: seq<Cidr>)
      ensures Valid() && fresh(suspects) && fresh(arpTable)
      ensures this.home == home && Contents() == START
    {
      this.home := home;
      suspects := new Suspect[MAX_SUSPECTS](_ => BLANK);
      arpTable := new ArpEntry[MAX_ARP_ENTRIES](_ => ArpEntry([], 0));
      count, lastCleanup, arpCount := 0, 0, 0;
    }

    // Compacts the table in place: records seen within five minutes move up.
    method CleanupSuspects(now: int)
      requires Valid()
      modifies this`count, this`lastCleanup, suspects
      ensures Valid() && Contents() == Cleaned(old(Contents()), now)
    {
      if now - lastCleanup < CLEANUP_INTERVAL { return; }
      ghost var table := suspects[..count];
      ghost var kept := [];
      var active, i := 0, 0;
      while i < count
        invariant count == |table| && lastCleanup == old(lastCleanup)
        invariant 0 <= active <= i <= count
        invariant suspects[..active] == kept && kept == Active(table[..i], now)
        invariant forall k :: i <= k < count ==> suspects[k] == table[k]
      {
        ActiveNext(table, now, i);
        if IsActive(suspects[i], now) {
          MoveUp(i, active, kept);
          kept := kept + [table[i]];
          active := active + 1;
        }
        i := i + 1;
      }
      assert table[..count] == table;
      count := active;
      lastCleanup := now;
    }

    // Copies record i behind the active records kept so far.
    method MoveUp(i: nat, active: nat, ghost kept: seq<Suspect>)
      requires active <= i < suspects.Length && suspects[..active] == kept
      modifies suspects
      ensures suspects[..active + 1] == kept + [old(suspects[i])]
      ensures forall k :: i < k < suspects.Length ==> suspects[k] == old(suspects[k])
    {
      suspects[active] := suspects[i];
    }

    // The position of the record of ip, touched or newly created, or -1 when the
    // table is full.
    method FindOrCreateSuspect(ip: nat, now: int) returns (at: int)
      requires Valid()
      modifies this`count, suspects
      ensures Valid() && Contents() == old(Contents()).(table := Touch(old(suspects[..count]), ip, now))
      ensures var i := IndexOf(suspects[..count], ip);
              if i < count then at == i else at == -1 && Contents() == old(Contents())
    {
      ghost var table := suspects[..count];
      var i := 0;
      while i < count && suspects[i].ip != ip
        invariant 0 <= i <= count
        invariant forall k :: 0 <= k < i ==> suspects[k].ip != ip
      {
        i := i + 1;
      }
      FirstIndex(table, ip, i);
      if i < count {
        suspects[i] := suspects[i].(lastSeen := now);
        assert suspects[..count] == Touch(table, ip, now);
        FirstIndex(suspects[..count], ip, i);
        return i;
      }
      if count >= MAX_SUSPECTS { return -1; }
      suspects[count] := Create(ip, now);
      count := count + 1;
      assert suspects[..count] == table + [Create(ip, now)];
      FirstIndex(suspects[..count], ip, i);
      return i;
    }

    method IsHomeIp(ip: nat) returns (found: bool)
      ensures found == IsHome(home, ip)
    {
      for i := 0 to |home|
        invariant forall k :: 0 <= k < i ==> !Covers(home[k], ip)
      {
        if Covers(home[i], ip) { return true; }
      }
      return false;
    }

    // update_baseline: counts the packet and, once the window is a minute old, feeds
    // its rates to the three metrics.
    method UpdateBaseline(at: nat, newPort: bool, isDns: bool, now: int)
      requires Valid() && at < count
      modifies suspects
      ensures suspects[..] == old(suspects[..])[at := Suspects.UpdateBaseline(old(suspects[at]), newPort, isDns, now)]
    {
      var b := suspects[at].baseline;
      b := b.(pktInWindow := b.pktInWindow + 1);
      if newPort { b := b.(portsInWindow := b.portsInWindow + 1); }
      if isDns { b := b.(dnsInWindow := b.dnsInWindow + 1); }
      var elapsed := now - b.windowStart;
      if elapsed >= Baseline.WINDOW_SEC {
        var pps := b.pktInWindow as real / elapsed as real;
        var ports, dns := b.portsInWindow as real, b.dnsInWindow as real;
        b := b.(pps := Ewma.AddSample(b.pps, b.sampleCount, pps));
        b := b.(ports := Ewma.AddSample(b.ports, b.sampleCount, ports));
        b := b.(dns := Ewma.AddSample(b.dns, b.sampleCount, dns));
        b := b.(sampleCount := b.sampleCount + 1, windowStart := now);
        b := b.(pktInWindow := 0, portsInWindow := 0, dnsInWindow := 0);
      }
      suspects[at] := suspects[at].(baseline := b);
    }

    method DetectSynFlood(at: nat, flags: byte) returns (attack: Option<Attack>)
      requires Valid() && at < count
      modifies suspects
      ensures suspects[..] == old(suspects[..])[at := Suspects.DetectSynFlood(old(suspects[at]), flags).suspect]
      ensures attack == Suspects.DetectSynFlood(old(suspects[at]), flags).attack
    {
      if !Has(flags, SYN) || Has(flags, ACK) { return None; }
      suspects[at] := suspects[at].(synCount := suspects[at].synCount + 1);
      var s := suspects[at];
      var exceeded := s.synCount > SYN_FLOOD_THRESHOLD;
      if Calibrated(s.baseline) {
        exceeded := s.synCount > 10 && ExceedsBurst(s.synCount, 2.0, s.baseline.pps);
      }
      return if exceeded then Some(KillChain.SynFlood) else None;
    }

    method DetectStealthScan(at: nat, flags: byte) returns (attack: Option<Attack>)
      requires Valid() && at < count
      modifies suspects
      ensures suspects[..] == old(suspects[..])[at := Suspects.DetectStealthScan(old(suspects[at]), flags).suspect]
      ensures attack == Suspects.DetectStealthScan(old(suspects[at]), flags).attack
    {
      if flags == 0 {
        suspects[at] := suspects[at].(nullCount := suspects[at].nullCount + 1);
        if suspects[at].nullCount >= STEALTH_THRESHOLD { return Some(KillChain.NullScan); }
      }
      if Has(flags, FIN) && Has(flags, PUSH) && Has(flags, URG) {
        suspects[at] := suspects[at].(xmasCount := suspects[at].xmasCount + 1);
        if suspects[at].xmasCount >= STEALTH_THRESHOLD { return Some(KillChain.XmasScan); }
      }
      if Has(flags, SYN) && Has(flags, FIN) {
        suspects[at] := suspects[at].(synfinCount := suspects[at].synfinCount + 1);
        if suspects[at].synfinCount >= STEALTH_THRESHOLD { return Some(KillChain.SynfinScan); }
      }
      return None;
    }

    method DetectBruteForce(at: nat, flags: byte, dport: nat, now: int) returns (attack: Option<Attack>)
      requires Valid() && at < count
      modifies suspects
      ensures suspects[..]
              == old(suspects[..])[at := Suspects.DetectBruteForce(old(suspects[at]), flags, dport, now).suspect]
      ensures attack == Suspects.DetectBruteForce(old(suspects[at]), flags, dport, now).attack
    {
      if !Has(flags, SYN) || Has(flags, ACK) { return None; }
      if dport != 22 && dport != 21 && dport != 3389 { return None; }
      var c := suspects[at].brute;
      if now - c.windowStart > BruteForce.WINDOW_SEC {
        c := c.(count := 0);
        c := c.(windowStart := now);
      }
      c := c.(count := c.count + 1);
      suspects[at] := suspects[at].(brute := c);
      return if c.count >= BruteForce.THRESHOLD then Some(KillChain.BruteForce) else None;
    }

    method DetectPortScan(at: nat, dport: nat) returns (attack: Option<Attack>)
      requires Valid() && at < count
      modifies suspects
      ensures suspects[..] == old(suspects[..])[at := Suspects.DetectPortScan(old(suspects[at]), dport).suspect]
      ensures attack == Suspects.DetectPortScan(old(suspects[at]), dport).attack
    {
      var s := suspects[at];
      if dport in s.ports { return None; }
      if |s.ports| < SCAN_THRESHOLD {
        s := s.(ports := s.ports + [dport]);
        suspects[at] := s;
      }
      return if |s.ports| >= SCAN_THRESHOLD then Some(KillChain.PortScan) else None;
    }

    method DetectIcmpFlood(at: nat) returns (attack: Option<Attack>)
      requires Valid() && at < count
      modifies suspects
      ensures suspects[..] == old(suspects[..])[at := Suspects.DetectIcmpFlood(old(suspects[at])).suspect]
      ensures attack == Suspects.DetectIcmpFlood(old(suspects[at])).attack
    {
      suspects[at] := suspects[at].(icmpCount := suspects[at].icmpCount + 1);
      var s := suspects[at];
      var exceeded := s.icmpCount > ICMP_THRESHOLD;
      if Calibrated(s.baseline) {
        exceeded := s.icmpCount > 5 && ExceedsBurst(s.icmpCount, 1.5, s.baseline.pps);
      }
      return if exceeded then Some(KillChain.IcmpFlood) else None;
    }

    method DetectDnsTunnel(at: nat, payload: seq<byte>, highEntropy: bool) returns (attack: Option<Attack>)
      requires Valid() && at < count
      modifies suspects
      ensures suspects[..]
              == old(suspects[..])[at := Suspects.DetectDnsTunnel(old(suspects[at]), payload, highEntropy).suspect]
      ensures attack == Suspects.DetectDnsTunnel(old(suspects[at]), payload, highEntropy).attack
    {
      var domain := new byte[DOMAIN_SIZE];
      var nameLen := DnsName.ExtractDnsName(payload, domain);
      if nameLen <= 0 { return None; }
      var name := domain[..nameLen];
      assert DnsName.Extract(payload, DOMAIN_SIZE) == Some(name);
      suspects[at] := suspects[at].(dnsQueries := suspects[at].dnsQueries + 1);
      var s := suspects[at];
      var labelLen := DnsName.FirstLabelLength(name);
      var suspicious := labelLen > DNS_SUBDOMAIN_LEN || highEntropy;
      if !suspicious && s.baseline.sampleCount >= Ewma.CALIBRATION {
        suspicious := Ewma.IsAnomaly(s.dnsQueries as real, s.baseline.dns);
      }
      if suspicious {
        s := s.(dnsSuspicious := s.dnsSuspicious + 1);
        suspects[at] := s;
        if s.dnsSuspicious >= DNS_SUSPICIOUS_MAX { return Some(KillChain.DnsTunnel); }
      }
      return None;
    }

    method DetectAmplification(at: nat, bytes: nat, isResponse: bool) returns (attack: Option<Attack>)
      requires Valid() && at < count
      modifies suspects
      ensures suspects[..]
              == old(suspects[..])[at := Suspects.DetectAmplification(old(suspects[at]), bytes, isResponse).suspect]
      ensures attack == Suspects.DetectAmplification(old(suspects[at]), bytes, isResponse).attack
    {
      var s := suspects[at];
      if isResponse {
        s := s.(respBytes := (s.respBytes + bytes) % Words.WORD);
      } else {
        s := s.(reqBytes := (s.reqBytes + bytes) % Words.WORD);
      }
      suspects[at] := s;
      if s.reqBytes < 100 { return None; }
      return if s.respBytes > s.reqBytes * AMPLIFICATION_RATIO % Words.WORD then Some(KillChain.Amplification) else None;
    }

    // advance_kill_chain, field by field.
    method AdvanceKillChain(at: nat, attack: Attack, now: int)
      requires Valid() && at < count
      modifies suspects
      ensures suspects[..]
              == old(suspects[..])[at := old(suspects[at]).(kc := KillChain.Advance(old(suspects[at]).kc, attack, now))]
    {
      var k := NextKillChain(suspects[at].kc, attack, now);
      suspects[at] := suspects[at].(kc := k);
    }

    static method NextKillChain(k0: KillChain.KillChain, attack: Attack, now: int) returns (k: KillChain.KillChain)
      ensures k == KillChain.Advance(k0, attack, now)
    {
      k := k0;
      if k.stage != KillChain.Idle && now - k.entered > KillChain.WINDOW_SEC {
        k := k.(stage := KillChain.Idle, hits := 0, firstSeen := 0, score := 0, mitre := "");
      }
      assert k == KillChain.Renew(k0, now);
      var target := KillChain.AttackStage(attack);
      k := RaiseStage(k, target, now);
      k := MarkStage(k, target);
      var mitre := KillChain.AddTag(k.mitre, KillChain.AttackMitre(attack));
      var score := KillChain.Score(k.stage, k.firstSeen, now);
      k := k.(mitre := mitre, score := score);
    }

    static method RaiseStage(k0: KillChain.KillChain, target: KillChain.Stage, now: int)
      returns (k: KillChain.KillChain)
      ensures k == KillChain.Raise(k0, target, now)
    {
      k := k0;
      if k.firstSeen == 0 { k := k.(firstSeen := now); }
      if target.Rank() > k.stage.Rank() {
        k := k.(stage := target, entered := now);
      }
    }

    static method MarkStage(k0: KillChain.KillChain, target: KillChain.Stage) returns (k: KillChain.KillChain)
      ensures k == KillChain.RecordHit(k0, target)
    {
      k := k0.(hits := k0.hits | KillChain.StageBit(target));
      if k.hits & KillChain.ALL_STAGES == KillChain.ALL_STAGES {
        k := k.(stage := KillChain.Complete);
      }
    }

    // The port table is read before the baseline is updated; the first detector that
    // fires ends the chain.
    method InspectTcp(at: nat, dport: nat, flags: byte, now: int) returns (attack: Option<Attack>)
      requires Valid() && at < count
      modifies suspects
      ensures suspects[..] == old(suspects[..])[at := DetectTcp(old(suspects[at]), dport, flags, now).suspect]
      ensures attack == DetectTcp(old(suspects[at]), dport, flags, now).attack
    {
      var newPort := true;
      var ports := suspects[at].ports;
      for j := 0 to |ports|
        invariant newPort == (dport !in ports[..j])
      {
        if ports[j] == dport { newPort := false; }
      }
      assert ports[..|ports|] == ports;
      UpdateBaseline(at, newPort, false, now);
      attack := DetectStealthScan(at, flags);
      if attack == None { attack := DetectSynFlood(at, flags); }
      ghost var early := suspects[at];
      assert Outcome(early, attack) == BeforeBrute(old(suspects[at]), dport, flags, now);
      if attack == None { attack := DetectBruteForce(at, flags, dport, now); }
      if attack == None { attack := DetectPortScan(at, dport); }
    }

    method InspectUdp(at: nat, v: View) returns (attack: Option<Attack>)
      requires Valid() && at < count && v.segment.Udp?
      modifies suspects
      ensures suspects[..] == old(suspects[..])[at := DetectUdp(old(suspects[at]), v).suspect]
      ensures attack == DetectUdp(old(suspects[at]), v).attack
    {
      attack := None;
      var payload := v.segment.payload;
      UpdateBaseline(at, false, IsDns(v), v.time);
      if IsDns(v) && |payload| >= 12 {
        var isResponse := IsResponse(payload);
        if !isResponse { attack := DetectDnsTunnel(at, payload, v.highEntropy); }
        if attack == None { attack := DetectAmplification(at, v.length, isResponse); }
      }
    }

    // Runs the detectors of the packet's protocol on the record of its source.
    method RunDetectors(at: nat, v: View) returns (attack: Option<Attack>)
      requires Valid() && at < count
      modifies suspects
      ensures suspects[..] == old(suspects[..])[at := Detect(old(suspects[at]), v).suspect]
      ensures attack == Detect(old(suspects[at]), v).attack
    {
      match v.segment
      case Icmp =>
        UpdateBaseline(at, false, false, v.time);
        attack := DetectIcmpFlood(at);
      case Tcp(dport, flags) =>
        attack := InspectTcp(at, dport, flags, v.time);
      case Udp(_, _, _) =>
        attack := InspectUdp(at, v);
      case Other =>
        attack := None;
    }

    method Inspect(at: nat, v: View) returns (attack: Option<Attack>)
      requires Valid() && at < count
      modifies suspects
      ensures suspects[..] == old(suspects[..])[at := Observe(old(suspects[at]), v).suspect]
      ensures attack == Observe(old(suspects[at]), v).attack
    {
      attack := RunDetectors(at, v);
      ghost var o := Detect(old(suspects[at]), v);
      assert suspects[at] == o.suspect;
      if attack != None {
        AdvanceKillChain(at, attack.value, v.time);
      }
    }

    method DetectArpSpoof(b: seq<byte>) returns (verdict: Verdict)
      requires Valid()
      modifies this`arpCount, arpTable
      ensures Valid() && Contents() == old(Contents()).(arp := ArpLearn(old(arpTable[..arpCount]), b))
      ensures verdict == ArpVerdict(old(arpTable[..arpCount]), b)
    {
      if |b| < 42 || Word16(b, 20) != 2 { return QUIET; }
      ghost var arp := arpTable[..arpCount];
      var mac, ip := SenderMac(b), SenderIp(b);
      var i := 0;
      while i < arpCount && arpTable[i].mac != mac
        invariant 0 <= i <= arpCount
        invariant forall k :: 0 <= k < i ==> arpTable[k].mac != mac
      {
        i := i + 1;
      }
      assert i == ArpIndex(arp, mac);
      if i < arpCount {
        if arpTable[i].ip != ip {
          return Verdict(Some(KillChain.ArpSpoof),
                         Some(Report(ip, 0, "ARP", |b|, Some(KillChain.ArpSpoof), KillChain.Recon, 20, "T1557")));
        }
        return QUIET;
      }
      if arpCount < MAX_ARP_ENTRIES {
        arpTable[arpCount] := ArpEntry(mac, ip);
        arpCount := arpCount + 1;
        assert arpTable[..arpCount] == arp + [ArpEntry(mac, ip)];
      }
      return QUIET;
    }

    method AnalyzePacket(p: Packet) returns (verdict: Verdict)
      requires Valid()
      modifies this, suspects, arpTable
      ensures Valid() && Contents() == Analyze(home, old(Contents()), p).state
      ensures verdict == Analyze(home, old(Contents()), p).verdict
    {
      CleanupSuspects(p.time);
      match ParseFrame(p)
      case Ignored =>
        return QUIET;
      case Arp =>
        verdict := DetectArpSpoof(p.bytes);
      case Ip(src, v) =>
        verdict := AnalyzeIp(src, v);
    }

    method AnalyzeIp(src: nat, v: View) returns (verdict: Verdict)
      requires Valid()
      modifies this`count, suspects
      ensures Valid() && Contents() == Dispatch(home, old(Contents()), src, v).state
      ensures verdict == Dispatch(home, old(Contents()), src, v).verdict
    {
      var isHome := IsHomeIp(src);
      if isHome { return QUIET; }
      var at := FindOrCreateSuspect(src, v.time);
      if at < 0 { return QUIET; }
      ghost var table := suspects[..count];
      var attack := Inspect(at, v);
      ghost var o := Observe(table[at], v);
      assert suspects[..count] == table[at := o.suspect];
      assert Outcome(suspects[at], attack) == o;
      verdict := Verdict(attack, ReportOf(Outcome(suspects[at], attack), v));
    }
  }

  // A capture analysed packet by packet, as the replay mode and the analysis thread do:
  // the tables end up in the state all results about runs speak of.
  method AnalyzeCapture(home: seq<Cidr>, ps: seq<Packet>) returns (engine: Engine, verdicts: seq<Verdict>)
    ensures fresh(engine) && engine.Valid() && engine.Contents() == Run(home, ps)
    ensures verdicts == Verdicts(home, ps)
  {
    engine := new Engine(home);
    verdicts := [];
    for i := 0 to |ps|
      invariant fresh(engine) && fresh(engine.suspects) && fresh(engine.arpTable)
      invariant engine.Valid() && engine.home == home && engine.Contents() == Run(home, ps[..i])
      invariant verdicts == Verdicts(home, ps[..i])
    {
      RunNext(home, ps, i);
      var v := engine.AnalyzePacket(ps[i]);
      verdicts := verdicts + [v];
    }
    assert ps[..|ps|] == ps;
  }

  lemma RunNext(home: seq<Cidr>, ps: seq<Packet>, i: nat)
    requires i < |ps|
    ensures var a := Analyze(home, Run(home, ps[..i]), ps[i]);
            Run(home, ps[..i + 1]) == a.state && Verdicts(home, ps[..i + 1]) == Verdicts(home, ps[..i]) + [a.verdict]
  {
    assert ps[..i + 1][..i] == ps[..i];
  }

  lemma ActiveNext(table: seq<Suspect>, now: int, i: nat)
    requires i < |table|
    ensures Active(table[..i + 1], now) == Active(table[..i], now) + (if IsActive(table[i], now) then [table[i]] else [])
  {
    assert table[..i + 1][..i] == table[..i];
  }

  lemma FirstIndex(table: seq<Suspect>, ip: nat, i: nat)
    requires i <= |table| && forall k :: 0 <= k < i ==> table[k].ip != ip
    requires i < |table| ==> table[i].ip == ip
    ensures IndexOf(table, ip) == i
  {
    IndexOfIsFirst(table, ip);
  }
}
