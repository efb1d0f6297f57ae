/** Frames as they are on the wire, and what analyze_packet reads from them: the source
    address, the ports, the flags and the payload it was given, and what it publishes. */
module FrameReads {
  import opened Wrappers
  import opened Suspects
  import opened SuspectTable
  import KillChain
  import Words

  const TWO16: nat := 65536
  const TWO32: nat := 0x1_0000_0000

  // Network byte order.
  function Bytes16(n: nat): (b: seq<byte>)
    requires n < TWO16
    ensures |b| == 2
  {
    [n / 256, n % 256]
  }

  function Bytes32(n: nat): (b: seq<byte>)
    requires n < TWO32
    ensures |b| == 4
  {
    Bytes16(n / TWO16) + Bytes16(n % TWO16)
  }

  // The fields of an IPv4 header: `middle` is the eight bytes from the type of service to
  // the time to live.
  datatype Ipv4 = Ipv4(version: nat, middle: seq<byte>, protocol: byte, check: seq<byte>, src: nat, dst: nat,
                       options: seq<byte>)

  predicate IsHeader(h: Ipv4) {
    && h.version < 16 && |h.middle| == 8 && |h.check| == 2 && h.src < TWO32 && h.dst < TWO32
    && |h.options| % 4 == 0 && |h.options| <= 40
  }

  function HeaderLength(h: Ipv4): nat {
    20 + |h.options|
  }

  function HeaderBytes(h: Ipv4): (b: seq<byte>)
    requires IsHeader(h)
    ensures |b| == HeaderLength(h)
  {
    [h.version * 16 + HeaderLength(h) / 4] + h.middle + [h.protocol] + h.check + Bytes32(h.src) + Bytes32(h.dst)
    + h.options
  }

  // An Ethernet frame: twelve bytes of link addresses, the EtherType and the rest.
  function Frame4(link: seq<byte>, h: Ipv4, rest: seq<byte>): (b: seq<byte>)
    requires |link| == 12 && IsHeader(h)
    ensures |b| == 14 + HeaderLength(h) + |rest|
  {
    link + [8, 0] + HeaderBytes(h) + rest
  }

  lemma Reads16(b: seq<byte>, at: nat, n: nat)
    requires n < TWO16 && at + 2 <= |b| && b[at..at + 2] == Bytes16(n)
    ensures Word16(b, at) == n
  {
    assert b[at] == b[at..at + 2][0] && b[at + 1] == b[at..at + 2][1];
  }

  lemma Reads32(b: seq<byte>, at: nat, n: nat)
    requires n < TWO32 && at + 4 <= |b| && b[at..at + 4] == Bytes32(n)
    ensures Word32(b, at) == n
  {
    assert b[at..at + 2] == b[at..at + 4][..2] && b[at + 2..at + 4] == b[at..at + 4][2..];
    Reads16(b, at, n / TWO16);
    Reads16(b, at + 2, n % TWO16);
  }

  // Where the fields are.
  lemma FieldsOfFrame(link: seq<byte>, h: Ipv4, rest: seq<byte>)
    requires |link| == 12 && IsHeader(h)
    ensures var b := Frame4(link, h, rest);
            && b[12] == 8 && b[13] == 0
            && b[14] == h.version * 16 + HeaderLength(h) / 4
            && b[23] == h.protocol
            && b[26..30] == Bytes32(h.src)
            && b[14 + HeaderLength(h)..] == rest
  {
    var front := [h.version * 16 + HeaderLength(h) / 4] + h.middle + [h.protocol] + h.check;
    var b := Frame4(link, h, rest);
    assert |front| == 12 && front[9] == h.protocol;
    assert b == link + [8, 0] + (front + (Bytes32(h.src) + Bytes32(h.dst) + h.options)) + rest;
    assert b[14..26] == front;
    assert b[26..30] == Bytes32(h.src);
    assert b[14..26][9] == b[23];
  }

  // For every header, with options or without, and every content the frame reads back as
  // its source address, its segment and its length.
  lemma FrameReadsBack(link: seq<byte>, h: Ipv4, rest: seq<byte>, highEntropy: bool, now: int)
    requires |link| == 12 && IsHeader(h)
    ensures var b := Frame4(link, h, rest);
            ParseFrame(Packet(b, highEntropy, now))
            == Ip(h.src, View(now, |b|, ParseSegment(h.protocol, rest), highEntropy))
  {
    var b := Frame4(link, h, rest);
    FieldsOfFrame(link, h, rest);
    Reads32(b, 26, h.src);
    LengthNibble(h.version, HeaderLength(h));
    assert Word16(b, 12) == 0x0800;
  }

  lemma LengthNibble(version: nat, n: nat)
    requires version < 16 && 20 <= n <= 60 && n % 4 == 0
    ensures version * 16 + n / 4 < 256 && (version * 16 + n / 4) % 16 * 4 == n
  {
  }

  // ---------------------------------------------------------------------
  // Segments
  // ---------------------------------------------------------------------

  // `middle` is the nine bytes from the sequence number to the data offset, `rest` the
  // six from the window on with options and data.
  function TcpBytes(sport: nat, dport: nat, middle: seq<byte>, flags: byte, rest: seq<byte>): (b: seq<byte>)
    requires sport < TWO16 && dport < TWO16 && |middle| == 9 && |rest| >= 6
    ensures |b| == 14 + |rest|
  {
    Bytes16(sport) + Bytes16(dport) + middle + [flags] + rest
  }

  // `middle` is the length and the checksum.
  function UdpBytes(sport: nat, dport: nat, middle: seq<byte>, payload: seq<byte>): (b: seq<byte>)
    requires sport < TWO16 && dport < TWO16 && |middle| == 4
    ensures |b| == 8 + |payload|
  {
    Bytes16(sport) + Bytes16(dport) + middle + payload
  }

  lemma TcpReadsBack(sport: nat, dport: nat, middle: seq<byte>, flags: byte, rest: seq<byte>)
    requires sport < TWO16 && dport < TWO16 && |middle| == 9 && |rest| >= 6
    ensures ParseSegment(6, TcpBytes(sport, dport, middle, flags, rest)) == Tcp(dport, flags)
  {
    var b := TcpBytes(sport, dport, middle, flags, rest);
    assert b[2..4] == Bytes16(dport);
    Reads16(b, 2, dport);
    assert b[13] == flags;
  }

  lemma UdpReadsBack(sport: nat, dport: nat, middle: seq<byte>, payload: seq<byte>)
    requires sport < TWO16 && dport < TWO16 && |middle| == 4
    ensures ParseSegment(17, UdpBytes(sport, dport, middle, payload)) == Udp(sport, dport, payload)
  {
    var b := UdpBytes(sport, dport, middle, payload);
    assert b[0..2] == Bytes16(sport) && b[2..4] == Bytes16(dport);
    Reads16(b, 0, sport);
    Reads16(b, 2, dport);
    assert b[8..] == payload;
  }

  // Any content after a header of protocol 1 is ICMP; of another protocol than 1, 6 and
  // 17, or a TCP or UDP header cut short, it is nothing the detectors look at.
  lemma OtherSegments(protocol: byte, b: seq<byte>)
    ensures protocol == 1 ==> ParseSegment(protocol, b) == Icmp
    ensures protocol == 6 && |b| < 20 ==> ParseSegment(protocol, b) == Other
    ensures protocol == 17 && |b| < 8 ==> ParseSegment(protocol, b) == Other
    ensures protocol != 1 && protocol != 6 && protocol != 17 ==> ParseSegment(protocol, b) == Other
  {
  }

  // ---------------------------------------------------------------------
  // Frames that are cut, and other frames
  // ---------------------------------------------------------------------

  // A frame cut inside its IPv4 header is ignored; cut behind it, it keeps its source and
  // the content that is left.
  lemma CutFrame(link: seq<byte>, h: Ipv4, rest: seq<byte>, n: nat, highEntropy: bool, now: int)
    requires |link| == 12 && IsHeader(h) && n <= 14 + HeaderLength(h) + |rest|
    ensures var p := Packet(Frame4(link, h, rest)[..n], highEntropy, now);
            var left := n - 14 - HeaderLength(h);
            if left < 0 then ParseFrame(p) == Ignored
            else ParseFrame(p) == Ip(h.src, View(now, n, ParseSegment(h.protocol, rest[..left]), highEntropy))
  {
    var b, left := Frame4(link, h, rest), n - 14 - HeaderLength(h);
    if left >= 0 {
      assert b[..n] == Frame4(link, h, rest[..left]);
      FrameReadsBack(link, h, rest[..left], highEntropy, now);
    } else {
      FieldsOfFrame(link, h, rest);
      LengthNibble(h.version, HeaderLength(h));
      if n >= 14 { assert Word16(b[..n], 12) == 0x0800; }
    }
  }

  // A frame of any other EtherType than IPv4 and ARP is ignored.
  lemma OtherEtherType(link: seq<byte>, etherType: nat, rest: seq<byte>, highEntropy: bool, now: int)
    requires |link| == 12 && etherType < TWO16
    ensures var f := ParseFrame(Packet(link + Bytes16(etherType) + rest, highEntropy, now));
            && (etherType != 0x0800 && etherType != 0x0806 ==> f == Ignored)
            && (etherType == 0x0806 ==> f == Arp)
  {
    var b := link + Bytes16(etherType) + rest;
    assert b[12..14] == Bytes16(etherType);
    Reads16(b, 12, etherType);
  }

  // `head` is the six bytes before the operation, `target` the ten bytes of the target.
  function ArpFrame(link: seq<byte>, head: seq<byte>, operation: nat, mac: seq<byte>, ip: nat, target: seq<byte>)
    : (b: seq<byte>)
    requires |link| == 12 && |head| == 6 && operation < TWO16 && |mac| == 6 && ip < TWO32 && |target| >= 10
    ensures |b| == 32 + |target|
  {
    link + [8, 6] + head + Bytes16(operation) + mac + Bytes32(ip) + target
  }

  // An ARP frame reads back as its operation and the sender's two addresses.
  lemma ArpReadsBack(link: seq<byte>, head: seq<byte>, operation: nat, mac: seq<byte>, ip: nat, target: seq<byte>)
    requires |link| == 12 && |head| == 6 && operation < TWO16 && |mac| == 6 && ip < TWO32 && |target| >= 10
    ensures var b := ArpFrame(link, head, operation, mac, ip, target);
            && (forall e, t :: ParseFrame(Packet(b, e, t)) == Arp)
            && (IsArpReply(b) <==> operation == 2)
            && (IsArpReply(b) ==> SenderMac(b) == mac && SenderIp(b) == ip)
  {
    var b := ArpFrame(link, head, operation, mac, ip, target);
    assert b[20..22] == Bytes16(operation) && b[22..28] == mac && b[28..32] == Bytes32(ip);
    Reads16(b, 20, operation);
    Reads32(b, 28, ip);
    assert b[12] == 8 && b[13] == 6;
    assert Word16(b, 12) == 0x0806;
  }

  // ---------------------------------------------------------------------
  // The home network
  // ---------------------------------------------------------------------

  // The block analyzer_add_home_cidr makes of an address and a prefix length.
  function Block(address: nat, prefix: nat): Cidr
    requires address < TWO32 && prefix <= 32
  {
    Cidr(Words.BitAnd(address, Mask(prefix)), Mask(prefix))
  }

  function Mask(prefix: nat): nat
    requires prefix <= 32
  {
    (Words.Pow2(prefix) - 1) * Words.Pow2(32 - prefix)
  }

  // The first prefix bits of an address.
  function Network(x: nat, prefix: nat): nat
    requires prefix <= 32
  {
    Words.Quotient(x, Words.Pow2(32 - prefix))
  }

  // A block covers exactly the addresses that agree with it in the first prefix bits.
  lemma BlockCovers(address: nat, prefix: nat, ip: nat)
    requires address < TWO32 && prefix <= 32 && ip < TWO32
    ensures Covers(Block(address, prefix), ip) <==> Network(ip, prefix) == Network(address, prefix)
  {
    CoversByMask(address, prefix, ip);
    MaskedAddress(address, prefix);
    MaskedAddress(ip, prefix);
    SameMask(Network(ip, prefix), Network(address, prefix), Words.Pow2(32 - prefix),
             Words.BitAnd(ip, Mask(prefix)), Words.BitAnd(address, Mask(prefix)));
  }

  lemma SameMask(i: nat, a: nat, d: nat, x: nat, y: nat)
    requires d > 0 && x == i * d && y == a * d
    ensures x == y <==> i == a
  {
    Words.SameMultiple(i, a, d);
  }

  lemma CoversByMask(address: nat, prefix: nat, ip: nat)
    requires address < TWO32 && prefix <= 32 && ip < TWO32
    ensures Covers(Block(address, prefix), ip) <==> Words.BitAnd(ip, Mask(prefix)) == Words.BitAnd(address, Mask(prefix))
  {
  }

  lemma MaskedAddress(x: nat, prefix: nat)
    requires x < TWO32 && prefix <= 32
    ensures Words.BitAnd(x, Mask(prefix)) == Network(x, prefix) * Words.Pow2(32 - prefix)
  {
    var d, n := Words.Pow2(32 - prefix), Words.Pow2(prefix);
    var q := Network(x, prefix);
    PowersOf32(prefix);
    Words.NextMultiple(q, d);
    Words.FewMultiples(q, d, n, x);
    MaskedBy(x, q, x - q * d, prefix, d, n, Mask(prefix));
  }

  lemma MaskedBy(x: nat, q: nat, r: nat, prefix: nat, d: nat, n: nat, mask: nat)
    requires prefix <= 32 && d == Words.Pow2(32 - prefix) && n == Words.Pow2(prefix)
    requires x == q * d + r && r < d && q % n == q && mask == (n - 1) * d
    ensures Words.BitAnd(x, mask) == q * d
  {
    Words.MaskIsRemainder(q, prefix);
    Words.BitAndMultiple(q, r, n - 1, 32 - prefix, x, mask);
  }

  lemma PowersOf32(prefix: nat)
    requires prefix <= 32
    ensures Words.Pow2(prefix) * Words.Pow2(32 - prefix) == TWO32
  {
    Words.Pow2Values();
    Words.Pow2Sum(prefix, 32 - prefix);
  }

  // A packet from a home address is not analysed: nothing is published and no record is
  // touched or made.
  lemma HomeIsQuiet(home: seq<Cidr>, st: State, p: Packet, i: nat, address: nat, prefix: nat)
    requires ParseFrame(p).Ip? && i < |home| && address < TWO32 && prefix <= 32
    requires home[i] == Block(address, prefix) && ParseFrame(p).src < TWO32
    requires Network(ParseFrame(p).src, prefix) == Network(address, prefix)
    ensures Analyze(home, st, p) == Analysis(Cleaned(st, p.time), Verdict(None, None))
  {
    BlockCovers(address, prefix, ParseFrame(p).src);
  }

  // ---------------------------------------------------------------------
  // What is published
  // ---------------------------------------------------------------------

  // Every analysed packet is published with its source, its port, its length and its
  // verdict, and with the kill chain its record has afterwards; a packet the detectors do
  // not look at is not published.
  lemma PublishesRecord(home: seq<Cidr>, st: State, p: Packet, ip: nat)
    requires IsTable(st.table) && OwnView(home, ip, p).Some?
    ensures var a, v := Analyze(home, st, p), OwnView(home, ip, p).value;
            var record := Lookup(a.state.table, ip);
            if record.None? then a.verdict == Verdict(None, None)
            else
              var attack, kc := a.verdict.attack, record.value.kc;
              var tag := if attack.Some? then KillChain.AttackMitre(attack.value) else "";
              match v.segment
              case Icmp => a.verdict.report == Some(Report(ip, 0, "ICMP", v.length, attack, kc.stage, kc.score, tag))
              case Tcp(dport, _) =>
                a.verdict.report == Some(Report(ip, dport, "TCP", v.length, attack, kc.stage, kc.score, tag))
              case Udp(_, dport, _) =>
                a.verdict.report == Some(Report(ip, dport, "UDP", v.length, attack, kc.stage, kc.score, tag))
              case Other => a.verdict.report == None
  {
    AnalyzeLookup(home, st, p, ip);
    CleanedLookup(st, p.time, ip);
    RecordKeepsIp(Cleaned(st, p.time), ip);
    var before := Lookup(Cleaned(st, p.time).table, ip);
    var r := Received(ip, before, OwnView(home, ip, p), HasRoom(st, p));
    if r.Some? {
      var record := if before.Some? then before.value.(lastSeen := p.time) else Create(ip, p.time);
      DetectExplained(record, OwnView(home, ip, p).value);
    }
  }

  lemma RecordKeepsIp(st: State, ip: nat)
    ensures Lookup(st.table, ip).Some? ==> Lookup(st.table, ip).value.ip == ip
  {
    IndexOfIsFirst(st.table, ip);
  }
}
