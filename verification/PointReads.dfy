/** What a reader finds in a traffic point: under each key the value of the event it is
    named after. */
module PointReads {
  import opened Wrappers
  import opened TagEscape
  import opened TrafficPoint
  import opened TrafficBatch

  function ValueOf(ts: seq<Tag>, key: string): Option<string> {
    if ts == [] then None else if ts[0].key == key then Some(ts[0].value) else ValueOf(ts[1..], key)
  }

  lemma {:induction false} ValueOfAppend(ts: seq<Tag>, us: seq<Tag>, key: string)
    ensures ValueOf(ts + us, key) == if ValueOf(ts, key).Some? then ValueOf(ts, key) else ValueOf(us, key)
  {
    if ts == [] {
      assert ts + us == us;
    } else {
      assert (ts + us)[1..] == ts[1..] + us;
      ValueOfAppend(ts[1..], us, key);
    }
  }

  lemma ValueOfOne(t: Tag, key: string)
    ensures ValueOf([t], key) == if t.key == key then Some(t.value) else None
  {
    assert ValueOf([t][1..], key) == None;
  }

  lemma ValueOfTwo(t: Tag, u: Tag, key: string)
    ensures ValueOf([t, u], key) == if t.key == key then Some(t.value) else if u.key == key then Some(u.value) else None
  {
    assert [t, u][1..] == [u];
    ValueOfOne(u, key);
  }

  lemma ValueOfThree(t: Tag, u: Tag, w: Tag, key: string)
    ensures ValueOf([t, u, w], key)
            == if t.key == key then Some(t.value) else if u.key == key then Some(u.value)
               else if w.key == key then Some(w.value) else None
  {
    assert [t, u, w][1..] == [u, w];
    ValueOfTwo(u, w, key);
  }

  // What an optional value is printed as: nothing if it is missing or empty.
  function Present(v: Option<CText>): Option<string> {
    if v.Some? && v.value != "" then Some(v.value[..Kept(v.value, 0, 128)]) else None
  }

  lemma ValueOfOptional(name: string, v: Option<CText>, key: string)
    ensures ValueOf(OptionalTag(name, v), key) == if name == key then Present(v) else None
  {
    if v.Some? && v.value != "" { ValueOfOne(Tag(name, KeptValue(v.value)), key); }
  }

  lemma ValueOfSource(agent: CText, ip: CText, proto: CText, key: string)
    ensures ValueOf(SourceTags(agent, ip, proto), key)
            == if key == "agent_id" then Some(agent[..Kept(agent, 0, 128)])
               else if key == "src_ip" then Some(ip[..Kept(ip, 0, 128)])
               else if key == "protocol" then Some(proto[..Kept(proto, 0, 128)]) else None
  {
    var ts := SourceTags(agent, ip, proto);
    ValueOfThree(ts[0], ts[1], ts[2], key);
  }

  // The number of the network behind "AS", in at most 15 characters.
  function NetworkText(number: CText): string {
    if |number| <= 13 then "AS" + number else "AS" + number[..13]
  }

  lemma AsnIsNetwork(number: CText)
    ensures AsnText(number) == NetworkText(number)
  {
    if |number| > 13 { assert ("AS" + number)[..15] == "AS" + number[..13]; }
  }

  lemma ValueOfIoc(e: Event, key: string)
    ensures ValueOf(IocTags(e), key)
            == if e.iocSource.None? then None
               else if key == "ioc_hit" then Some("1")
               else if key == "ioc_source" then Some(e.iocSource.value[..Kept(e.iocSource.value, 0, 128)]) else None
  {
    if e.iocSource.Some? { ValueOfTwo(IocTags(e)[0], IocTags(e)[1], key); }
  }

  lemma ValueOfAsn(e: Event, key: string)
    ensures ValueOf(AsnTags(e), key)
            == if e.asn.None? then None
               else if key == "asn" then Some(NetworkText(e.asn.value.number))
               else if key == "asn_org" then Present(Some(e.asn.value.org)) else None
  {
    if e.asn.Some? {
      var a := e.asn.value;
      var t, rest := Tag("asn", KeptValue(AsnText(a.number))), OptionalTag("asn_org", Some(a.org));
      AsnIsNetwork(a.number);
      ShortIsKept(AsnText(a.number));
      ValueOfAppend([t], rest, key);
      ValueOfOne(t, key);
      ValueOfOptional("asn_org", Some(a.org), key);
      assert "asn" != "asn_org" by { assert |"asn"| == 3 && |"asn_org"| == 7; }
    }
  }

  lemma ShortIsKept(v: CText)
    requires |v| <= 15
    ensures KeptValue(v) == v
  {
    EscapeGrows(v);
    KeptWhole(v, 128);
    assert v[..|v|] == v;
  }

  // All tags, list by list.
  lemma ValueOfTags(e: Event, key: string)
    ensures var v1 := ValueOf(LeadingTags(e), key);
            var v2 := ValueOf(OptionalTag("attack_type", e.attack), key);
            var v3 := ValueOf(OptionalTag("kill_chain_stage", e.stage), key);
            var v4 := ValueOf(OptionalTag("mitre", e.mitre), key);
            var v5 := ValueOf(IocTags(e), key);
            ValueOf(Tags(e), key)
            == if v1.Some? then v1 else if v2.Some? then v2 else if v3.Some? then v3 else if v4.Some? then v4
               else if v5.Some? then v5 else ValueOf(AsnTags(e), key)
  {
    var t1 := LeadingTags(e);
    var t2 := t1 + OptionalTag("attack_type", e.attack);
    var t3 := t2 + OptionalTag("kill_chain_stage", e.stage);
    var t4 := t3 + OptionalTag("mitre", e.mitre);
    ValueOfAppend(t1, OptionalTag("attack_type", e.attack), key);
    ValueOfAppend(t2, OptionalTag("kill_chain_stage", e.stage), key);
    ValueOfAppend(t3, OptionalTag("mitre", e.mitre), key);
    ValueOfAppend(t4, IocTags(e), key);
    ValueOfAppend(t4 + IocTags(e), AsnTags(e), key);
  }

  lemma SourceKeys(key: string)
    requires |key| != 8 && |key| != 6
    ensures key != "agent_id" && key != "src_ip" && key != "protocol"
  {
    assert |"agent_id"| == 8 && |"src_ip"| == 6 && |"protocol"| == 8;
  }

  lemma NotSource(e: Event, key: string)
    requires |key| != 8 && |key| != 6
    ensures ValueOf(LeadingTags(e), key) == None
  {
    SourceKeys(key);
    ValueOfSource(e.agentId.Or("unknown"), e.srcIp.Or("0.0.0.0"), e.proto.Or("UNKNOWN"), key);
  }

  lemma NotOptional(name: string, v: Option<CText>, key: string)
    requires |key| != |name|
    ensures ValueOf(OptionalTag(name, v), key) == None
  {
    ValueOfOptional(name, v, key);
  }

  lemma NotIoc(e: Event, key: string)
    requires |key| != 7 && |key| != 10
    ensures ValueOf(IocTags(e), key) == None
  {
    ValueOfIoc(e, key);
    assert |"ioc_hit"| == 7 && |"ioc_source"| == 10;
  }

  lemma NotAsn(e: Event, key: string)
    requires |key| != 3 && |key| != 7
    ensures ValueOf(AsnTags(e), key) == None
  {
    ValueOfAsn(e, key);
    assert |"asn"| == 3 && |"asn_org"| == 7;
  }

  // The lists that have no key of this length.
  lemma Absent(e: Event, key: string)
    ensures |key| != 8 && |key| != 6 ==> ValueOf(LeadingTags(e), key) == None
    ensures |key| != 11 ==> ValueOf(OptionalTag("attack_type", e.attack), key) == None
    ensures |key| != 16 ==> ValueOf(OptionalTag("kill_chain_stage", e.stage), key) == None
    ensures |key| != 5 ==> ValueOf(OptionalTag("mitre", e.mitre), key) == None
    ensures |key| != 7 && |key| != 10 ==> ValueOf(IocTags(e), key) == None
    ensures |key| != 3 && |key| != 7 ==> ValueOf(AsnTags(e), key) == None
  {
    assert |"attack_type"| == 11 && |"kill_chain_stage"| == 16 && |"mitre"| == 5;
    if |key| != 8 && |key| != 6 { NotSource(e, key); }
    if |key| != 11 { NotOptional("attack_type", e.attack, key); }
    if |key| != 16 { NotOptional("kill_chain_stage", e.stage, key); }
    if |key| != 5 { NotOptional("mitre", e.mitre, key); }
    if |key| != 7 && |key| != 10 { NotIoc(e, key); }
    if |key| != 3 && |key| != 7 { NotAsn(e, key); }
  }

  lemma SourceTold(e: Event, key: string)
    requires |key| == 8 || |key| == 6
    ensures ValueOf(LeadingTags(e), key).Some? ==> ValueOf(Tags(e), key) == ValueOf(LeadingTags(e), key)
  {
    ValueOfTags(e, key);
  }

  lemma AttackTold(e: Event)
    ensures ValueOf(Tags(e), "attack_type") == Present(e.attack)
  {
    ValueOfTags(e, "attack_type");
    Absent(e, "attack_type");
    ValueOfOptional("attack_type", e.attack, "attack_type");
  }

  lemma StageTold(e: Event)
    ensures ValueOf(Tags(e), "kill_chain_stage") == Present(e.stage)
  {
    ValueOfTags(e, "kill_chain_stage");
    Absent(e, "kill_chain_stage");
    ValueOfOptional("kill_chain_stage", e.stage, "kill_chain_stage");
  }

  lemma MitreTold(e: Event)
    ensures ValueOf(Tags(e), "mitre") == Present(e.mitre)
  {
    ValueOfTags(e, "mitre");
    Absent(e, "mitre");
    ValueOfOptional("mitre", e.mitre, "mitre");
  }

  // Each tag of the event carries the value it is named after, as far as its 128-byte
  // buffer holds it, with the documented defaults for the first three.
  lemma AgentTold(e: Event)
    ensures var agent := e.agentId.Or("unknown");
            ValueOf(Tags(e), "agent_id") == Some(agent[..Kept(agent, 0, 128)])
  {
    ValueOfSource(e.agentId.Or("unknown"), e.srcIp.Or("0.0.0.0"), e.proto.Or("UNKNOWN"), "agent_id");
    SourceTold(e, "agent_id");
  }

  lemma AddressTold(e: Event)
    ensures var ip := e.srcIp.Or("0.0.0.0");
            ValueOf(Tags(e), "src_ip") == Some(ip[..Kept(ip, 0, 128)])
  {
    assert "src_ip" != "agent_id" by { assert |"agent_id"| == 8; }
    ValueOfSource(e.agentId.Or("unknown"), e.srcIp.Or("0.0.0.0"), e.proto.Or("UNKNOWN"), "src_ip");
    SourceTold(e, "src_ip");
  }

  lemma ProtocolTold(e: Event)
    ensures var proto := e.proto.Or("UNKNOWN");
            ValueOf(Tags(e), "protocol") == Some(proto[..Kept(proto, 0, 128)])
  {
    assert "protocol" != "agent_id" by { assert "protocol"[0] == 'p' && "agent_id"[0] == 'a'; }
    assert "protocol" != "src_ip" by { assert |"src_ip"| == 6; }
    ValueOfSource(e.agentId.Or("unknown"), e.srcIp.Or("0.0.0.0"), e.proto.Or("UNKNOWN"), "protocol");
    SourceTold(e, "protocol");
  }

  lemma IocTold(e: Event)
    ensures ValueOf(Tags(e), "ioc_hit") == (if e.iocSource.Some? then Some("1") else None)
    ensures ValueOf(Tags(e), "ioc_source")
            == (if e.iocSource.Some? then Some(e.iocSource.value[..Kept(e.iocSource.value, 0, 128)]) else None)
  {
    IocHitTold(e);
    ValueOfTags(e, "ioc_source");
    Absent(e, "ioc_source");
    ValueOfIoc(e, "ioc_source");
    assert "ioc_source" != "ioc_hit" by { assert |"ioc_hit"| == 7; }
  }

  lemma IocHitTold(e: Event)
    ensures ValueOf(Tags(e), "ioc_hit") == (if e.iocSource.Some? then Some("1") else None)
  {
    ValueOfTags(e, "ioc_hit");
    Absent(e, "ioc_hit");
    ValueOfIoc(e, "ioc_hit");
    ValueOfAsn(e, "ioc_hit");
    assert "ioc_hit" != "asn_org" by { assert "ioc_hit"[0] == 'i' && "asn_org"[0] == 'a'; }
    assert "ioc_hit" != "asn" by { assert |"asn"| == 3; }
  }

  lemma AsnTold(e: Event)
    ensures ValueOf(Tags(e), "asn") == (if e.asn.Some? then Some(NetworkText(e.asn.value.number)) else None)
  {
    ValueOfTags(e, "asn");
    Absent(e, "asn");
    ValueOfAsn(e, "asn");
  }

  lemma OrganisationTold(e: Event)
    ensures ValueOf(Tags(e), "asn_org") == (if e.asn.Some? then Present(Some(e.asn.value.org)) else None)
  {
    ValueOfTags(e, "asn_org");
    Absent(e, "asn_org");
    ValueOfIoc(e, "asn_org");
    ValueOfAsn(e, "asn_org");
    assert "asn_org" != "ioc_hit" by { assert "ioc_hit"[0] == 'i' && "asn_org"[0] == 'a'; }
    assert "asn_org" != "ioc_source" by { assert |"ioc_source"| == 10; }
    assert "asn_org" != "asn" by { assert |"asn"| == 3; }
  }

  // ---------------------------------------------------------------------
  // Fields
  // ---------------------------------------------------------------------

  // The text of a number, as printf writes it.
  predicate IsNumber(s: string) {
    IsPlain(s)
  }

  predicate HasNumbers(e: Event) {
    && IsNumber(e.port) && IsNumber(e.bytes) && IsNumber(e.isScan)
    && (e.kcScore.Some? ==> IsNumber(e.kcScore.value))
    && (e.location.Some? ==> IsNumber(e.location.value.lat) && IsNumber(e.location.value.lon))
    && (e.abuse.Some? ==> IsNumber(e.abuse.value))
  }

  // Splits the fields of a point, which follow a space and end with the newline.
  function ReadFields(fields: string): TagList
    requires |fields| >= 2
  {
    ParseTags("," + fields[1..|fields| - 1] + " ")
  }

  function KcList(e: Event): seq<Tag> {
    if e.kcScore.Some? then [Tag("kc_score", e.kcScore.value)] else []
  }

  function LocationList(e: Event): seq<Tag> {
    if e.location.Some? then [Tag("lat", e.location.value.lat), Tag("lon", e.location.value.lon)] else []
  }

  function AbuseList(e: Event): seq<Tag> {
    if e.abuse.Some? then [Tag("abuse_score", e.abuse.value)] else []
  }

  function FirstList(e: Event): seq<Tag> {
    [Tag("port", e.port + "i"), Tag("bytes", e.bytes), Tag("is_scan", e.isScan)]
  }

  // The fields in their order: the port as an integer, the two other counts, and the
  // optional score, coordinates and reputation.
  function FieldList(e: Event): seq<Tag> {
    FirstList(e) + KcList(e) + LocationList(e) + AbuseList(e)
  }

  lemma PrintPlain(t: Tag)
    requires IsPlain(t.value)
    ensures PrintTags([t]) == "," + t.key + "=" + t.value
  {
    PrintOne(t);
    PlainEscape(t.value);
  }

  lemma FirstPrinted(e: Event)
    requires HasNumbers(e)
    ensures "," + PortField(e)[1..] == PrintTags(FirstList(e))
  {
    var a, b, c := Tag("port", e.port + "i"), Tag("bytes", e.bytes), Tag("is_scan", e.isScan);
    assert IsPlain("i");
    PrintThree(FirstList(e));
    PlainEscape(a.value);
    PlainEscape(b.value);
    PlainEscape(c.value);
    PortShape(e.port, e.bytes, e.isScan, PortField(e));
  }

  lemma PortShape(port: string, bytes: string, isScan: string, field: string)
    requires field == " port=" + port + "i,bytes=" + bytes + ",is_scan=" + isScan
    ensures "," + field[1..]
            == ("," + "port" + "=" + (port + "i")) + ("," + "bytes" + "=" + bytes) + ("," + "is_scan" + "=" + isScan)
  {
    assert field[1..] == "port=" + port + "i,bytes=" + bytes + ",is_scan=" + isScan;
    assert "i,bytes=" == "i" + "," + "bytes" + "=" && ",is_scan=" == "," + "is_scan" + "=" && "port=" == "port" + "=";
  }

  lemma KcPrinted(e: Event)
    requires HasNumbers(e)
    ensures KcField(e) == PrintTags(KcList(e))
  {
    if e.kcScore.Some? {
      PrintPlain(Tag("kc_score", e.kcScore.value));
      assert ",kc_score=" == "," + "kc_score" + "=";
    }
  }

  lemma LocationPrinted(e: Event)
    requires HasNumbers(e)
    ensures LocationField(e) == PrintTags(LocationList(e))
  {
    if e.location.Some? {
      var lat, lon := Tag("lat", e.location.value.lat), Tag("lon", e.location.value.lon);
      PrintTwo(lat, lon);
      PlainEscape(lat.value);
      PlainEscape(lon.value);
      assert ",lat=" == "," + "lat" + "=" && ",lon=" == "," + "lon" + "=";
    }
  }

  lemma AbusePrinted(e: Event)
    requires HasNumbers(e)
    ensures AbuseField(e) == PrintTags(AbuseList(e))
  {
    if e.abuse.Some? {
      PrintPlain(Tag("abuse_score", e.abuse.value));
      assert ",abuse_score=" == "," + "abuse_score" + "=";
    }
  }

  lemma FieldsPrinted(e: Event)
    requires HasNumbers(e)
    ensures Fields(e) != "" && "," + Fields(e)[1..] == PrintTags(FieldList(e))
  {
    FirstPrinted(e);
    KcPrinted(e);
    LocationPrinted(e);
    AbusePrinted(e);
    PrintAppend(FirstList(e), KcList(e));
    PrintAppend(FirstList(e) + KcList(e), LocationList(e));
    PrintAppend(FirstList(e) + KcList(e) + LocationList(e), AbuseList(e));
    TailOfFour(PortField(e), KcField(e), LocationField(e), AbuseField(e));
  }

  lemma TailOfFour(a: string, b: string, c: string, d: string)
    requires a != ""
    ensures (a + b + c + d)[1..] == a[1..] + b + c + d
    ensures "," + (a[1..] + b + c + d) == ("," + a[1..]) + b + c + d
  {
  }

  lemma FieldListIsPlain(e: Event)
    requires HasNumbers(e)
    ensures PlainKeys(FieldList(e)) && Readable(FieldList(e))
  {
    FirstIsPlain(e);
    OptionalsArePlain(e);
  }

  predicate PlainTags(ts: seq<Tag>) {
    forall i :: 0 <= i < |ts| ==> IsPlain(ts[i].key) && !EndsInBackslash(ts[i].value)
  }

  lemma FirstIsPlain(e: Event)
    requires HasNumbers(e)
    ensures PlainTags(FirstList(e))
  {
    FirstKeys();
    PlainSuffix(e.port);
    PlainEscape(e.bytes);
    PlainEscape(e.isScan);
    ThreePlainTags(FirstList(e)[0], FirstList(e)[1], FirstList(e)[2]);
  }

  lemma FirstKeys()
    ensures IsPlain("port") && IsPlain("bytes") && IsPlain("is_scan")
  {
  }

  lemma PlainSuffix(port: string)
    requires IsPlain(port)
    ensures IsPlain(port + "i") && !EndsInBackslash(port + "i")
  {
  }

  lemma ThreePlainTags(t: Tag, u: Tag, w: Tag)
    requires PlainTags([t]) && PlainTags([u]) && PlainTags([w])
    ensures PlainTags([t, u, w])
  {
    assert [t][0] == t && [u][0] == u && [w][0] == w;
  }

  lemma OptionalsArePlain(e: Event)
    requires HasNumbers(e)
    ensures PlainTags(KcList(e)) && PlainTags(LocationList(e)) && PlainTags(AbuseList(e))
  {
    assert IsPlain("kc_score") && IsPlain("lat") && IsPlain("lon") && IsPlain("abuse_score");
    if e.kcScore.Some? { PlainEscape(e.kcScore.value); }
    if e.location.Some? {
      PlainEscape(e.location.value.lat);
      PlainEscape(e.location.value.lon);
    }
    if e.abuse.Some? { PlainEscape(e.abuse.value); }
  }

  // Reading the fields of a point gives the numbers of the event in their order, each
  // under its name.
  lemma FieldsReadBack(e: Event)
    requires HasNumbers(e)
    ensures |Fields(e)| >= 1 && ReadFields(Fields(e) + "\n") == TagList(FieldList(e), " ")
  {
    FieldsPrinted(e);
    FieldListIsPlain(e);
    TagsReadBack(FieldList(e), " ");
    var f := Fields(e) + "\n";
    assert f[1..|f| - 1] == Fields(e)[1..];
  }
}
