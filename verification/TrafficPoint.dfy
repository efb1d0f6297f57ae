/** build_traffic_point and the batch loop of nta_influx.c: events printed as line
    protocol into a bounded buffer, and read back. */
module TrafficPoint {
  import opened Wrappers
  import opened TagEscape
  import opened LineBatch

  const TAG_SIZE: nat := 128
  const ASN_SIZE: nat := 16

  datatype Asn = Asn(number: CText, org: CText)

  datatype Location = Location(lat: string, lon: string)

  // What a point is built from: the JSON event and the three lookups. Numbers are
  // given as the text printf makes of them.
  datatype Event = Event(
    agentId: Option<CText>, srcIp: Option<CText>, proto: Option<CText>,
    attack: Option<CText>, stage: Option<CText>, mitre: Option<CText>,
    iocSource: Option<CText>, asn: Option<Asn>,
    port: string, bytes: string, isScan: string,
    kcScore: Option<string>, location: Option<Location>, abuse: Option<string>)

  datatype Tag = Tag(key: string, value: string)

  // ---------------------------------------------------------------------
  // The line
  // ---------------------------------------------------------------------

  // The part of a value that survives its 128-byte buffer.
  function KeptValue(v: CText): string {
    v[..Kept(v, 0, TAG_SIZE)]
  }

  function OptionalTag(key: string, v: Option<CText>): seq<Tag> {
    if v.Some? && v.value != "" then [Tag(key, KeptValue(v.value))] else []
  }

  function AsnText(number: CText): CText {
    var s := "AS" + number;
    if |s| < ASN_SIZE then s else s[..ASN_SIZE - 1]
  }

  function LeadingTags(e: Event): seq<Tag> {
    SourceTags(e.agentId.Or("unknown"), e.srcIp.Or("0.0.0.0"), e.proto.Or("UNKNOWN"))
  }

  function SourceTags(agent: CText, ip: CText, proto: CText): seq<Tag> {
    [Tag("agent_id", KeptValue(agent)), Tag("src_ip", KeptValue(ip)), Tag("protocol", KeptValue(proto))]
  }

  function IocTags(e: Event): seq<Tag> {
    if e.iocSource.None? then [] else [Tag("ioc_hit", "1"), Tag("ioc_source", KeptValue(e.iocSource.value))]
  }

  function AsnTags(e: Event): seq<Tag> {
    match e.asn
    case None => []
    case Some(a) => [Tag("asn", KeptValue(AsnText(a.number)))] + OptionalTag("asn_org", Some(a.org))
  }

  function Tags(e: Event): seq<Tag> {
    LeadingTags(e) + OptionalTag("attack_type", e.attack) + OptionalTag("kill_chain_stage", e.stage)
    + OptionalTag("mitre", e.mitre) + IocTags(e) + AsnTags(e)
  }

  function PortField(e: Event): string {
    " port=" + e.port + "i,bytes=" + e.bytes + ",is_scan=" + e.isScan
  }

  function KcField(e: Event): string {
    if e.kcScore.Some? then ",kc_score=" + e.kcScore.value else ""
  }

  function LocationField(e: Event): string {
    if e.location.Some? then ",lat=" + e.location.value.lat + ",lon=" + e.location.value.lon else ""
  }

  function AbuseField(e: Event): string {
    if e.abuse.Some? then ",abuse_score=" + e.abuse.value else ""
  }

  function Fields(e: Event): string {
    PortField(e) + KcField(e) + LocationField(e) + AbuseField(e)
  }

  function RawTag(key: string, text: string): string {
    "," + key + "=" + text
  }

  function PrintTag(t: Tag): string {
    RawTag(t.key, Escape(t.value))
  }

  function PrintTags(ts: seq<Tag>): string {
    if ts == [] then "" else PrintTag(ts[0]) + PrintTags(ts[1..])
  }

  function Head(e: Event): string {
    "traffic" + PrintTags(Tags(e))
  }

  function Line(e: Event): string {
    Head(e) + (Fields(e) + "\n")
  }

  lemma {:induction false} PrintAppend(ts: seq<Tag>, us: seq<Tag>)
    ensures PrintTags(ts + us) == PrintTags(ts) + PrintTags(us)
  {
    if ts == [] {
      assert ts + us == us;
    } else {
      assert (ts + us)[1..] == ts[1..] + us;
      PrintAppend(ts[1..], us);
    }
  }

  lemma PrintOne(t: Tag)
    ensures PrintTags([t]) == PrintTag(t)
  {
    assert PrintTags([t]) == PrintTag(t) + PrintTags([]);
  }

  // ---------------------------------------------------------------------
  // Printing into a buffer
  // ---------------------------------------------------------------------

  // lp_escape into a 128-byte buffer of its own.
  method EscapeTag(v: CText) returns (text: string)
    ensures text == Escape(KeptValue(v))
  {
    var buffer := new char[TAG_SIZE];
    var w := LpEscape(buffer, v);
    text := buffer[..w];
  }

  // out[base..] holds text, with room left behind it.
  ghost predicate Holds(out: array<char>, base: nat, w: nat, text: string)
    reads out
  {
    w == |text| && base + w < out.Length && out[base..base + w] == text
  }

  // The outcome of a step that should leave out[base..] with text.
  ghost predicate Outcome(out: array<char>, base: nat, fits: bool, w: nat, text: string)
    reads out
  {
    if fits then Holds(out, base, w, text) else base + |text| >= out.Length
  }

  // snprintf(out + base + w, room, text) with the check that follows each call: fits
  // is false when the text was cut.
  method Put(out: array<char>, base: nat, w: nat, text: string, ghost before: string)
    returns (fits: bool, w': nat)
    requires Holds(out, base, w, before) && text != ""
    modifies out
    ensures Outcome(out, base, fits, w', before + text)
    ensures forall k :: 0 <= k < base ==> out[k] == old(out[k])
  {
    var at := base + w;
    var room := out.Length - at;
    var n := if |text| < room then |text| else room - 1;
    for i := 0 to n
      invariant forall k :: 0 <= k < i ==> out[at + k] == text[k]
      invariant forall k :: 0 <= k < at ==> out[k] == old(out[k])
    {
      out[at + i] := text[i];
    }
    out[at + n] := '\0';
    fits := |text| < room;
    w' := if fits then w + |text| else w;
    if fits {
      assert out[base..at] == before;
      assert out[at..at + n] == text;
      assert out[base..base + w'] == out[base..at] + out[at..at + n];
    }
  }

  // An optional tag: nothing for a missing or empty value.
  method PutOptional(out: array<char>, base: nat, w: nat, key: string, v: Option<CText>, ghost before: string)
    returns (fits: bool, w': nat)
    requires Holds(out, base, w, before)
    modifies out
    ensures Outcome(out, base, fits, w', before + PrintTags(OptionalTag(key, v)))
    ensures forall k :: 0 <= k < base ==> out[k] == old(out[k])
  {
    if v.None? || v.value == "" {
      assert before + PrintTags([]) == before;
      return true, w;
    }
    var text := EscapeTag(v.value);
    PrintOne(Tag(key, KeptValue(v.value)));
    fits, w' := Put(out, base, w, RawTag(key, text), before);
  }

  method PutIoc(out: array<char>, base: nat, w: nat, e: Event, ghost before: string)
    returns (fits: bool, w': nat)
    requires Holds(out, base, w, before)
    modifies out
    ensures Outcome(out, base, fits, w', before + PrintTags(IocTags(e)))
    ensures forall k :: 0 <= k < base ==> out[k] == old(out[k])
  {
    if e.iocSource.None? {
      assert before + PrintTags([]) == before;
      return true, w;
    }
    var text := EscapeTag(e.iocSource.value);
    PrintTwo(Tag("ioc_hit", "1"), Tag("ioc_source", KeptValue(e.iocSource.value)));
    assert Escape("1") == "1" by { assert "1"[1..] == ""; }
    fits, w' := Put(out, base, w, RawTag("ioc_hit", "1") + RawTag("ioc_source", text), before);
  }

  lemma PrintTwo(t: Tag, u: Tag)
    ensures PrintTags([t, u]) == PrintTag(t) + PrintTag(u)
  {
    assert [t, u] == [t] + [u];
    PrintAppend([t], [u]);
    PrintOne(t);
    PrintOne(u);
  }

  method PutAsn(out: array<char>, base: nat, w: nat, e: Event, ghost before: string)
    returns (fits: bool, w': nat)
    requires Holds(out, base, w, before)
    modifies out
    ensures Outcome(out, base, fits, w', before + PrintTags(AsnTags(e)))
    ensures forall k :: 0 <= k < base ==> out[k] == old(out[k])
  {
    if e.asn.None? {
      assert before + PrintTags([]) == before;
      return true, w;
    }
    var number, org := AsnText(e.asn.value.number), Some(e.asn.value.org);
    var text := EscapeTag(number);
    AsnSteps(Tag("asn", KeptValue(number)), OptionalTag("asn_org", org), before);
    fits, w' := Put(out, base, w, RawTag("asn", text), before);
    if fits {
      fits, w' := PutOptional(out, base, w', "asn_org", org, before + RawTag("asn", text));
    }
  }

  lemma AsnSteps(t: Tag, ts: seq<Tag>, before: string)
    ensures before + PrintTags([t] + ts) == before + PrintTag(t) + PrintTags(ts)
  {
    PrintAppend([t], ts);
    PrintOne(t);
  }

  method PutLeading(out: array<char>, base: nat, agentId: CText, srcIp: CText, protocol: CText)
    returns (fits: bool, w: nat)
    requires base < out.Length
    modifies out
    ensures Outcome(out, base, fits, w, "traffic" + PrintTags(SourceTags(agentId, srcIp, protocol)))
    ensures forall k :: 0 <= k < base ==> out[k] == old(out[k])
  {
    var agent := EscapeTag(agentId);
    var ip := EscapeTag(srcIp);
    var proto := EscapeTag(protocol);
    fits, w := PutThree(out, base, "traffic", RawTag("agent_id", agent), RawTag("src_ip", ip), RawTag("protocol", proto),
                        SourceTags(agentId, srcIp, protocol));
  }

  method PutThree(out: array<char>, base: nat, head: string, t1: string, t2: string, t3: string, ghost ts: seq<Tag>)
    returns (fits: bool, w: nat)
    requires base < out.Length && head != ""
    requires |ts| == 3 && t1 == PrintTag(ts[0]) && t2 == PrintTag(ts[1]) && t3 == PrintTag(ts[2])
    modifies out
    ensures Outcome(out, base, fits, w, head + PrintTags(ts))
    ensures forall k :: 0 <= k < base ==> out[k] == old(out[k])
  {
    PrintThree(ts);
    ghost var text := head + (t1 + t2 + t3);
    assert "" + text == text && head + t1 + t2 + t3 == text;
    fits, w := Put(out, base, 0, head + t1 + t2 + t3, "");
  }

  lemma PrintThree(ts: seq<Tag>)
    requires |ts| == 3
    ensures PrintTags(ts) == PrintTag(ts[0]) + PrintTag(ts[1]) + PrintTag(ts[2])
  {
    assert ts == [ts[0], ts[1]] + [ts[2]];
    PrintAppend([ts[0], ts[1]], [ts[2]]);
    PrintTwo(ts[0], ts[1]);
    PrintOne(ts[2]);
  }

  method PutTags(out: array<char>, base: nat, e: Event) returns (fits: bool, w: nat)
    requires base < out.Length
    modifies out
    ensures Outcome(out, base, fits, w, Head(e))
    ensures forall k :: 0 <= k < base ==> out[k] == old(out[k])
  {
    fits, w := PutLeading(out, base, e.agentId.Or("unknown"), e.srcIp.Or("0.0.0.0"), e.proto.Or("UNKNOWN"));
    fits, w := PutRest(out, base, fits, w, e, "traffic" + PrintTags(LeadingTags(e)));
    TagsText(e, "traffic");
  }

  function OptionalTagsText(e: Event, before: string): string {
    before + PrintTags(OptionalTag("attack_type", e.attack)) + PrintTags(OptionalTag("kill_chain_stage", e.stage))
    + PrintTags(OptionalTag("mitre", e.mitre)) + PrintTags(IocTags(e)) + PrintTags(AsnTags(e))
  }

  method PutRest(out: array<char>, base: nat, fits0: bool, w0: nat, e: Event, ghost before: string)
    returns (fits: bool, w: nat)
    requires Outcome(out, base, fits0, w0, before)
    modifies out
    ensures Outcome(out, base, fits, w, OptionalTagsText(e, before))
    ensures forall k :: 0 <= k < base && k < out.Length ==> out[k] == old(out[k])
  {
    if !fits0 { return false, w0; }
    ghost var t1 := before + PrintTags(OptionalTag("attack_type", e.attack));
    ghost var t2 := t1 + PrintTags(OptionalTag("kill_chain_stage", e.stage));
    ghost var t3 := t2 + PrintTags(OptionalTag("mitre", e.mitre));
    ghost var t4 := t3 + PrintTags(IocTags(e));
    assert OptionalTagsText(e, before) == t4 + PrintTags(AsnTags(e));
    fits, w := PutOptional(out, base, w0, "attack_type", e.attack, before);
    if !fits { return; }
    fits, w := PutOptional(out, base, w, "kill_chain_stage", e.stage, t1);
    if !fits { return; }
    fits, w := PutOptional(out, base, w, "mitre", e.mitre, t2);
    if !fits { return; }
    fits, w := PutIoc(out, base, w, e, t3);
    if !fits { return; }
    fits, w := PutAsn(out, base, w, e, t4);
  }

  lemma TagsText(e: Event, head: string)
    ensures head + PrintTags(Tags(e)) == OptionalTagsText(e, head + PrintTags(LeadingTags(e)))
  {
    var t1 := LeadingTags(e);
    var t2 := t1 + OptionalTag("attack_type", e.attack);
    var t3 := t2 + OptionalTag("kill_chain_stage", e.stage);
    var t4 := t3 + OptionalTag("mitre", e.mitre);
    Onward(head, t1, OptionalTag("attack_type", e.attack));
    Onward(head, t2, OptionalTag("kill_chain_stage", e.stage));
    Onward(head, t3, OptionalTag("mitre", e.mitre));
    Onward(head, t4, IocTags(e));
    Onward(head, t4 + IocTags(e), AsnTags(e));
  }

  lemma Onward(head: string, ts: seq<Tag>, us: seq<Tag>)
    ensures head + PrintTags(ts + us) == head + PrintTags(ts) + PrintTags(us)
  {
    PrintAppend(ts, us);
  }

  method PutFields(out: array<char>, base: nat, w0: nat, e: Event, ghost before: string)
    returns (fits: bool, w: nat)
    requires Holds(out, base, w0, before)
    modifies out
    ensures Outcome(out, base, fits, w, before + (Fields(e) + "\n"))
    ensures forall k :: 0 <= k < base ==> out[k] == old(out[k])
  {
    var port, kc, location, abuse := PortField(e), KcField(e), LocationField(e), AbuseField(e);
    Regroup(before, port, kc, location, abuse, "\n");
    fits, w := Put(out, base, w0, port, before);
    if !fits { return; }
    fits, w := PutPresent(out, base, w, e.kcScore.Some?, kc, before + port);
    if !fits { return; }
    fits, w := PutPresent(out, base, w, e.location.Some?, location, before + port + kc);
    if !fits { return; }
    fits, w := PutPresent(out, base, w, e.abuse.Some?, abuse, before + port + kc + location);
    if !fits { return; }
    fits, w := Put(out, base, w, "\n", before + port + kc + location + abuse);
  }

  lemma Regroup(before: string, a: string, b: string, c: string, d: string, f: string)
    ensures before + (a + b + c + d + f) == before + a + b + c + d + f
  {
  }

  method PutPresent(out: array<char>, base: nat, w: nat, present: bool, text: string, ghost before: string)
    returns (fits: bool, w': nat)
    requires Holds(out, base, w, before) && (present <==> text != "")
    modifies out
    ensures Outcome(out, base, fits, w', before + text)
    ensures forall k :: 0 <= k < base ==> out[k] == old(out[k])
  {
    if !present {
      assert before + text == before;
      return true, w;
    }
    fits, w' := Put(out, base, w, text, before);
  }

  // The length of the line, or 0 when the buffer has no room for it.
  function LineLength(e: Event, room: nat): nat {
    if room < LEAST_ROOM || |Line(e)| >= room then 0 else |Line(e)|
  }

  method PutLine(out: array<char>, base: nat, e: Event) returns (fits: bool, w: nat)
    requires base < out.Length
    modifies out
    ensures Outcome(out, base, fits, w, Line(e))
    ensures forall k :: 0 <= k < base ==> out[k] == old(out[k])
  {
    fits, w := PutTags(out, base, e);
    if fits { fits, w := PutFields(out, base, w, e, Head(e)); }
  }

  method BuildTrafficPoint(out: array<char>, base: nat, e: Event) returns (n: nat)
    requires base <= out.Length
    modifies out
    ensures n == LineLength(e, out.Length - base)
    ensures n > 0 ==> out[base..base + n] == Line(e)
    ensures out[..base] == old(out[..base])
  {
    if out.Length - base < LEAST_ROOM { return 0; }
    var fits, w := PutLine(out, base, e);
    return if fits then w else 0;
  }
}
