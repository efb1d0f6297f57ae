/** The batch loop of nta_influx_write_traffic, and a line-protocol reader that splits
    what it posts back into points. */
module TrafficBatch {
  import opened Wrappers
  import opened TagEscape
  import opened TrafficPoint
  import opened LineBatch

  // ---------------------------------------------------------------------
  // Reader
  // ---------------------------------------------------------------------

  datatype TagList = Malformed | TagList(tags: seq<Tag>, rest: string)

  // ",key=value,key=value...", up to something that does not start with a comma.
  function ParseTags(s: string): TagList
    decreases |s|
  {
    if s == "" || s[0] != ',' then TagList([], s)
    else
      var k := Token(s[1..]);
      var key, r := s[1..1 + k], s[1 + k..];
      if r == "" || r[0] != '=' then Malformed
      else
        var n := Token(r[1..]);
        Cons(Tag(Decode(key), Decode(r[1..1 + n])), ParseTags(r[1 + n..]))
  }

  function Cons(t: Tag, l: TagList): TagList {
    match l
    case Malformed => Malformed
    case TagList(tags, rest) => TagList([t] + tags, rest)
  }

  datatype Point = BadPoint | Point(measurement: string, tags: seq<Tag>, fields: string)

  function ParseLine(line: string): Point {
    var m := Token(line);
    match ParseTags(line[m..])
    case Malformed => BadPoint
    case TagList(tags, rest) => Point(Decode(line[..m]), tags, rest)
  }

  predicate IsPlain(key: string) {
    forall i :: 0 <= i < |key| ==> !IsSpecial(key[i]) && key[i] != '\\' && key[i] != '\n'
  }

  lemma {:induction false} PlainEscape(key: string)
    requires IsPlain(key)
    ensures Escape(key) == key && !EndsInBackslash(key)
  {
    if key != "" { PlainEscape(key[1..]); }
  }

  // What ParseTags makes of a tag followed by rest, in terms of the value's token.
  lemma ParseFirst(t: Tag, rest: string)
    requires IsPlain(t.key)
    ensures var value := Escape(t.value) + rest;
            var n := Token(value);
            ParseTags(PrintTag(t) + rest) == Cons(Tag(t.key, Decode(value[..n])), ParseTags(value[n..]))
  {
    var value := Escape(t.value) + rest;
    assert PrintTag(t) + rest == "," + t.key + "=" + value;
    KeyShape(t.key, value, PrintTag(t) + rest);
    ParseStep(PrintTag(t) + rest, t.key, value);
    PlainDecode(t.key);
  }

  lemma ParseStep(s: string, key: string, value: string)
    requires s != "" && s[0] == ',' && Token(s[1..]) == |key|
    requires s[1..1 + |key|] == key && s[1 + |key|..] == "=" + value
    ensures var n := Token(value);
            ParseTags(s) == Cons(Tag(Decode(key), Decode(value[..n])), ParseTags(value[n..]))
  {
    var r, n := "=" + value, Token(value);
    assert r[1..] == value && r[1 + n..] == value[n..] && r[1..1 + n] == value[..n];
  }

  lemma KeyShape(key: string, value: string, s: string)
    requires IsPlain(key) && s == "," + key + "=" + value
    ensures s[0] == ',' && Token(s[1..]) == |key| && s[1..1 + |key|] == key && s[1 + |key|..] == "=" + value
  {
    PlainEscape(key);
    ReadsBack(key, "=" + value);
    assert s[1..] == key + ("=" + value);
  }

  lemma PlainDecode(key: string)
    requires IsPlain(key)
    ensures Decode(key) == key
  {
    PlainEscape(key);
    ReadsBack(key, "");
  }

  predicate Readable(ts: seq<Tag>) {
    forall i :: 0 <= i < |ts| ==> !EndsInBackslash(ts[i].value)
  }

  predicate PlainKeys(ts: seq<Tag>) {
    forall i :: 0 <= i < |ts| ==> IsPlain(ts[i].key)
  }

  lemma {:induction false} NextIsSpecial(ts: seq<Tag>, rest: string)
    requires rest != "" && rest[0] == ' '
    ensures var s := PrintTags(ts) + rest;
            s != "" && IsSpecial(s[0])
  {
  }

  // The printed tags read back as they are exactly if no value ends in a backslash.
  lemma {:induction false} TagsReadBack(ts: seq<Tag>, rest: string)
    requires PlainKeys(ts) && rest != "" && rest[0] == ' '
    ensures ParseTags(PrintTags(ts) + rest) == TagList(ts, rest) <==> Readable(ts)
  {
    var s := PrintTags(ts) + rest;
    if ts == [] {
      assert s == rest;
    } else {
      var more := PrintTags(ts[1..]) + rest;
      assert s == PrintTag(ts[0]) + more;
      NextIsSpecial(ts[1..], rest);
      FirstReadsBack(ts[0], more);
      if !EndsInBackslash(ts[0].value) {
        TagsReadBack(ts[1..], rest);
      }
      ConsReadable(ts, ParseTags(s), ParseTags(more), rest);
    }
  }

  // Tag by tag: the first one and then all others.
  lemma ConsReadable(ts: seq<Tag>, l: TagList, m: TagList, rest: string)
    requires ts != []
    requires EndsInBackslash(ts[0].value) ==> l.TagList? ==> l.tags != [] && l.tags[0] != ts[0]
    requires !EndsInBackslash(ts[0].value) ==> l == Cons(ts[0], m) && (m == TagList(ts[1..], rest) <==> Readable(ts[1..]))
    ensures l == TagList(ts, rest) <==> Readable(ts)
  {
    assert ts == [ts[0]] + ts[1..];
    assert Readable(ts) <==> !EndsInBackslash(ts[0].value) && Readable(ts[1..]);
    if !EndsInBackslash(ts[0].value) && m.TagList? {
      assert ([ts[0]] + m.tags)[1..] == m.tags;
    }
  }

  lemma FirstReadsBack(t: Tag, more: string)
    requires IsPlain(t.key) && more != "" && IsSpecial(more[0])
    ensures var l := ParseTags(PrintTag(t) + more);
            if EndsInBackslash(t.value) then l.TagList? ==> l.tags != [] && l.tags[0] != t
            else l == Cons(t, ParseTags(more))
  {
    var value := Escape(t.value) + more;
    ParseFirst(t, more);
    if EndsInBackslash(t.value) {
      SwallowedValue(t.value, more);
    } else {
      ReadsBack(t.value, more);
      assert value[..|Escape(t.value)|] == Escape(t.value) && value[|Escape(t.value)|..] == more;
    }
  }

  // A value ending in a backslash reads back as something else.
  lemma SwallowedValue(v: string, more: string)
    requires EndsInBackslash(v) && more != "" && IsSpecial(more[0])
    ensures var value := Escape(v) + more;
            Decode(value[..Token(value)]) != v
  {
    var u, n := v[..|v| - 1], Token(Escape(v) + more);
    var t := SwallowShape(v, more);
    DecodesPast(u, (['\\'] + more)[..t]);
    assert v[|u|] == '\\';
  }

  // The token is the value without its backslash, and the pair the backslash makes with
  // the separator, with whatever follows.
  lemma SwallowShape(v: string, more: string) returns (t: nat)
    requires EndsInBackslash(v) && more != "" && IsSpecial(more[0])
    ensures var u, value := v[..|v| - 1], Escape(v) + more;
            && 2 <= t <= 1 + |more|
            && value[..Token(value)] == Escape(u) + (['\\'] + more)[..t]
  {
    var u, n := v[..|v| - 1], Token(Escape(v) + more);
    Swallows(v, more);
    assert v == u + ['\\'];
    EscapeSnoc(u, '\\');
    t := n - |Escape(u)|;
    CutBehind(Escape(u), ['\\'], more, n);
  }

  lemma CutBehind(a: string, b: string, c: string, n: nat)
    requires |a| + |b| <= n <= |a| + |b| + |c|
    ensures (a + b + c)[..n] == a + (b + c)[..n - |a|]
  {
  }

  lemma DecodesPast(u: string, tail: string)
    requires StartsPair(tail)
    ensures var d := Decode(Escape(u) + tail);
            |d| > |u| && d[|u|] == tail[1]
  {
    TokenOfEscaped(u, tail);
    assert Decode(tail) == [tail[1]] + Decode(tail[2..]);
  }

  lemma TagKeysPlain(e: Event)
    ensures PlainKeys(Tags(e))
  {
    LeadingKeysPlain(e);
    OptionalKeysPlain(e);
    LookupKeysPlain(e);
    PlainConcat(LeadingTags(e), OptionalTag("attack_type", e.attack), OptionalTag("kill_chain_stage", e.stage),
                OptionalTag("mitre", e.mitre), IocTags(e), AsnTags(e));
  }

  lemma PlainConcat(a: seq<Tag>, b: seq<Tag>, c: seq<Tag>, d: seq<Tag>, f: seq<Tag>, g: seq<Tag>)
    requires PlainKeys(a) && PlainKeys(b) && PlainKeys(c) && PlainKeys(d) && PlainKeys(f) && PlainKeys(g)
    ensures PlainKeys(a + b + c + d + f + g)
  {
  }

  lemma LeadingKeysPlain(e: Event)
    ensures PlainKeys(LeadingTags(e))
  {
    SourceKeys();
    ThreePlain(LeadingTags(e)[0], LeadingTags(e)[1], LeadingTags(e)[2]);
  }

  lemma SourceKeys()
    ensures IsPlain("agent_id") && IsPlain("src_ip") && IsPlain("protocol")
  {
  }

  lemma ThreePlain(t: Tag, u: Tag, v: Tag)
    requires IsPlain(t.key) && IsPlain(u.key) && IsPlain(v.key)
    ensures PlainKeys([t, u, v])
  {
  }

  lemma OptionalKeysPlain(e: Event)
    ensures PlainKeys(OptionalTag("attack_type", e.attack))
    ensures PlainKeys(OptionalTag("kill_chain_stage", e.stage))
    ensures PlainKeys(OptionalTag("mitre", e.mitre))
  {
    OptionalPlain("attack_type", e.attack);
    OptionalPlain("kill_chain_stage", e.stage);
    OptionalPlain("mitre", e.mitre);
  }

  lemma OptionalPlain(key: string, v: Option<CText>)
    requires IsPlain(key)
    ensures PlainKeys(OptionalTag(key, v))
  {
  }

  lemma LookupKeysPlain(e: Event)
    ensures PlainKeys(IocTags(e)) && PlainKeys(AsnTags(e))
  {
    LookupKeys();
    if e.iocSource.Some? {
      TwoPlain(IocTags(e)[0], IocTags(e)[1]);
    }
    if e.asn.Some? {
      var a := e.asn.value;
      OptionalPlain("asn_org", Some(a.org));
      OneAndPlain(Tag("asn", KeptValue(AsnText(a.number))), OptionalTag("asn_org", Some(a.org)));
    }
  }

  lemma LookupKeys()
    ensures IsPlain("ioc_hit") && IsPlain("ioc_source") && IsPlain("asn") && IsPlain("asn_org")
  {
  }

  lemma TwoPlain(t: Tag, u: Tag)
    requires IsPlain(t.key) && IsPlain(u.key)
    ensures PlainKeys([t, u])
  {
  }

  lemma OneAndPlain(t: Tag, ts: seq<Tag>)
    requires IsPlain(t.key) && PlainKeys(ts)
    ensures PlainKeys([t] + ts)
  {
  }

  // A built line splits into its measurement, its ordered tags and its fields exactly
  // if no kept tag value ends in a backslash.
  lemma LineReadsBack(e: Event)
    ensures ParseLine(Line(e)) == Point("traffic", Tags(e), Fields(e) + "\n") <==> Readable(Tags(e))
  {
    TagKeysPlain(e);
    FieldsStart(e);
    LineParts("traffic", Tags(e), Fields(e) + "\n");
  }

  lemma FieldsStart(e: Event)
    ensures Fields(e) != "" && Fields(e)[0] == ' '
  {
    assert PortField(e)[0] == ' ';
  }

  lemma LineParts(m: string, ts: seq<Tag>, rest: string)
    requires m == "traffic" && PlainKeys(ts) && rest != "" && rest[0] == ' '
    ensures ParseLine(m + PrintTags(ts) + rest) == Point(m, ts, rest) <==> Readable(ts)
  {
    var line, after := m + PrintTags(ts) + rest, PrintTags(ts) + rest;
    assert line == m + after;
    PlainEscape(m);
    NextIsSpecial(ts, rest);
    ReadsBack(m, after);
    assert line[..|m|] == m && line[|m|..] == after;
    TagsReadBack(ts, rest);
  }

  // ---------------------------------------------------------------------
  // Batches
  // ---------------------------------------------------------------------

  // A batch element that is not a JSON object is skipped.
  type Item = Option<Event>

  // The line each item would add.
  function Texts(items: seq<Item>): (ts: seq<Option<string>>)
    ensures |ts| == |items|
  {
    seq(|items|, i requires 0 <= i < |items| => TextOf(items[i]))
  }

  function TextOf(item: Item): Option<string> {
    if item.Some? then Some(Line(item.value)) else None
  }

  // The payload that is POSTed for a batch, and how many events it holds. A single
  // object is a batch of one.
  method WriteTraffic(items: seq<Item>) returns (body: string, events: nat)
    ensures body == Body(Texts(items)) && events == |Chosen(Texts(items))|
  {
    var lp := new char[LP_SIZE];
    var lpLen := 0;
    events := 0;
    ghost var texts := Texts(items);
    ghost var done := "";
    for i := 0 to |items|
      invariant Filled(lp, lpLen, done) && done == Body(texts[..i]) && events == |Chosen(texts[..i])|
    {
      BodyNext(texts, i);
      ghost var taken := Fits(texts[i], |done|);
      var w := WriteItem(lp, lpLen, items[i], done, texts[i]);
      if w > 0 {
        lpLen := lpLen + w;
        events := events + 1;
      }
      done := done + (if taken then texts[i].value else "");
    }
    assert texts[..|items|] == texts;
    body := lp[..lpLen];
  }

  // The buffer starts with text.
  ghost predicate Filled(lp: array<char>, n: nat, text: string)
    reads lp
  {
    lp.Length == LP_SIZE && n == |text| <= LP_SIZE && lp[..n] == text
  }

  // One turn of the loop: the whole line behind what is there, or nothing.
  method WriteItem(lp: array<char>, lpLen: nat, item: Item, ghost done: string, ghost text: Option<string>)
    returns (w: nat)
    requires Filled(lp, lpLen, done) && text == TextOf(item)
    modifies lp
    ensures w > 0 <==> Fits(text, |done|)
    ensures Filled(lp, lpLen + w, done + (if Fits(text, |done|) then text.value else ""))
  {
    w := BuildItem(lp, lpLen, item, text);
    if w > 0 {
      JoinSlices(lp, lpLen, w, done, text.value);
    } else {
      assert done + "" == done;
    }
  }

  method BuildItem(lp: array<char>, lpLen: nat, item: Item, ghost text: Option<string>) returns (w: nat)
    requires lp.Length == LP_SIZE && lpLen <= lp.Length && text == TextOf(item)
    modifies lp
    ensures w > 0 <==> Fits(text, lpLen)
    ensures lpLen + w <= lp.Length && lp[..lpLen] == old(lp[..lpLen])
    ensures w > 0 ==> w == |text.value| && lp[lpLen..lpLen + w] == text.value
  {
    w := 0;
    if item.Some? {
      FitsExactly(item.value, text.value, lpLen);
      w := BuildTrafficPoint(lp, lpLen, item.value);
    }
  }

  lemma JoinSlices(lp: array<char>, n: nat, w: nat, done: string, line: string)
    requires n + w <= lp.Length && lp[..n] == done && (w > 0 ==> lp[n..n + w] == line)
    ensures w > 0 ==> lp[..n + w] == done + line
  {
    assert lp[..n + w] == lp[..n] + lp[n..n + w];
  }

  lemma FitsExactly(e: Event, line: string, used: nat)
    requires line == Line(e) && used <= LP_SIZE
    ensures Fits(Some(line), used) <==> LineLength(e, LP_SIZE - used) > 0
    ensures LineLength(e, LP_SIZE - used) > 0 ==> LineLength(e, LP_SIZE - used) == |line| <= LP_SIZE - used
  {
    LineNotEmpty(e);
  }

  lemma LineNotEmpty(e: Event)
    ensures Line(e) != "" && Line(e)[|Line(e)| - 1] == '\n'
  {
  }

  // ---------------------------------------------------------------------
  // The receiver
  // ---------------------------------------------------------------------

  predicate OneLine(ts: seq<Tag>) {
    forall i :: 0 <= i < |ts| ==> '\n' !in ts[i].value
  }

  lemma {:induction false} EscapeNewline(v: string)
    ensures '\n' in Escape(v) <==> '\n' in v
  {
    if v != "" {
      EscapeNewline(v[1..]);
      assert v == [v[0]] + v[1..];
      assert '\n' in EscapeChar(v[0]) <==> v[0] == '\n';
    }
  }

  lemma PrintTagNewline(t: Tag)
    requires IsPlain(t.key)
    ensures '\n' in PrintTag(t) <==> '\n' in t.value
  {
    EscapeNewline(t.value);
    assert '\n' !in t.key && '\n' !in "," && '\n' !in "=";
  }

  lemma {:induction false} PrintNewline(ts: seq<Tag>)
    requires PlainKeys(ts)
    ensures '\n' in PrintTags(ts) <==> !OneLine(ts)
  {
    if ts != [] {
      PrintTagNewline(ts[0]);
      PrintNewline(ts[1..]);
      assert ts == [ts[0]] + ts[1..];
      assert OneLine(ts) <==> '\n' !in ts[0].value && OneLine(ts[1..]);
    }
  }

  // A line ends with its only newline exactly if no kept tag value and no number
  // brings one along.
  lemma LineIsLine(e: Event)
    ensures IsLine(Line(e)) <==> OneLine(Tags(e)) && '\n' !in Fields(e)
  {
    TagKeysPlain(e);
    PrintNewline(Tags(e));
    LastIsNewline("traffic", PrintTags(Tags(e)), Fields(e), Line(e));
  }

  lemma LastIsNewline(m: string, tags: string, fields: string, line: string)
    requires m == "traffic" && line == m + tags + (fields + "\n")
    ensures IsLine(line) <==> '\n' !in tags && '\n' !in fields
  {
    assert line[..|line| - 1] == m + tags + fields;
    assert '\n' !in m;
  }

  ghost predicate CanSplit(items: seq<Item>) {
    forall k :: 0 <= k < |items| ==>
      items[k].Some? ==> OneLine(Tags(items[k].value)) && '\n' !in Fields(items[k].value)
  }

  // What a receiver makes of the POSTed body: one line for each event that fitted, in
  // order, and of each line its tags and fields, exactly if no kept tag value ends in a
  // backslash.
  lemma BatchReadsBack(items: seq<Item>)
    requires CanSplit(items)
    ensures var lines, at := SplitLines(Body(Texts(items))), Chosen(Texts(items));
            && IsSubsequence(Texts(items), at) && |lines| == |at|
            && forall i :: 0 <= i < |at| ==>
                 items[at[i]].Some?
                 && var e := items[at[i]].value;
                    ParseLine(lines[i]) == Point("traffic", Tags(e), Fields(e) + "\n") <==> Readable(Tags(e))
  {
    var texts := Texts(items);
    forall k | 0 <= k < |texts| && texts[k].Some?
      ensures IsLine(texts[k].value)
    {
      LineIsLine(items[k].value);
    }
    BatchSplits(texts);
    var at := Chosen(texts);
    forall i | 0 <= i < |at|
      ensures items[at[i]].Some?
      ensures var e := items[at[i]].value;
              ParseLine(SplitLines(Body(texts))[i]) == Point("traffic", Tags(e), Fields(e) + "\n") <==> Readable(Tags(e))
    {
      assert texts[at[i]].Some?;
      LineReadsBack(items[at[i]].value);
    }
  }
}
