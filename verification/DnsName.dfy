/** extract_dns_name of analyzer.c: the DNS wire-name decoder with its bounded output,
    against the label list of RFC 1035, sections 2.3.4, 3.1 and 4.1. */
module DnsName {
  import opened Wrappers

  type byte = b: nat | b < 256

  const HEADER: nat := 12
  const MAX_LABEL: nat := 63
  const DOT: byte := 46

  // The name ends at payload[at].
  predicate Ends(payload: seq<byte>, at: nat)
    requires at <= |payload|
  {
    at == |payload| || payload[at] == 0
  }

  // payload[at] passes as the length of a label.
  predicate PassesAsLength(payload: seq<byte>, at: nat)
    requires at < |payload|
  {
    payload[at] <= MAX_LABEL && at + 1 + payload[at] <= |payload|
  }

  function LabelAt(payload: seq<byte>, at: nat): (l: seq<byte>)
    requires at < |payload| && PassesAsLength(payload, at)
    ensures |l| == payload[at]
  {
    payload[at + 1..at + 1 + payload[at]]
  }

  // What the decoder makes of payload[at..] once it has written out.
  function Decode(payload: seq<byte>, at: nat, out: seq<byte>, size: nat): Option<seq<byte>>
    requires at <= |payload| && |out| < size
    decreases |payload| - at
  {
    if Ends(payload, at) then Some(out)
    else if !PassesAsLength(payload, at) then None
    else
      var l := LabelAt(payload, at);
      Decode(payload, at + 1 + Taken(l, out, size), AfterLabel(l, out, size), size)
  }

  function Dotted(out: seq<byte>, size: nat): (r: seq<byte>)
    requires |out| < size
    ensures |r| < size
  {
    if 0 < |out| < size - 1 then out + [DOT] else out
  }

  // How many bytes of label l are copied.
  function Taken(l: seq<byte>, out: seq<byte>, size: nat): (n: nat)
    requires |out| < size
    ensures n <= |l| && |Dotted(out, size)| + n < size
  {
    var room := size - 1 - |Dotted(out, size)|;
    if |l| <= room then |l| else room
  }

  function AfterLabel(l: seq<byte>, out: seq<byte>, size: nat): (r: seq<byte>)
    requires |out| < size
    ensures |r| < size
  {
    Dotted(out, size) + l[..Taken(l, out, size)]
  }

  function Extract(payload: seq<byte>, size: nat): Option<seq<byte>>
    requires size > 0
  {
    if |payload| < HEADER + 1 then None else Decode(payload, HEADER, [], size)
  }

  // Decodes the name of a DNS message into out, NUL-terminated. The length is 0
  // for a malformed name, and nothing outside out[..out.Length] is touched.
  method ExtractDnsName(payload: seq<byte>, out: array<byte>) returns (pos: nat)
    requires out.Length > 0
    modifies out
    ensures pos < out.Length
    ensures match Extract(payload, out.Length)
            case None => pos == 0
            case Some(name) =>
              && out[..pos] == name && out[pos] == 0
              && forall k :: pos < k < out.Length ==> out[k] == old(out[k])
  {
    pos := 0;
    if |payload| < 13 { return; }
    var ptr := 12;
    while ptr < |payload| && payload[ptr] != 0
      invariant HEADER <= ptr <= |payload| && pos < out.Length
      invariant Extract(payload, out.Length) == Decode(payload, ptr, out[..pos], out.Length)
      invariant forall k :: pos <= k < out.Length ==> out[k] == old(out[k])
      decreases |payload| - ptr
    {
      var labelLen := payload[ptr];
      ptr := ptr + 1;
      if labelLen > 63 || ptr + labelLen > |payload| { return 0; }
      ghost var at, before := ptr - 1, out[..pos];
      assert LabelAt(payload, at) == payload[ptr..ptr + labelLen];
      ptr, pos := CopyLabel(payload, ptr, labelLen, out, pos);
      DecodeStep(payload, at, before, out.Length);
    }
    ghost var name := out[..pos];
    out[pos] := 0;
    assert out[..pos] == name;
  }

  // The inner loop: writes the separating dot and what fits of the label at ptr.
  method CopyLabel(payload: seq<byte>, ptr0: nat, labelLen: nat, out: array<byte>, pos0: nat)
    returns (ptr: nat, pos: nat)
    requires ptr0 + labelLen <= |payload| && pos0 < out.Length
    modifies out
    ensures pos < out.Length && pos0 <= pos
    ensures var l := payload[ptr0..ptr0 + labelLen];
            && out[..pos] == AfterLabel(l, old(out[..pos0]), out.Length)
            && ptr == ptr0 + Taken(l, old(out[..pos0]), out.Length)
    ensures forall k :: pos <= k < out.Length ==> out[k] == old(out[k])
  {
    pos := PutDot(out, pos0);
    ghost var at, dotted := pos, out[..pos];
    ptr, pos := CopyBytes(payload, ptr0, labelLen, out, pos);
    assert out[..at] == dotted;
    assert out[..pos] == dotted + out[at..pos];
    assert payload[ptr0..ptr0 + labelLen][..pos - at] == payload[ptr0..ptr];
  }

  method PutDot(out: array<byte>, pos0: nat) returns (pos: nat)
    requires pos0 < out.Length
    modifies out
    ensures pos0 <= pos < out.Length
    ensures out[..pos] == Dotted(old(out[..pos0]), out.Length)
    ensures forall k :: pos <= k < out.Length ==> out[k] == old(out[k])
  {
    pos := pos0;
    if pos > 0 && pos < out.Length - 1 {
      out[pos] := DOT;
      pos := pos + 1;
    }
  }

  method CopyBytes(payload: seq<byte>, ptr0: nat, labelLen: nat, out: array<byte>, pos0: nat)
    returns (ptr: nat, pos: nat)
    requires ptr0 + labelLen <= |payload| && pos0 < out.Length
    modifies out
    ensures pos0 <= pos < out.Length && ptr == ptr0 + (pos - pos0)
    ensures pos - pos0 == if labelLen <= out.Length - 1 - pos0 then labelLen else out.Length - 1 - pos0
    ensures out[pos0..pos] == payload[ptr0..ptr]
    ensures forall k :: 0 <= k < pos0 || pos <= k < out.Length ==> out[k] == old(out[k])
  {
    ptr, pos := ptr0, pos0;
    var i := 0;
    while i < labelLen && pos < out.Length - 1
      invariant 0 <= i <= labelLen && pos == pos0 + i < out.Length && ptr == ptr0 + i
      invariant out[pos0..pos] == payload[ptr0..ptr]
      invariant forall k :: 0 <= k < pos0 || pos <= k < out.Length ==> out[k] == old(out[k])
    {
      out[pos] := payload[ptr];
      assert out[pos0..pos + 1] == out[pos0..pos] + [payload[ptr]];
      assert payload[ptr0..ptr + 1] == payload[ptr0..ptr] + [payload[ptr]];
      pos := pos + 1;
      ptr := ptr + 1;
      i := i + 1;
    }
  }

  // ---------------------------------------------------------------------
  // Reference: label lists
  // ---------------------------------------------------------------------

  predicate IsLabel(l: seq<byte>) {
    1 <= |l| <= 63
  }

  ghost predicate AreLabels(ls: seq<seq<byte>>) {
    forall k :: 0 <= k < |ls| ==> IsLabel(ls[k])
  }

  function Join(ls: seq<seq<byte>>): seq<byte> {
    if ls == [] then []
    else if |ls| == 1 then ls[0]
    else ls[0] + [DOT] + Join(ls[1..])
  }

  // The wire form: a length byte before each label, the root label after the last.
  function Encode(ls: seq<seq<byte>>): seq<byte>
    requires AreLabels(ls)
  {
    if ls == [] then [0] else [|ls[0]|] + ls[0] + Encode(ls[1..])
  }

  // The labels that payload[at..] starts with, and whether they end properly, with
  // a root label or with the payload.
  datatype Parsed = Parsed(labels: seq<seq<byte>>, proper: bool)

  function Parse(payload: seq<byte>, at: nat): Parsed
    requires at <= |payload|
    decreases |payload| - at
  {
    if Ends(payload, at) then Parsed([], true)
    else if !PassesAsLength(payload, at) then Parsed([], false)
    else
      var rest := Parse(payload, at + 1 + payload[at]);
      Parsed([LabelAt(payload, at)] + rest.labels, rest.proper)
  }

  lemma {:induction false} ParsedAreLabels(payload: seq<byte>, at: nat)
    requires at <= |payload|
    ensures AreLabels(Parse(payload, at).labels)
    decreases |payload| - at
  {
    if !Ends(payload, at) && PassesAsLength(payload, at) {
      ParsedAreLabels(payload, at + 1 + payload[at]);
    }
  }

  // out, followed by the labels ls.
  function Onto(out: seq<byte>, ls: seq<seq<byte>>): seq<byte> {
    if ls == [] then out else if out == [] then Join(ls) else out + [DOT] + Join(ls)
  }

  lemma OntoNext(out: seq<byte>, l: seq<byte>, ls: seq<seq<byte>>)
    requires IsLabel(l)
    ensures Onto(out, [l] + ls) == Onto(Onto(out, [l]), ls)
    ensures Onto(out, [l]) == (if out == [] then [] else out + [DOT]) + l
    ensures |Onto(out, [l] + ls)| >= |Onto(out, [l])|
  {
    assert ([l] + ls)[1..] == ls;
    assert Join([l]) == l;
    if ls != [] { assert Join([l] + ls) == l + [DOT] + Join(ls); }
  }

  lemma {:induction false} DecodeExtends(payload: seq<byte>, at: nat, out: seq<byte>, size: nat)
    requires at <= |payload| && |out| < size
    ensures var r := Decode(payload, at, out, size);
            r.Some? ==> |out| <= |r.value| < size && r.value[..|out|] == out
    decreases |payload| - at
  {
    if !Ends(payload, at) && PassesAsLength(payload, at) {
      var l := LabelAt(payload, at);
      assert AfterLabel(l, out, size)[..|out|] == out;
      DecodeExtends(payload, at + 1 + Taken(l, out, size), AfterLabel(l, out, size), size);
    }
  }

  // A name that fits is decoded completely or rejected for being malformed; of a
  // longer one nothing but its first size - 1 bytes can come out.
  ghost predicate Agrees(r: Option<seq<byte>>, name: seq<byte>, proper: bool, size: nat)
    requires size > 0
  {
    if |name| < size then r == (if proper then Some(name) else None)
    else r.Some? ==> r.value == name[..size - 1]
  }

  lemma {:induction false} DecodeIsParse(payload: seq<byte>, at: nat, out: seq<byte>, size: nat)
    requires at <= |payload| && |out| < size
    ensures AgreesAt(payload, at, out, size)
    decreases |payload| - at
  {
    if !Ends(payload, at) && PassesAsLength(payload, at) {
      var l := LabelAt(payload, at);
      if |Onto(out, [l])| < size {
        DecodeIsParse(payload, at + 1 + payload[at], Onto(out, [l]), size);
        FitCase(payload, at, out, l, size);
      } else {
        CutCase(payload, at, out, l, size);
      }
    }
  }

  ghost predicate AgreesAt(payload: seq<byte>, at: nat, out: seq<byte>, size: nat)
    requires at <= |payload| && |out| < size
  {
    Agrees(Decode(payload, at, out, size), Onto(out, Parse(payload, at).labels), Parse(payload, at).proper, size)
  }

  lemma FitCase(payload: seq<byte>, at: nat, out: seq<byte>, l: seq<byte>, size: nat)
    requires at <= |payload| && |out| < size && !Ends(payload, at) && PassesAsLength(payload, at)
    requires l == LabelAt(payload, at) && |Onto(out, [l])| < size
    requires AgreesAt(payload, at + 1 + payload[at], Onto(out, [l]), size)
    ensures AgreesAt(payload, at, out, size)
  {
    ParseStep(payload, at);
    DecodeFit(payload, at, out, l, size);
    LabelAgrees(Decode(payload, at, out, size), out, l, Parse(payload, at + 1 + payload[at]), size);
  }

  lemma DecodeFit(payload: seq<byte>, at: nat, out: seq<byte>, l: seq<byte>, size: nat)
    requires at <= |payload| && |out| < size && !Ends(payload, at) && PassesAsLength(payload, at)
    requires l == LabelAt(payload, at) && |Onto(out, [l])| < size
    ensures Decode(payload, at, out, size) == Decode(payload, at + 1 + payload[at], Onto(out, [l]), size)
  {
    DecodeStep(payload, at, out, size);
    LabelStep(out, l, size);
  }

  lemma CutCase(payload: seq<byte>, at: nat, out: seq<byte>, l: seq<byte>, size: nat)
    requires at <= |payload| && |out| < size && !Ends(payload, at) && PassesAsLength(payload, at)
    requires l == LabelAt(payload, at) && |Onto(out, [l])| >= size
    ensures AgreesAt(payload, at, out, size)
  {
    ParseStep(payload, at);
    DecodeCut(payload, at, out, l, size);
    LabelAgrees(Decode(payload, at, out, size), out, l, Parse(payload, at + 1 + payload[at]), size);
  }

  // Once a label does not fit, what comes out is the cut name.
  lemma DecodeCut(payload: seq<byte>, at: nat, out: seq<byte>, l: seq<byte>, size: nat)
    requires at <= |payload| && |out| < size && !Ends(payload, at) && PassesAsLength(payload, at)
    requires l == LabelAt(payload, at) && |Onto(out, [l])| >= size
    ensures var r := Decode(payload, at, out, size);
            r.Some? ==> |r.value| == size - 1 && r.value == Onto(out, [l])[..size - 1]
  {
    DecodeStep(payload, at, out, size);
    CutFrom(payload, at + 1 + Taken(l, out, size), out, l, size);
  }

  lemma CutFrom(payload: seq<byte>, at: nat, out: seq<byte>, l: seq<byte>, size: nat)
    requires at <= |payload| && |out| < size && IsLabel(l) && |Onto(out, [l])| >= size
    ensures var r := Decode(payload, at, AfterLabel(l, out, size), size);
            r.Some? ==> |r.value| == size - 1 && r.value == Onto(out, [l])[..size - 1]
  {
    DecodeExtends(payload, at, AfterLabel(l, out, size), size);
    CutResult(Decode(payload, at, AfterLabel(l, out, size), size), out, l, size);
  }

  lemma CutResult(r: Option<seq<byte>>, out: seq<byte>, l: seq<byte>, size: nat)
    requires |out| < size && IsLabel(l) && |Onto(out, [l])| >= size
    requires var text := AfterLabel(l, out, size);
             r.Some? ==> |text| <= |r.value| < size && r.value[..|text|] == text
    ensures r.Some? ==> |r.value| == size - 1 && r.value == Onto(out, [l])[..size - 1]
  {
    LabelStep(out, l, size);
  }

  lemma ParseStep(payload: seq<byte>, at: nat)
    requires at <= |payload| && !Ends(payload, at) && PassesAsLength(payload, at)
    ensures var rest := Parse(payload, at + 1 + payload[at]);
            Parse(payload, at) == Parsed([LabelAt(payload, at)] + rest.labels, rest.proper)
  {
  }

  lemma DecodeStep(payload: seq<byte>, at: nat, out: seq<byte>, size: nat)
    requires at <= |payload| && |out| < size && !Ends(payload, at) && PassesAsLength(payload, at)
    ensures var l := LabelAt(payload, at);
            Decode(payload, at, out, size)
            == Decode(payload, at + 1 + Taken(l, out, size), AfterLabel(l, out, size), size)
  {
  }

  // The result of going on behind label l: what fits agrees as a whole, what does not
  // keeps the cut name.
  lemma LabelAgrees(r: Option<seq<byte>>, out: seq<byte>, l: seq<byte>, rest: Parsed, size: nat)
    requires size > 0 && IsLabel(l)
    requires var named := Onto(out, [l]);
             if |named| < size then Agrees(r, Onto(named, rest.labels), rest.proper, size)
             else r.Some? ==> |r.value| == size - 1 && r.value == named[..size - 1]
    ensures Agrees(r, Onto(out, [l] + rest.labels), rest.proper, size)
  {
    OntoNext(out, l, rest.labels);
    if |Onto(out, [l])| >= size { OntoKeepsPrefix(Onto(out, [l]), rest.labels, size - 1); }
  }

  // One label: it is written whole, or as much of it as fits.
  lemma LabelStep(out: seq<byte>, l: seq<byte>, size: nat)
    requires |out| < size && IsLabel(l)
    ensures if |Onto(out, [l])| < size then AfterLabel(l, out, size) == Onto(out, [l]) && Taken(l, out, size) == |l|
            else AfterLabel(l, out, size) == Onto(out, [l])[..size - 1]
  {
    assert Join([l]) == l;
  }

  lemma OntoKeepsPrefix(out: seq<byte>, ls: seq<seq<byte>>, n: nat)
    requires n <= |out| && out != []
    ensures n <= |Onto(out, ls)| && Onto(out, ls)[..n] == out[..n]
  {
  }

  // The whole decoder on any message.
  lemma ExtractIsJoinedLabels(payload: seq<byte>, size: nat)
    requires size > 0 && |payload| >= HEADER + 1
    ensures var p := Parse(payload, HEADER);
            var name := Join(p.labels);
            var r := Extract(payload, size);
            if |name| < size then r == (if p.proper then Some(name) else None)
            else r.Some? ==> r.value == name[..size - 1]
  {
    DecodeIsParse(payload, HEADER, [], size);
  }

  // ---------------------------------------------------------------------
  // Round trip
  // ---------------------------------------------------------------------

  lemma {:induction false} ParseEncoded(before: seq<byte>, ls: seq<seq<byte>>, after: seq<byte>)
    requires AreLabels(ls)
    ensures Parse(before + Encode(ls) + after, |before|) == Parsed(ls, true)
    decreases |ls|
  {
    var payload := before + Encode(ls) + after;
    if ls != [] {
      var l := ls[0];
      var wire := [|l|] + l;
      assert payload[|before|] == |l|;
      assert payload[|before| + 1..|before| + 1 + |l|] == l;
      assert payload == (before + wire) + Encode(ls[1..]) + after;
      ParseEncoded(before + wire, ls[1..], after);
      assert [l] + ls[1..] == ls;
    }
  }

  lemma {:induction false} EncodedLength(ls: seq<seq<byte>>)
    requires AreLabels(ls)
    ensures |Encode(ls)| == if ls == [] then 1 else |Join(ls)| + 2
  {
    if ls != [] { EncodedLength(ls[1..]); }
  }

  // Every name that RFC 1035 allows on the wire (labels of 1 to 63 bytes, 255 bytes
  // in all) comes out of the 256-byte buffer of detect_dns_tunnel as its labels
  // joined by dots, whatever surrounds it in the message.
  lemma RoundTrip(header: seq<byte>, ls: seq<seq<byte>>, rest: seq<byte>)
    requires |header| == 12 && AreLabels(ls) && |Encode(ls)| <= 255
    ensures Extract(header + Encode(ls) + rest, 256) == Some(Join(ls))
  {
    EncodedLength(ls);
    ParseEncoded(header, ls, rest);
    ExtractIsJoinedLabels(header + Encode(ls) + rest, 256);
  }

  // ---------------------------------------------------------------------
  // Names that do not fit
  // ---------------------------------------------------------------------

  // Once out is full the decoder no longer skips label bodies: it reads every
  // further byte as a length. So it keeps what it has exactly if all of them, up to
  // the first zero byte or the end, pass as one.
  lemma {:induction false} FullDecode(payload: seq<byte>, at: nat, out: seq<byte>, size: nat, stop: nat)
    requires at <= stop <= |payload| && |out| == size - 1
    requires forall i :: at <= i < stop ==> payload[i] != 0
    requires stop == |payload| || payload[stop] == 0
    ensures Decode(payload, at, out, size)
            == if forall i :: at <= i < stop ==> PassesAsLength(payload, i) then Some(out) else None
    decreases stop - at
  {
    if at < stop {
      if PassesAsLength(payload, at) {
        assert AfterLabel(LabelAt(payload, at), out, size) == out;
        FullDecode(payload, at + 1, out, size, stop);
      }
    }
  }

  // ---------------------------------------------------------------------
  // The subdomain length detect_dns_tunnel looks at
  // ---------------------------------------------------------------------

  method FirstLabelLength(name: seq<byte>) returns (n: nat)
    ensures n == Subdomain(name)
  {
    n := 0;
    while n < |name| && name[n] != DOT
      invariant n <= |name| && Subdomain(name) == n + Subdomain(name[n..])
    {
      n := n + 1;
    }
  }

  function Subdomain(name: seq<byte>): (n: nat)
    ensures n <= |name| && (n == |name| || name[n] == DOT)
    ensures forall i :: 0 <= i < n ==> name[i] != DOT
  {
    if name == [] || name[0] == DOT then 0 else 1 + Subdomain(name[1..])
  }

  // It is the length of the first label, unless that label has a dot of its own.
  lemma SubdomainIsFirstLabel(ls: seq<seq<byte>>)
    requires AreLabels(ls) && ls != [] && DOT !in ls[0]
    ensures Subdomain(Join(ls)) == |ls[0]|
  {
    var name, l := Join(ls), ls[0];
    assert name[..|l|] == l;
    if |ls| > 1 { assert name[|l|] == DOT; }
  }
}
