/** lp_escape_str_field of nta_influx.c: the quoted narrative string of an incident,
    with the reader that undoes it. */
module FieldEscape {
  import opened TagEscape

  function FieldChar(c: char): string {
    if c == '\\' || c == '"' then ['\\', c]
    else if c == '\n' then "\\n"
    else if c == '\r' then ""
    else [c]
  }

  function FieldText(v: string): string {
    if v == "" then "" else FieldChar(v[0]) + FieldText(v[1..])
  }

  // How many characters of v are consumed before a buffer of cap bytes, w of them
  // used, has fewer than three left.
  function FieldKept(v: string, w: nat, cap: nat): (n: nat)
    ensures n <= |v|
    decreases |v|
  {
    if v == "" || w + 2 >= cap then 0 else 1 + FieldKept(v[1..], w + |FieldChar(v[0])|, cap)
  }

  lemma {:induction false} FieldAppend(u: string, v: string)
    ensures FieldText(u + v) == FieldText(u) + FieldText(v)
  {
    if u == "" {
      assert u + v == v;
    } else {
      assert (u + v)[1..] == u[1..] + v;
      FieldAppend(u[1..], v);
    }
  }

  lemma FieldSnoc(u: string, c: char)
    ensures FieldText(u + [c]) == FieldText(u) + FieldChar(c)
  {
    FieldAppend(u, [c]);
    assert [c][1..] == "";
    assert FieldText([c]) == FieldChar(c) + "";
  }

  lemma {:induction false} FieldKeptNext(v: string, w: nat, cap: nat, k: nat)
    requires k <= FieldKept(v, w, cap)
    ensures FieldKept(v, w, cap) == k + FieldKept(v[k..], w + |FieldText(v[..k])|, cap)
    decreases |v|
  {
    if k > 0 {
      FieldKeptNext(v[1..], w + |FieldChar(v[0])|, cap, k - 1);
      assert v[1..][k - 1..] == v[k..];
      assert v[..k][1..] == v[1..][..k - 1];
    } else {
      assert v[0..] == v;
    }
  }

  lemma {:induction false} FieldLength(v: string)
    ensures |FieldText(v)| <= 2 * |v|
  {
    if v != "" { FieldLength(v[1..]); }
  }

  // A value of which everything but the last two bytes of the buffer remains is
  // consumed whole.
  lemma {:induction false} KeptAll(v: string, w: nat, cap: nat)
    requires w + 2 * |v| + 2 <= cap
    ensures FieldKept(v, w, cap) == |v|
    decreases |v|
  {
    if v != "" {
      KeptAll(v[1..], w + |FieldChar(v[0])|, cap);
    }
  }

  // lp_escape_str_field.
  method LpEscapeStrField(out: array<char>, v: CText) returns (w: nat)
    modifies out
    ensures out.Length == 0 ==> w == 0
    ensures out.Length > 0 ==>
              && w < out.Length && out[w] == '\0'
              && out[..w] == FieldText(v[..FieldKept(v, 0, out.Length)])
              && forall k :: w < k < out.Length ==> out[k] == old(out[k])
  {
    var cap := out.Length;
    if cap == 0 { return 0; }
    w := 0;
    var i := 0;
    while i < |v| && w + 2 < cap
      invariant Consumed(out, v, i, w) && i <= FieldKept(v, 0, cap)
      invariant forall k :: w <= k < cap ==> out[k] == old(out[k])
    {
      FieldKeptNext(v, 0, cap, i);
      w := WriteFieldChar(out, v, i, w);
      i := i + 1;
    }
    FieldKeptNext(v, 0, cap, i);
    ghost var text := out[..w];
    out[w] := '\0';
    assert out[..w] == text;
  }

  // What the loop has written once it has consumed v[..i].
  ghost predicate Consumed(out: array<char>, v: string, i: nat, w: nat)
    reads out
  {
    i <= |v| && w < out.Length && out[..w] == FieldText(v[..i])
  }

  // One turn of the loop; two bytes are free, so neither break is ever taken.
  method WriteFieldChar(out: array<char>, v: string, i: nat, w0: nat) returns (w: nat)
    requires Consumed(out, v, i, w0) && i < |v| && w0 + 2 < out.Length
    modifies out
    ensures Consumed(out, v, i + 1, w) && w0 <= w
    ensures forall k :: w <= k < out.Length ==> out[k] == old(out[k])
  {
    w := w0;
    var c := v[i];
    ghost var done := out[..w0];
    if c == '\\' || c == '"' {
      out[w] := '\\';
      w := w + 1;
    }
    if c == '\n' {
      out[w] := '\\';
      w := w + 1;
      out[w] := 'n';
      w := w + 1;
    } else if c != '\r' {
      out[w] := c;
      w := w + 1;
    }
    assert out[..w] == done + FieldChar(c);
    FieldSnoc(v[..i], c);
    assert v[..i + 1] == v[..i] + [c];
  }

  // The narrative's buffer holds twice its length and 16 bytes more.
  method EscapeNarrative(narrative: CText) returns (text: string)
    ensures text == FieldText(narrative)
  {
    var buffer := new char[2 * |narrative| + 16];
    var w := LpEscapeStrField(buffer, narrative);
    KeptAll(narrative, 0, 2 * |narrative| + 16);
    assert narrative[..|narrative|] == narrative;
    text := buffer[..w];
  }

  // ---------------------------------------------------------------------
  // Reader
  // ---------------------------------------------------------------------

  datatype Quoted = Unterminated | Quoted(value: string, rest: string)

  // Reads a string field behind its opening quote.
  function ReadQuoted(s: string): Quoted {
    if s == "" then Unterminated
    else if s[0] == '"' then Quoted("", s[1..])
    else if s[0] == '\\' && |s| >= 2 then Prepend(if s[1] == 'n' then '\n' else s[1], ReadQuoted(s[2..]))
    else Prepend(s[0], ReadQuoted(s[1..]))
  }

  function Prepend(c: char, q: Quoted): Quoted {
    match q
    case Unterminated => Unterminated
    case Quoted(value, rest) => Quoted([c] + value, rest)
  }

  function WithoutReturns(v: string): string {
    if v == "" then "" else (if v[0] == '\r' then "" else [v[0]]) + WithoutReturns(v[1..])
  }

  // The closing quote is the one that was written, and the value between the quotes
  // decodes to the text without its carriage returns.
  lemma {:induction false} QuotedReadsBack(v: string, rest: string)
    ensures ReadQuoted(FieldText(v) + "\"" + rest) == Quoted(WithoutReturns(v), rest)
  {
    var s := FieldText(v) + "\"" + rest;
    if v == "" {
      assert s == "\"" + rest;
      assert s[1..] == rest;
    } else {
      var tail := FieldText(v[1..]) + "\"" + rest;
      QuotedReadsBack(v[1..], rest);
      assert s == FieldChar(v[0]) + tail;
      FirstReadsBack(v[0], tail);
    }
  }

  lemma FirstReadsBack(c: char, tail: string)
    ensures ReadQuoted(FieldChar(c) + tail) == if c == '\r' then ReadQuoted(tail) else Prepend(c, ReadQuoted(tail))
  {
    var s := FieldChar(c) + tail;
    if c == '\r' {
      assert s == tail;
    } else if c == '\\' || c == '"' || c == '\n' {
      assert s[2..] == tail;
    } else {
      assert s[1..] == tail;
    }
  }

  // Cut short by a smaller buffer, it still decodes to a prefix.
  lemma CutReadsBack(v: string, cap: nat, rest: string)
    ensures ReadQuoted(FieldText(v[..FieldKept(v, 0, cap)]) + "\"" + rest)
            == Quoted(WithoutReturns(v[..FieldKept(v, 0, cap)]), rest)
    ensures WithoutReturns(v[..FieldKept(v, 0, cap)]) <= WithoutReturns(v)
  {
    var n := FieldKept(v, 0, cap);
    QuotedReadsBack(v[..n], rest);
    WithoutAppend(v[..n], v[n..]);
    assert v[..n] + v[n..] == v;
  }

  lemma {:induction false} WithoutAppend(u: string, v: string)
    ensures WithoutReturns(u + v) == WithoutReturns(u) + WithoutReturns(v)
  {
    if u == "" {
      assert u + v == v;
    } else {
      assert (u + v)[1..] == u[1..] + v;
      WithoutAppend(u[1..], v);
    }
  }
}
