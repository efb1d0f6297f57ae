/** lp_escape of nta_influx.c: escaping of tag values into a bounded buffer, with the
    line-protocol reader that undoes it. */
module TagEscape {

  // A C string: its characters before the terminating NUL.
  type CText = s: string | '\0' !in s witness ""

  predicate IsSpecial(c: char) {
    c == ',' || c == '=' || c == ' '
  }

  function EscapeChar(c: char): string {
    if IsSpecial(c) then ['\\', c] else [c]
  }

  function Escape(v: string): string {
    if v == "" then "" else EscapeChar(v[0]) + Escape(v[1..])
  }

  // How many characters of v are escaped into a buffer of cap bytes, w of them used.
  function Kept(v: string, w: nat, cap: nat): (n: nat)
    ensures n <= |v|
    decreases |v|
  {
    if v == "" || w + 2 >= cap then 0 else 1 + Kept(v[1..], w + |EscapeChar(v[0])|, cap)
  }

  function Escaped(v: string, cap: nat): string {
    Escape(v[..Kept(v, 0, cap)])
  }

  lemma {:induction false} EscapeAppend(u: string, v: string)
    ensures Escape(u + v) == Escape(u) + Escape(v)
  {
    if u == "" {
      assert u + v == v;
    } else {
      assert (u + v)[1..] == u[1..] + v;
      EscapeAppend(u[1..], v);
    }
  }

  lemma EscapeSnoc(u: string, c: char)
    ensures Escape(u + [c]) == Escape(u) + EscapeChar(c)
  {
    EscapeAppend(u, [c]);
    assert [c][1..] == "";
  }

  // The buffer is never overrun, and a value is cut short only once fewer than two
  // bytes are left beside the terminator.
  lemma {:induction false} KeptFits(v: string, w: nat, cap: nat)
    ensures var n := Kept(v, w, cap);
            && (n > 0 ==> w + |Escape(v[..n])| < cap)
            && (n < |v| ==> w + |Escape(v[..n])| + 2 >= cap)
    decreases |v|
  {
    if v != "" && w + 2 < cap {
      var n := Kept(v, w, cap);
      KeptFits(v[1..], w + |EscapeChar(v[0])|, cap);
      assert v[..n][1..] == v[1..][..n - 1];
    }
  }

  lemma KeptWhole(v: string, cap: nat)
    requires |Escape(v)| + 2 <= cap
    ensures Kept(v, 0, cap) == |v| && Escaped(v, cap) == Escape(v)
  {
    var n := Kept(v, 0, cap);
    KeptFits(v, 0, cap);
    EscapeAppend(v[..n], v[n..]);
    assert v[..n] + v[n..] == v;
    EscapeGrows(v[n..]);
  }

  lemma {:induction false} EscapeGrows(v: string)
    ensures |v| <= |Escape(v)| <= 2 * |v|
  {
    if v != "" { EscapeGrows(v[1..]); }
  }

  lemma {:induction false} KeptNext(v: string, w: nat, cap: nat, k: nat)
    requires k <= Kept(v, w, cap)
    ensures Kept(v, w, cap) == k + Kept(v[k..], w + |Escape(v[..k])|, cap)
    decreases |v|
  {
    if k > 0 {
      KeptNext(v[1..], w + |EscapeChar(v[0])|, cap, k - 1);
      assert v[1..][k - 1..] == v[k..];
      assert v[..k][1..] == v[1..][..k - 1];
    } else {
      assert v[0..] == v;
    }
  }

  // What the loop of lp_escape has written once it has escaped v[..i].
  ghost predicate Written(out: array<char>, v: string, i: nat, w: nat)
    reads out
  {
    i <= |v| && w < out.Length && out[..w] == Escape(v[..i])
  }

  // lp_escape.
  method LpEscape(out: array<char>, v: CText) returns (w: nat)
    modifies out
    ensures out.Length == 0 ==> w == 0
    ensures out.Length > 0 ==>
              && w < out.Length && out[w] == '\0'
              && out[..w] == Escaped(v, out.Length)
              && forall k :: w < k < out.Length ==> out[k] == old(out[k])
  {
    var cap := out.Length;
    if cap == 0 { return 0; }
    w := 0;
    var i := 0;
    while i < |v| && w + 2 < cap
      invariant Written(out, v, i, w) && i <= Kept(v, 0, cap)
      invariant forall k :: w <= k < cap ==> out[k] == old(out[k])
    {
      KeptNext(v, 0, cap, i);
      w := WriteChar(out, v, i, w);
      i := i + 1;
    }
    KeptNext(v, 0, cap, i);
    ghost var text := out[..w];
    out[w] := '\0';
    assert out[..w] == text;
  }

  // One turn of the loop; two bytes are free, so its break is never taken.
  method WriteChar(out: array<char>, v: string, i: nat, w0: nat) returns (w: nat)
    requires Written(out, v, i, w0) && i < |v| && w0 + 2 < out.Length
    modifies out
    ensures Written(out, v, i + 1, w) && w0 <= w
    ensures forall k :: w <= k < out.Length ==> out[k] == old(out[k])
  {
    w := w0;
    ghost var done := out[..w0];
    if v[i] == ',' || v[i] == '=' || v[i] == ' ' {
      out[w] := '\\';
      w := w + 1;
    }
    out[w] := v[i];
    w := w + 1;
    assert out[..w] == done + EscapeChar(v[i]);
    EscapeSnoc(v[..i], v[i]);
    assert v[..i + 1] == v[..i] + [v[i]];
  }

  // ---------------------------------------------------------------------
  // Reader
  // ---------------------------------------------------------------------

  // s starts with an escaped special character.
  predicate StartsPair(s: string) {
    |s| >= 2 && s[0] == '\\' && IsSpecial(s[1])
  }

  // The length of the token s starts with: up to the first unescaped special.
  function Token(s: string): (n: nat)
    ensures n <= |s|
  {
    if s == "" then 0
    else if StartsPair(s) then 2 + Token(s[2..])
    else if IsSpecial(s[0]) then 0
    else 1 + Token(s[1..])
  }

  function Decode(s: string): string {
    if s == "" then ""
    else if StartsPair(s) then [s[1]] + Decode(s[2..])
    else [s[0]] + Decode(s[1..])
  }

  predicate EndsInBackslash(v: string) {
    v != "" && v[|v| - 1] == '\\'
  }

  // A raw backslash of the value pairs up with what follows only if a special does,
  // and inside an escaped value none does unescaped.
  lemma EscapeStart(v: string, rest: string)
    requires v != "" && !IsSpecial(v[0])
    requires |v| == 1 && v[0] == '\\' ==> rest == "" || !IsSpecial(rest[0])
    ensures !StartsPair(Escape(v) + rest)
  {
    if |v| > 1 {
      assert Escape(v)[1] == EscapeChar(v[1])[0];
    }
  }

  // Reading past an escaped value that does not end in a backslash.
  lemma TokenOfEscaped(v: string, rest: string)
    requires EndsInBackslash(v) ==> rest == "" || !IsSpecial(rest[0])
    ensures Token(Escape(v) + rest) == |Escape(v)| + Token(rest)
    ensures Decode(Escape(v) + rest) == v + Decode(rest)
  {
    TokenPast(v, rest);
    DecodePast(v, rest);
  }

  lemma {:induction false} TokenPast(v: string, rest: string)
    requires EndsInBackslash(v) ==> rest == "" || !IsSpecial(rest[0])
    ensures Token(Escape(v) + rest) == |Escape(v)| + Token(rest)
  {
    if v == "" {
      NothingBefore(rest);
    } else {
      TokenPast(v[1..], rest);
      EscapeSplits(v, rest);
      EscapedStep(v, rest, Escape(v[1..]) + rest);
    }
  }

  lemma {:induction false} DecodePast(v: string, rest: string)
    requires EndsInBackslash(v) ==> rest == "" || !IsSpecial(rest[0])
    ensures Decode(Escape(v) + rest) == v + Decode(rest)
  {
    if v == "" {
      NothingBefore(rest);
      NothingBefore(Decode(rest));
    } else {
      DecodePast(v[1..], rest);
      EscapeSplits(v, rest);
      EscapedStep(v, rest, Escape(v[1..]) + rest);
      FirstAndRest(v, Decode(rest));
    }
  }

  lemma NothingBefore(s: string)
    ensures "" + s == s
  {
  }

  lemma FirstAndRest(v: string, d: string)
    requires v != ""
    ensures [v[0]] + (v[1..] + d) == v + d
  {
  }

  lemma EscapeSplits(v: string, rest: string)
    requires v != ""
    ensures Escape(v) + rest == EscapeChar(v[0]) + (Escape(v[1..]) + rest)
    ensures |Escape(v)| == |EscapeChar(v[0])| + |Escape(v[1..])|
  {
  }

  // The first escaped character.
  lemma EscapedStep(v: string, rest: string, tail: string)
    requires v != "" && tail == Escape(v[1..]) + rest
    requires |v| > 1 || v[0] != '\\' || rest == "" || !IsSpecial(rest[0])
    ensures var s := EscapeChar(v[0]) + tail;
            Token(s) == |EscapeChar(v[0])| + Token(tail) && Decode(s) == [v[0]] + Decode(tail)
  {
    var s := EscapeChar(v[0]) + tail;
    if IsSpecial(v[0]) {
      assert s[2..] == tail;
    } else {
      EscapeSplits(v, rest);
      EscapeStart(v, rest);
      assert s[1..] == tail;
    }
  }

  // The token of a value written before a separator, and what it decodes to.
  lemma ReadsBack(v: string, rest: string)
    requires !EndsInBackslash(v) && (rest == "" || IsSpecial(rest[0]))
    ensures Token(Escape(v) + rest) == |Escape(v)|
    ensures Decode(Escape(v)) == v
  {
    assert rest != "" ==> Token(rest) == 0;
    TokenOfEscaped(v, rest);
    TokenOfEscaped(v, "");
    assert Escape(v) + "" == Escape(v);
  }

  // A value ending in a backslash swallows the separator after it.
  lemma {:induction false} Swallows(v: string, rest: string)
    requires EndsInBackslash(v) && rest != "" && IsSpecial(rest[0])
    ensures Token(Escape(v) + rest) > |Escape(v)|
  {
    EscapeSplits(v, rest);
    if |v| == 1 {
      assert v == "\\";
      LoneBackslash(rest);
    } else {
      Swallows(v[1..], rest);
      EscapedStep(v, rest, Escape(v[1..]) + rest);
    }
  }

  lemma LoneBackslash(rest: string)
    requires rest != "" && IsSpecial(rest[0])
    ensures Escape("\\") == "\\" && Token("\\" + rest) >= 2
  {
    assert "\\"[1..] == "";
    assert StartsPair("\\" + rest);
  }

  // A value too long for its buffer decodes to a prefix of itself: no escape pair is
  // ever split.
  lemma TruncationIsPrefix(v: string, cap: nat)
    ensures Decode(Escaped(v, cap)) == v[..Kept(v, 0, cap)]
    ensures cap > 0 ==> |Escaped(v, cap)| < cap
  {
    var k := v[..Kept(v, 0, cap)];
    TokenOfEscaped(k, "");
    assert Escape(k) + "" == Escape(k);
    KeptFits(v, 0, cap);
  }
}
