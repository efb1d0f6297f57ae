/** The body of a line-protocol batch: which lines a bounded buffer takes, and how a
    receiver splits them again. */
module LineBatch {
  import opened Wrappers

  const LP_SIZE: nat := 16384
  const LEAST_ROOM: nat := 64

  // A line is taken behind `used` bytes if at least 64 are left and it leaves one for
  // the terminator.
  predicate Fits(text: Option<string>, used: nat) {
    text.Some? && text.value != "" && used + LEAST_ROOM <= LP_SIZE && used + |text.value| < LP_SIZE
  }

  // The positions of the lines that make it into the body.
  function Chosen(texts: seq<Option<string>>): seq<nat> {
    if texts == [] then []
    else
      var n := |texts| - 1;
      Chosen(texts[..n]) + (if Fits(texts[n], |Body(texts[..n])|) then [n] else [])
  }

  function Body(texts: seq<Option<string>>): string {
    if texts == [] then ""
    else
      var n := |texts| - 1;
      Body(texts[..n]) + (if Fits(texts[n], |Body(texts[..n])|) then texts[n].value else "")
  }

  lemma BodyNext(texts: seq<Option<string>>, i: nat)
    requires i < |texts|
    ensures var body, at, fits := Body(texts[..i]), Chosen(texts[..i]), Fits(texts[i], |Body(texts[..i])|);
            && Body(texts[..i + 1]) == body + (if fits then texts[i].value else "")
            && Chosen(texts[..i + 1]) == at + (if fits then [i] else [])
  {
    var front := texts[..i + 1];
    assert front[..i] == texts[..i] && front[i] == texts[i];
  }

  // The lines at the given positions, one after the other.
  function LinesAt(texts: seq<Option<string>>, at: seq<nat>): seq<string>
    requires IsSubsequence(texts, at)
  {
    seq(|at|, i requires 0 <= i < |at| => texts[at[i]].value)
  }

  function Concat(ls: seq<string>): string {
    if ls == [] then "" else Concat(ls[..|ls| - 1]) + ls[|ls| - 1]
  }

  ghost predicate IsSubsequence(texts: seq<Option<string>>, at: seq<nat>) {
    && (forall i :: 0 <= i < |at| ==> at[i] < |texts| && texts[at[i]].Some?)
    && forall i, j :: 0 <= i < j < |at| ==> at[i] < at[j]
  }

  // The body is the complete lines of a subsequence of the events, in order; nothing
  // of an event that did not fit is in it.
  lemma {:induction false} BodyIsWholeLines(texts: seq<Option<string>>)
    ensures IsSubsequence(texts, Chosen(texts))
    ensures Body(texts) == Concat(LinesAt(texts, Chosen(texts)))
    ensures |Body(texts)| < 16384
  {
    if texts != [] {
      var n := |texts| - 1;
      var at := Chosen(texts[..n]);
      BodyIsWholeLines(texts[..n]);
      BodyNext(texts, n);
      assert texts[..n + 1] == texts;
      Widen(texts, at);
      if Fits(texts[n], |Body(texts[..n])|) {
        ConcatNext(LinesAt(texts, at), texts[n].value, LinesAt(texts, at + [n]));
      } else {
        assert at + [] == at && Body(texts[..n]) + "" == Body(texts[..n]);
      }
    }
  }

  lemma Widen(texts: seq<Option<string>>, at: seq<nat>)
    requires texts != [] && IsSubsequence(texts[..|texts| - 1], at)
    ensures IsSubsequence(texts, at) && LinesAt(texts, at) == LinesAt(texts[..|texts| - 1], at)
    ensures texts[|texts| - 1].Some? ==>
              && IsSubsequence(texts, at + [|texts| - 1])
              && LinesAt(texts, at + [|texts| - 1]) == LinesAt(texts, at) + [texts[|texts| - 1].value]
  {
    assert forall i :: 0 <= i < |at| ==> texts[..|texts| - 1][at[i]] == texts[at[i]];
  }

  lemma ConcatNext(ls: seq<string>, l: string, ms: seq<string>)
    requires ms == ls + [l]
    ensures Concat(ms) == Concat(ls) + l
  {
    assert ms[..|ls|] == ls;
  }

  // A line is left out exactly if, behind the lines before it, fewer than 64 bytes
  // were left or it would not have fit.
  lemma {:induction false} TakenExactly(texts: seq<Option<string>>, k: nat)
    requires k < |texts| && texts[k].Some? && texts[k].value != ""
    ensures k in Chosen(texts)
            <==> |Body(texts[..k])| + 64 <= 16384 && |Body(texts[..k])| + |texts[k].value| < 16384
  {
    var n := |texts| - 1;
    BodyNext(texts, n);
    assert texts[..n + 1] == texts;
    BodyIsWholeLines(texts[..n]);
    if k < n {
      assert texts[..n][..k] == texts[..k];
      TakenExactly(texts[..n], k);
    }
  }

  // ---------------------------------------------------------------------
  // The receiver's view
  // ---------------------------------------------------------------------

  // Splits text after every newline.
  function SplitLines(s: string): seq<string> {
    if s == "" then [] else SplitNext(SplitLines(s[..|s| - 1]), s[|s| - 1])
  }

  function SplitNext(ls: seq<string>, c: char): seq<string> {
    if ls == [] || EndsInNewline(ls[|ls| - 1]) then ls + [[c]]
    else ls[..|ls| - 1] + [ls[|ls| - 1] + [c]]
  }

  predicate EndsInNewline(l: string) {
    l != "" && l[|l| - 1] == '\n'
  }

  predicate Complete(ls: seq<string>) {
    ls == [] || EndsInNewline(ls[|ls| - 1])
  }

  // One newline, at the end.
  predicate IsLine(l: string) {
    EndsInNewline(l) && '\n' !in l[..|l| - 1]
  }

  lemma SplitChar(s: string, c: char)
    ensures SplitLines(s + [c]) == SplitNext(SplitLines(s), c)
  {
    assert (s + [c])[..|s|] == s;
  }

  lemma NextStartsLine(ls: seq<string>, c: char)
    requires Complete(ls)
    ensures SplitNext(ls, c) == ls + [[c]]
  {
  }

  lemma NextExtends(ls: seq<string>, l: string, c: char)
    requires l != "" && !EndsInNewline(l)
    ensures SplitNext(ls + [l], c) == ls + [l + [c]]
  {
    assert (ls + [l])[..|ls|] == ls;
  }

  lemma {:induction false} SplitMore(ls: seq<string>, s: string, l: string)
    requires SplitLines(s) == ls && Complete(ls)
    requires l != "" && '\n' !in l[..|l| - 1]
    ensures SplitLines(s + l) == ls + [l]
  {
    var n := |l| - 1;
    var c := l[n];
    assert l == l[..n] + [c];
    if n == 0 {
      NextStartsLine(ls, c);
      assert l == [c];
      SplitChar(s, c);
    } else {
      SplitMore(ls, s, l[..n]);
      NextExtends(ls, l[..n], c);
      SplitChar(s + l[..n], c);
      assert s + l == (s + l[..n]) + [c];
    }
  }

  // If every line has its only newline at the end, the receiver sees the lines sent.
  lemma {:induction false} SplitConcat(ls: seq<string>)
    requires forall i :: 0 <= i < |ls| ==> IsLine(ls[i])
    ensures SplitLines(Concat(ls)) == ls
  {
    if ls != [] {
      var n := |ls| - 1;
      SplitConcat(ls[..n]);
      assert n > 0 ==> ls[..n][n - 1] == ls[n - 1];
      SplitMore(ls[..n], Concat(ls[..n]), ls[n]);
      assert ls == ls[..n] + [ls[n]];
    }
  }

  lemma BatchSplits(texts: seq<Option<string>>)
    requires forall k :: 0 <= k < |texts| ==> texts[k].Some? ==> IsLine(texts[k].value)
    ensures IsSubsequence(texts, Chosen(texts))
    ensures SplitLines(Body(texts)) == LinesAt(texts, Chosen(texts))
  {
    BodyIsWholeLines(texts);
    SplitConcat(LinesAt(texts, Chosen(texts)));
  }
}
