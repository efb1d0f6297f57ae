/** update_baseline of analyzer.c: the per-IP collection window and the three metrics
    it feeds, against the windows the packet sequence falls into. */
module Baseline {
  import opened Ewma

  const WINDOW_SEC: int := 60

  // ip_baseline_t.
  datatype Baseline = Baseline(
    pps: Track,
    ports: Track,
    dns: Track,
    sampleCount: nat,
    windowStart: int,
    pktInWindow: nat,
    portsInWindow: nat,
    dnsInWindow: nat
  )

  function Fresh(now: int): Baseline {
    Baseline(ZERO, ZERO, ZERO, 0, now, 0, 0, 0)
  }

  // One packet: count it, and close the window once it is a minute old.
  function Update(b: Baseline, newPort: bool, isDns: bool, now: int): Baseline {
    var c := Count(b, newPort, isDns);
    if now - b.windowStart < WINDOW_SEC then c else Close(c, now)
  }

  function Count(b: Baseline, newPort: bool, isDns: bool): Baseline {
    b.(pktInWindow := b.pktInWindow + 1,
       portsInWindow := b.portsInWindow + (if newPort then 1 else 0),
       dnsInWindow := b.dnsInWindow + (if isDns then 1 else 0))
  }

  function Close(b: Baseline, now: int): Baseline
    requires now - b.windowStart >= WINDOW_SEC
  {
    var pps := b.pktInWindow as real / (now - b.windowStart) as real;
    Baseline(AddSample(b.pps, b.sampleCount, pps),
             AddSample(b.ports, b.sampleCount, b.portsInWindow as real),
             AddSample(b.dns, b.sampleCount, b.dnsInWindow as real),
             b.sampleCount + 1, now, 0, 0, 0)
  }

  // ---------------------------------------------------------------------
  // Reference: the windows of a packet sequence
  // ---------------------------------------------------------------------

  datatype Sighting = Sighting(newPort: bool, isDns: bool, now: int)

  // A closed window: its packets, the last of which closed it at `end`.
  datatype Window = Window(start: int, end: int, seen: seq<Sighting>)

  datatype Division = Division(closed: seq<Window>, start: int, open: seq<Sighting>)

  function Divide(start: int, ss: seq<Sighting>): Division {
    if ss == [] then Division([], start, [])
    else
      var d, s := Divide(start, ss[..|ss| - 1]), ss[|ss| - 1];
      if s.now - d.start < WINDOW_SEC then d.(open := d.open + [s])
      else Division(d.closed + [Window(d.start, s.now, d.open + [s])], s.now, [])
  }

  function Run(start: int, ss: seq<Sighting>): Baseline {
    if ss == [] then Fresh(start)
    else
      var s := ss[|ss| - 1];
      Update(Run(start, ss[..|ss| - 1]), s.newPort, s.isDns, s.now)
  }

  function CountIf(ss: seq<Sighting>, p: Sighting -> bool): nat {
    if ss == [] then 0
    else CountIf(ss[..|ss| - 1], p) + (if p(ss[|ss| - 1]) then 1 else 0)
  }

  const NEW_PORT := (s: Sighting) => s.newPort

  const DNS := (s: Sighting) => s.isDns

  function PpsSamples(ws: seq<Window>): (r: seq<real>)
    ensures |r| == |ws|
  {
    seq(|ws|, k requires 0 <= k < |ws| =>
      if ws[k].end > ws[k].start then |ws[k].seen| as real / (ws[k].end - ws[k].start) as real else 0.0)
  }

  function CountSamples(ws: seq<Window>, p: Sighting -> bool): (r: seq<real>)
    ensures |r| == |ws|
  {
    seq(|ws|, k requires 0 <= k < |ws| => CountIf(ws[k].seen, p) as real)
  }

  // The packets of all windows, closed and open, in order.
  function Flatten(d: Division): seq<Sighting> {
    FlattenClosed(d.closed) + d.open
  }

  function FlattenClosed(ws: seq<Window>): seq<Sighting> {
    if ws == [] then [] else FlattenClosed(ws[..|ws| - 1]) + ws[|ws| - 1].seen
  }

  // Every packet falls into exactly one window, windows follow each other without
  // a gap, and a window closes with the first packet a minute after its start.
  ghost predicate ProperDivision(start: int, ss: seq<Sighting>, d: Division) {
    && Flatten(d) == ss
    && (forall k :: 0 <= k < |d.closed| ==> ProperWindow(d.closed[k], LastEnd(start, d.closed[..k])))
    && d.start == LastEnd(start, d.closed)
    && AllWithin(d.start, d.open)
  }

  function LastEnd(start: int, ws: seq<Window>): int {
    if ws == [] then start else ws[|ws| - 1].end
  }

  ghost predicate ProperWindow(w: Window, start: int) {
    && w.seen != [] && w.start == start
    && w.end == w.seen[|w.seen| - 1].now && w.end - w.start >= 60
    && AllWithin(w.start, w.seen[..|w.seen| - 1])
  }

  ghost predicate AllWithin(start: int, ss: seq<Sighting>) {
    forall k :: 0 <= k < |ss| ==> ss[k].now - start < 60
  }

  lemma {:induction false} DivideIsProper(start: int, ss: seq<Sighting>)
    ensures ProperDivision(start, ss, Divide(start, ss))
  {
    if ss != [] {
      var n := |ss| - 1;
      DivideIsProper(start, ss[..n]);
      assert ss == ss[..n] + [ss[n]];
      var d, s := Divide(start, ss[..n]), ss[n];
      if s.now - d.start >= WINDOW_SEC {
        CloseIsProper(start, ss[..n], d, s);
      }
    }
  }

  lemma CloseIsProper(start: int, ss: seq<Sighting>, d: Division, s: Sighting)
    requires ProperDivision(start, ss, d) && s.now - d.start >= WINDOW_SEC
    ensures ProperDivision(start, ss + [s],
                           Division(d.closed + [Window(d.start, s.now, d.open + [s])], s.now, []))
  {
    var w := Window(d.start, s.now, d.open + [s]);
    var ws := d.closed + [w];
    assert ws[..|d.closed|] == d.closed;
    assert w.seen[..|d.open|] == d.open;
    forall k | 0 <= k < |ws|
      ensures ProperWindow(ws[k], LastEnd(start, ws[..k]))
    {
      if k < |d.closed| { assert ws[..k] == d.closed[..k]; }
    }
  }

  lemma CountIfAppend(ss: seq<Sighting>, s: Sighting, p: Sighting -> bool)
    ensures CountIf(ss + [s], p) == CountIf(ss, p) + (if p(s) then 1 else 0)
  {
    assert (ss + [s])[..|ss|] == ss;
  }

  lemma AddAllAppend(xs: seq<real>, x: real)
    ensures AddAll(xs + [x]) == AddSample(AddAll(xs), |xs|, x)
  {
    assert (xs + [x])[..|xs|] == xs;
  }

  // The baseline after a packet sequence: each metric has absorbed exactly the
  // samples of the closed windows, and the counters hold the open window.
  ghost predicate Reflects(b: Baseline, d: Division) {
    && b.sampleCount == |d.closed| && b.windowStart == d.start
    && b.pps == AddAll(PpsSamples(d.closed))
    && b.ports == AddAll(CountSamples(d.closed, NEW_PORT))
    && b.dns == AddAll(CountSamples(d.closed, DNS))
    && b.pktInWindow == |d.open|
    && b.portsInWindow == CountIf(d.open, NEW_PORT)
    && b.dnsInWindow == CountIf(d.open, DNS)
  }

  lemma {:induction false} RunReflectsWindows(start: int, ss: seq<Sighting>)
    ensures Reflects(Run(start, ss), Divide(start, ss))
  {
    if ss != [] {
      var n := |ss| - 1;
      RunReflectsWindows(start, ss[..n]);
      UpdateReflects(Run(start, ss[..n]), Divide(start, ss[..n]), ss[n]);
    }
  }

  lemma UpdateReflects(b: Baseline, d: Division, s: Sighting)
    requires Reflects(b, d)
    ensures var b' := Update(b, s.newPort, s.isDns, s.now);
            && (s.now - d.start < WINDOW_SEC ==> Reflects(b', d.(open := d.open + [s])))
            && (s.now - d.start >= WINDOW_SEC ==>
                  Reflects(b', Division(d.closed + [Window(d.start, s.now, d.open + [s])], s.now, [])))
  {
    CountReflects(b, d, s);
    if s.now - d.start >= WINDOW_SEC {
      CloseReflects(Count(b, s.newPort, s.isDns), d.(open := d.open + [s]), s.now);
    }
  }

  lemma CountReflects(b: Baseline, d: Division, s: Sighting)
    requires Reflects(b, d)
    ensures var b' := Count(b, s.newPort, s.isDns);
            && Reflects(b', d.(open := d.open + [s])) && b'.pktInWindow == b.pktInWindow + 1
            && b'.portsInWindow == b.portsInWindow + (if s.newPort then 1 else 0)
            && b'.dnsInWindow == b.dnsInWindow + (if s.isDns then 1 else 0)
  {
    CountIfAppend(d.open, s, NEW_PORT);
    CountIfAppend(d.open, s, DNS);
  }

  lemma CloseReflects(b: Baseline, d: Division, now: int)
    requires Reflects(b, d) && now - d.start >= WINDOW_SEC
    ensures Reflects(Close(b, now), Division(d.closed + [Window(d.start, now, d.open)], now, []))
  {
    var w := Window(d.start, now, d.open);
    PpsSamplesAppend(d.closed, w);
    CountSamplesAppend(d.closed, w, NEW_PORT);
    CountSamplesAppend(d.closed, w, DNS);
  }

  lemma PpsSamplesAppend(ws: seq<Window>, w: Window)
    requires w.end > w.start
    ensures AddAll(PpsSamples(ws + [w]))
            == AddSample(AddAll(PpsSamples(ws)), |ws|, |w.seen| as real / (w.end - w.start) as real)
  {
    var x := |w.seen| as real / (w.end - w.start) as real;
    assert PpsSamples(ws + [w]) == PpsSamples(ws) + [x];
    AddAllAppend(PpsSamples(ws), x);
  }

  lemma CountSamplesAppend(ws: seq<Window>, w: Window, p: Sighting -> bool)
    ensures AddAll(CountSamples(ws + [w], p))
            == AddSample(AddAll(CountSamples(ws, p)), |ws|, CountIf(w.seen, p) as real)
  {
    var x := CountIf(w.seen, p) as real;
    assert CountSamples(ws + [w], p) == CountSamples(ws, p) + [x];
    AddAllAppend(CountSamples(ws, p), x);
  }

  // The adaptive thresholds therefore rest on the weighted mean and variance of
  // every window the address ever closed.
  lemma BaselineHoldsWeightedMoments(start: int, ss: seq<Sighting>)
    requires Divide(start, ss).closed != []
    ensures var b, ws := Run(start, ss), Divide(start, ss).closed;
            && IsMoments(PpsSamples(ws), b.pps)
            && IsMoments(CountSamples(ws, NEW_PORT), b.ports)
            && IsMoments(CountSamples(ws, DNS), b.dns)
  {
    var ws := Divide(start, ss).closed;
    RunReflectsWindows(start, ss);
    TracksWeightedMoments(PpsSamples(ws));
    TracksWeightedMoments(CountSamples(ws, NEW_PORT));
    TracksWeightedMoments(CountSamples(ws, DNS));
  }
}
