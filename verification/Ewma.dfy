/** The exponentially weighted mean and variance of analyzer.c, over real arithmetic:
    the incremental update equals the batch weighted mean and variance of all samples. */
module Ewma {

  const CALIBRATION: nat := 100

  // EWMA_ALPHA_FAST while fewer than 100 samples were taken, EWMA_ALPHA_SLOW after.
  function Alpha(sampleCount: nat): real {
    if sampleCount < CALIBRATION then 0.3 else 0.1
  }

  // One tracked metric.
  datatype Track = Track(mean: real, variance: real)

  const ZERO := Track(0.0, 0.0)

  // Adds sample number n (counting from 0) to a metric.
  function AddSample(t: Track, n: nat, x: real): Track {
    if n == 0 then Track(x, 0.0)
    else Track(Toward(t.mean, Alpha(n), x), NextVariance(t.variance, t.mean, Alpha(n), x))
  }

  // From m a fraction a of the way to x.
  function Toward(m: real, a: real, x: real): real {
    m + a * (x - m)
  }

  function NextVariance(v: real, m: real, a: real, x: real): real {
    (1.0 - a) * (v + a * (x - m) * (x - m))
  }

  function AddAll(xs: seq<real>): Track {
    if xs == [] then ZERO
    else AddSample(AddAll(xs[..|xs| - 1]), |xs| - 1, xs[|xs| - 1])
  }

  // ---------------------------------------------------------------------
  // Reference: geometric weights and weighted moments
  // ---------------------------------------------------------------------

  // What samples j, j+1, ..., n-1 leave of an earlier sample's weight.
  function Decay(j: nat, n: nat): real
    decreases n
  {
    if j >= n then 1.0 else (1.0 - Alpha(n - 1)) * Decay(j, n - 1)
  }

  function Weight(k: nat, n: nat): real {
    (if k == 0 then 1.0 else Alpha(k)) * Decay(k + 1, n)
  }

  function Weights(n: nat): (ws: seq<real>)
    ensures |ws| == n
  {
    seq(n, k requires k >= 0 => Weight(k, n))
  }

  function Sum(ys: seq<real>): real {
    if ys == [] then 0.0 else Sum(ys[..|ys| - 1]) + ys[|ys| - 1]
  }

  function Product(a: real, b: real): real { a * b }

  function Square(x: real): real { x * x }

  function Scale(ys: seq<real>, c: real): (r: seq<real>)
    ensures |r| == |ys|
  {
    seq(|ys|, k requires 0 <= k < |ys| => Product(c, ys[k]))
  }

  function Weighted(ws: seq<real>, ys: seq<real>): (r: seq<real>)
    requires |ws| == |ys|
    ensures |r| == |ws|
  {
    seq(|ws|, k requires 0 <= k < |ws| => Product(ws[k], ys[k]))
  }

  function SquaredDistances(xs: seq<real>, c: real): (r: seq<real>)
    ensures |r| == |xs|
  {
    seq(|xs|, k requires 0 <= k < |xs| => Square(xs[k] - c))
  }

  function Mean(ws: seq<real>, xs: seq<real>): real
    requires |ws| == |xs|
  {
    Sum(Weighted(ws, xs))
  }

  // Weighted mean of the squared distances to c.
  function Spread(ws: seq<real>, xs: seq<real>, c: real): real
    requires |ws| == |xs|
  {
    Sum(Weighted(ws, SquaredDistances(xs, c)))
  }

  function Power(x: real, n: nat): real {
    if n == 0 then 1.0 else x * Power(x, n - 1)
  }

  // Of the samples j, ..., n - 1, how many were taken among the first hundred.
  function Early(j: nat, n: nat): (e: nat)
    requires j <= n
    ensures e <= n - j
  {
    if n <= 100 then n - j else if j <= 100 then 100 - j else 0
  }

  // 0.7 to the early ones times 0.9 to the others.
  function PowerDecay(early: nat, late: nat): real {
    Product(Power(0.7, early), Power(0.9, late))
  }

  lemma OneMoreEarly(early: nat, late: nat)
    ensures PowerDecay(early + 1, late) == 0.7 * PowerDecay(early, late)
  {
    ScaleLeft(0.7, Power(0.7, early), Power(0.9, late));
  }

  lemma OneMoreLate(early: nat, late: nat)
    ensures PowerDecay(early, late + 1) == 0.9 * PowerDecay(early, late)
  {
    ScaleRight(0.9, Power(0.7, early), Power(0.9, late));
  }

  lemma ScaleLeft(c: real, p: real, q: real)
    ensures Product(c * p, q) == c * Product(p, q)
  {
  }

  lemma ScaleRight(c: real, p: real, q: real)
    ensures Product(p, c * q) == c * Product(p, q)
  {
  }

  lemma {:induction false} DecayInPowers(j: nat, n: nat)
    requires j <= n
    ensures Decay(j, n) == PowerDecay(Early(j, n), n - j - Early(j, n))
    decreases n
  {
    if j < n {
      var early, late := Early(j, n - 1), n - 1 - j - Early(j, n - 1);
      DecayInPowers(j, n - 1);
      if n <= 100 { OneMoreEarly(early, late); } else { OneMoreLate(early, late); }
    }
  }

  // The weight of sample k among n, in numbers: 0.3 (0.1 after the first hundred) when it
  // was taken and 1 for the very first, times 0.7 for every later sample among the first
  // hundred and 0.9 for every other later one.
  lemma WeightsAreGeometric(k: nat, n: nat)
    requires k < n
    ensures Weights(n)[k]
            == Product(if k == 0 then 1.0 else if k < 100 then 0.3 else 0.1,
                       PowerDecay(Early(k + 1, n), n - k - 1 - Early(k + 1, n)))
  {
    DecayInPowers(k + 1, n);
    assert Weights(n)[k] == Weight(k, n);
  }

  // ---------------------------------------------------------------------
  // Sums
  // ---------------------------------------------------------------------

  lemma SumAppend(ys: seq<real>, y: real)
    ensures Sum(ys + [y]) == Sum(ys) + y
  {
    assert (ys + [y])[..|ys|] == ys;
  }

  lemma {:induction false} SumScale(ys: seq<real>, c: real)
    ensures Sum(Scale(ys, c)) == Product(c, Sum(ys))
  {
    if ys == [] {
      ProductZero(c);
    } else {
      var n := |ys| - 1;
      SumScale(ys[..n], c);
      assert Scale(ys, c)[..n] == Scale(ys[..n], c);
      ProductSum(c, Sum(ys[..n]), ys[n]);
    }
  }

  // Sums of terms that are the same linear combination of three others.
  lemma {:induction false} SumCombine(r: seq<real>, s: seq<real>, t: seq<real>, w: seq<real>, p: real, q: real)
    requires |r| == |s| == |t| == |w|
    requires forall k :: 0 <= k < |r| ==> r[k] == s[k] + Product(p, t[k]) + Product(q, w[k])
    ensures Sum(r) == Sum(s) + Product(p, Sum(t)) + Product(q, Sum(w))
  {
    if r == [] {
      ProductZero(p);
      ProductZero(q);
    } else {
      var n := |r| - 1;
      SumCombine(r[..n], s[..n], t[..n], w[..n], p, q);
      ProductSum(p, Sum(t[..n]), t[n]);
      ProductSum(q, Sum(w[..n]), w[n]);
    }
  }

  lemma {:induction false} SumMonotone(s: seq<real>, t: seq<real>)
    requires |s| == |t| && forall k :: 0 <= k < |s| ==> s[k] <= t[k]
    ensures Sum(s) <= Sum(t)
  {
    if s != [] {
      SumMonotone(s[..|s| - 1], t[..|t| - 1]);
    }
  }

  lemma {:induction false} SumPositive(s: seq<real>)
    requires forall k :: 0 <= k < |s| ==> s[k] >= 0.0
    ensures Sum(s) >= 0.0
  {
    if s != [] {
      SumPositive(s[..|s| - 1]);
    }
  }

  lemma ProductZero(c: real)
    ensures Product(c, 0.0) == 0.0
  {
  }

  lemma ProductSum(c: real, a: real, b: real)
    ensures Product(c, a + b) == Product(c, a) + Product(c, b)
  {
  }

  lemma ProductAssociates(a: real, b: real, c: real)
    ensures Product(Product(a, b), c) == Product(a, Product(b, c))
  {
  }

  lemma ProductSwaps(a: real, b: real, c: real)
    ensures Product(a, Product(b, c)) == Product(b, Product(a, c))
  {
  }

  lemma ProductSign(a: real, b: real)
    requires a >= 0.0 && b >= 0.0
    ensures Product(a, b) >= 0.0
    ensures a > 0.0 && b > 0.0 ==> Product(a, b) > 0.0
  {
  }

  lemma ProductMonotone(w: real, a: real, b: real)
    requires w >= 0.0 && a <= b
    ensures Product(w, a) <= Product(w, b)
  {
    ProductSign(w, b - a);
    assert Product(w, b - a) == Product(w, b) - Product(w, a);
  }

  lemma SquareSign(x: real)
    ensures Square(x) >= 0.0
  {
  }

  // ---------------------------------------------------------------------
  // Weights
  // ---------------------------------------------------------------------

  lemma {:induction false} DecayBounds(j: nat, n: nat)
    ensures 0.0 < Decay(j, n) <= 1.0
  {
    if j < n { DecayBounds(j, n - 1); }
  }

  lemma WeightsPositive(n: nat)
    ensures forall k :: 0 <= k < n ==> 0.0 < Weights(n)[k] <= 1.0
  {
    forall k | 0 <= k < n
      ensures 0.0 < Weight(k, n) <= 1.0
    {
      DecayBounds(k + 1, n);
    }
  }

  // A new sample scales every old weight by 1 - alpha and enters with alpha.
  lemma WeightsGrow(n: nat)
    requires n >= 1
    ensures Weights(n + 1) == Scale(Weights(n), 1.0 - Alpha(n)) + [Alpha(n)]
  {
    forall k | 0 <= k < n
      ensures Weight(k, n + 1) == Product(1.0 - Alpha(n), Weight(k, n))
    {
      WeightShrinks(k, n);
    }
    NewWeight(n);
    assert Weights(n + 1)[..n] == Scale(Weights(n), 1.0 - Alpha(n));
  }

  lemma WeightShrinks(k: nat, n: nat)
    requires k < n
    ensures Weight(k, n + 1) == Product(1.0 - Alpha(n), Weight(k, n))
  {
    var e := if k == 0 then 1.0 else Alpha(k);
    ProductSwaps(e, 1.0 - Alpha(n), Decay(k + 1, n));
  }

  lemma NewWeight(n: nat)
    requires n >= 1
    ensures Weight(n, n + 1) == Alpha(n)
  {
    assert Decay(n + 1, n + 1) == 1.0;
  }

  // ---------------------------------------------------------------------
  // Moments under scaling, appending and recentring
  // ---------------------------------------------------------------------

  lemma WeightedScaled(ws: seq<real>, ys: seq<real>, c: real)
    requires |ws| == |ys|
    ensures Sum(Weighted(Scale(ws, c), ys)) == Product(c, Sum(Weighted(ws, ys)))
  {
    var l, r := Weighted(Scale(ws, c), ys), Scale(Weighted(ws, ys), c);
    forall k | 0 <= k < |ws|
      ensures l[k] == r[k]
    {
      ProductAssociates(c, ws[k], ys[k]);
    }
    assert l == r;
    SumScale(Weighted(ws, ys), c);
  }

  lemma WeightedAppend(ws: seq<real>, ys: seq<real>, w: real, y: real)
    requires |ws| == |ys|
    ensures Sum(Weighted(ws + [w], ys + [y])) == Sum(Weighted(ws, ys)) + Product(w, y)
  {
    assert Weighted(ws + [w], ys + [y]) == Weighted(ws, ys) + [Product(w, y)];
    SumAppend(Weighted(ws, ys), Product(w, y));
  }

  // For weights of total 1, the spread about any centre is the spread about the
  // mean plus the squared distance between the two centres.
  lemma SpreadAboutMean(ws: seq<real>, xs: seq<real>, c: real)
    requires |ws| == |xs| && Sum(ws) == 1.0
    ensures Spread(ws, xs, c) == Spread(ws, xs, Mean(ws, xs)) + Square(Mean(ws, xs) - c)
  {
    var m := Mean(ws, xs);
    var p, q := 2.0 * (m - c), Square(c) - Square(m);
    var r, s := Weighted(ws, SquaredDistances(xs, c)), Weighted(ws, SquaredDistances(xs, m));
    forall k | 0 <= k < |ws|
      ensures r[k] == s[k] + Product(p, Weighted(ws, xs)[k]) + Product(q, ws[k])
    {
      ShiftTerm(ws[k], xs[k], m, c, p, q);
    }
    SumCombine(r, s, Weighted(ws, xs), ws, p, q);
    ShiftTotal(m, c, p, q, Sum(ws));
  }

  lemma ShiftTerm(w: real, x: real, m: real, c: real, p: real, q: real)
    requires p == 2.0 * (m - c) && q == Square(c) - Square(m)
    ensures Product(w, Square(x - c)) == Product(w, Square(x - m)) + Product(p, Product(w, x)) + Product(q, w)
  {
    assert Square(x - c) == Square(x - m) + (p * x + q);
    ProductSum(w, Square(x - m), p * x + q);
    ProductSum(w, p * x, q);
    ProductSwaps(w, p, x);
    assert Product(w, q) == Product(q, w);
  }

  lemma ShiftTotal(m: real, c: real, p: real, q: real, total: real)
    requires p == 2.0 * (m - c) && q == Square(c) - Square(m) && total == 1.0
    ensures Product(p, m) + Product(q, total) == Square(m - c)
  {
    assert Product(q, total) == q;
    assert Product(p, m) == 2.0 * (m * m) - 2.0 * (c * m);
  }

  // ---------------------------------------------------------------------
  // Main results
  // ---------------------------------------------------------------------

  // The tracked pair is the weighted mean and variance of the samples.
  ghost predicate IsMoments(xs: seq<real>, t: Track) {
    var ws := Weights(|xs|);
    && Sum(ws) == 1.0
    && t.mean == Mean(ws, xs)
    && t.variance == Spread(ws, xs, Mean(ws, xs))
  }

  // After any number of samples, across the switch of alpha at sample 100, the
  // tracked mean and variance are the weighted mean and weighted variance of all
  // of them, with the geometric weights, which sum to 1.
  lemma {:induction false} TracksWeightedMoments(xs: seq<real>)
    requires xs != []
    ensures IsMoments(xs, AddAll(xs))
  {
    var n := |xs| - 1;
    if n == 0 {
      FirstSample(xs);
    } else {
      TracksWeightedMoments(xs[..n]);
      NextSample(xs[..n], AddAll(xs[..n]), xs[n]);
      assert xs[..n] + [xs[n]] == xs;
    }
  }

  lemma FirstSample(xs: seq<real>)
    requires |xs| == 1
    ensures IsMoments(xs, Track(xs[0], 0.0))
  {
    var x := xs[0];
    assert Weights(1) == [1.0];
    SumOne(1.0);
    assert Weighted([1.0], xs) == [Product(1.0, x)];
    SumOne(Product(1.0, x));
    assert Weighted([1.0], SquaredDistances(xs, x)) == [Product(1.0, Square(x - x))];
    SumOne(Product(1.0, Square(x - x)));
  }

  lemma SumOne(y: real)
    ensures Sum([y]) == y
  {
    assert [y][..0] == [];
  }

  lemma NextSample(xs: seq<real>, t: Track, x: real)
    requires xs != [] && IsMoments(xs, t)
    ensures IsMoments(xs + [x], AddSample(t, |xs|, x))
  {
    var n, ws := |xs|, Weights(|xs|);
    var a := Alpha(n);
    WeightsGrow(n);
    NextTotal(ws, a);
    NextMean(ws, xs, a, x);
    NextSpread(ws, xs, a, x);
  }

  lemma NextTotal(ws: seq<real>, a: real)
    requires Sum(ws) == 1.0
    ensures Sum(Scale(ws, 1.0 - a) + [a]) == 1.0
  {
    SumAppend(Scale(ws, 1.0 - a), a);
    SumScale(ws, 1.0 - a);
  }

  lemma NextMean(ws: seq<real>, xs: seq<real>, a: real, x: real)
    requires |ws| == |xs|
    ensures Mean(Scale(ws, 1.0 - a) + [a], xs + [x]) == Toward(Mean(ws, xs), a, x)
  {
    WeightedAppend(Scale(ws, 1.0 - a), xs, a, x);
    WeightedScaled(ws, xs, 1.0 - a);
    MeanStep(Mean(ws, xs), a, x);
  }

  lemma MeanStep(m: real, a: real, x: real)
    ensures Product(1.0 - a, m) + Product(a, x) == Toward(m, a, x)
  {
  }

  lemma NextSpread(ws: seq<real>, xs: seq<real>, a: real, x: real)
    requires |ws| == |xs| && Sum(ws) == 1.0
    ensures var m := Mean(ws, xs);
            Spread(Scale(ws, 1.0 - a) + [a], xs + [x], Toward(m, a, x))
            == NextVariance(Spread(ws, xs, m), m, a, x)
  {
    var m := Mean(ws, xs);
    var m' := Toward(m, a, x);
    var ds := SquaredDistances(xs, m');
    assert SquaredDistances(xs + [x], m') == ds + [Square(x - m')];
    WeightedAppend(Scale(ws, 1.0 - a), ds, a, Square(x - m'));
    WeightedScaled(ws, ds, 1.0 - a);
    SpreadAboutMean(ws, xs, m');
    VarianceStep(Spread(ws, xs, m), Spread(ws, xs, m'), a, x, m, m');
  }

  lemma VarianceStep(v: real, spread: real, a: real, x: real, m: real, m': real)
    requires m' == Toward(m, a, x) && spread == v + Square(m - m')
    ensures Product(1.0 - a, spread) + Product(a, Square(x - m')) == NextVariance(v, m, a, x)
  {
    var d, c := x - m, 1.0 - a;
    assert m - m' == -(a * d) && x - m' == c * d;
    var q := d * d;
    assert Square(m - m') == a * a * q && Square(x - m') == c * c * q;
    assert a * (c * c * q) == c * (a * c * q);
    assert a * a * q + a * c * q == a * q;
    assert c * (v + a * a * q) + c * (a * c * q) == c * (v + a * q);
    assert a * d * d == a * q;
  }

  lemma HalfRange(x: real, lo: real, hi: real)
    requires lo <= x <= hi
    ensures Square(x - (lo + hi) / 2.0) <= Square(hi - lo) / 4.0
  {
    var u, v := hi - x, x - lo;
    ProductSign(u, v);
    assert Square(hi - lo) / 4.0 - Square(x - (lo + hi) / 2.0) == Product(u, v);
  }

  // Terms of a weighted sum between bounds keep the sum between bounds.
  lemma WeightedBounds(ws: seq<real>, ys: seq<real>, lo: real, hi: real)
    requires |ws| == |ys| && Sum(ws) == 1.0
    requires forall k :: 0 <= k < |ws| ==> 0.0 < ws[k]
    requires forall k :: 0 <= k < |ys| ==> lo <= ys[k] <= hi
    ensures lo <= Sum(Weighted(ws, ys)) <= hi
  {
    forall k | 0 <= k < |ws|
      ensures Scale(ws, lo)[k] <= Weighted(ws, ys)[k] <= Scale(ws, hi)[k]
    {
      ProductMonotone(ws[k], lo, ys[k]);
      ProductMonotone(ws[k], ys[k], hi);
      assert Product(lo, ws[k]) == Product(ws[k], lo);
      assert Product(hi, ws[k]) == Product(ws[k], hi);
    }
    SumMonotone(Scale(ws, lo), Weighted(ws, ys));
    SumMonotone(Weighted(ws, ys), Scale(ws, hi));
    SumScale(ws, lo);
    SumScale(ws, hi);
  }

  // The mean stays between the smallest and the largest sample, and the variance
  // between 0 and a quarter of the squared range.
  lemma TrackBounds(xs: seq<real>, lo: real, hi: real)
    requires xs != [] && forall k :: 0 <= k < |xs| ==> lo <= xs[k] <= hi
    ensures lo <= AddAll(xs).mean <= hi
    ensures 0.0 <= AddAll(xs).variance <= Square(hi - lo) / 4.0
  {
    TracksWeightedMoments(xs);
    WeightsPositive(|xs|);
    WeightedBounds(Weights(|xs|), xs, lo, hi);
    SpreadBounds(Weights(|xs|), xs, lo, hi);
  }

  lemma SpreadBounds(ws: seq<real>, xs: seq<real>, lo: real, hi: real)
    requires |ws| == |xs| && Sum(ws) == 1.0
    requires forall k :: 0 <= k < |ws| ==> 0.0 < ws[k]
    requires forall k :: 0 <= k < |xs| ==> lo <= xs[k] <= hi
    ensures 0.0 <= Spread(ws, xs, Mean(ws, xs)) <= Square(hi - lo) / 4.0
  {
    var c, r := (lo + hi) / 2.0, Square(hi - lo) / 4.0;
    DistanceBounds(xs, lo, hi, c, r);
    SpreadAtMost(ws, xs, c, r);
    SpreadSign(ws, xs, Mean(ws, xs));
  }

  lemma DistanceBounds(xs: seq<real>, lo: real, hi: real, c: real, r: real)
    requires c == (lo + hi) / 2.0 && r == Square(hi - lo) / 4.0
    requires forall k :: 0 <= k < |xs| ==> lo <= xs[k] <= hi
    ensures forall k :: 0 <= k < |xs| ==> 0.0 <= SquaredDistances(xs, c)[k] <= r
  {
    forall k | 0 <= k < |xs|
      ensures 0.0 <= Square(xs[k] - c) <= r
    {
      HalfRange(xs[k], lo, hi);
      SquareSign(xs[k] - c);
    }
  }

  lemma SpreadAtMost(ws: seq<real>, xs: seq<real>, c: real, r: real)
    requires |ws| == |xs| && Sum(ws) == 1.0
    requires forall k :: 0 <= k < |ws| ==> 0.0 < ws[k]
    requires forall k :: 0 <= k < |xs| ==> 0.0 <= SquaredDistances(xs, c)[k] <= r
    ensures Spread(ws, xs, Mean(ws, xs)) <= r
  {
    WeightedBounds(ws, SquaredDistances(xs, c), 0.0, r);
    SpreadAboutMean(ws, xs, c);
    SquareSign(Mean(ws, xs) - c);
  }

  lemma SpreadSign(ws: seq<real>, xs: seq<real>, c: real)
    requires |ws| == |xs| && forall k :: 0 <= k < |ws| ==> 0.0 < ws[k]
    ensures Spread(ws, xs, c) >= 0.0
  {
    var ts := Weighted(ws, SquaredDistances(xs, c));
    forall k | 0 <= k < |ts|
      ensures ts[k] >= 0.0
    {
      SquareSign(xs[k] - c);
      ProductSign(ws[k], Square(xs[k] - c));
    }
    SumPositive(ts);
  }

  // ---------------------------------------------------------------------
  // The three-sigma test
  // ---------------------------------------------------------------------

  const SIGMA: real := 3.0

  // is_anomaly, with |observed - mean| > 3 * sqrt(variance) compared squared.
  predicate IsAnomaly(observed: real, t: Track) {
    t.variance > 0.0 && Square(observed - t.mean) > Square(SIGMA) * t.variance
  }

  function Abs(x: real): real { if x < 0.0 then -x else x }

  // The squared comparison is the one the code makes with a square root.
  lemma AnomalyBySquareRoot(observed: real, t: Track, stddev: real)
    requires stddev >= 0.0 && Square(stddev) == t.variance
    ensures IsAnomaly(observed, t) <==> t.variance > 0.0 && Abs(observed - t.mean) > 3.0 * stddev
  {
    var d, s := Abs(observed - t.mean), SIGMA * stddev;
    assert Square(d) == Square(observed - t.mean);
    assert Square(s) == Square(SIGMA) * Square(stddev);
    SquareOrder(d, s);
  }

  lemma SquareGrows(x: real, e: real)
    requires x >= 0.0 && e >= 0.0
    ensures Square(x + e) >= Square(x)
    ensures e > 0.0 ==> Square(x + e) > Square(x)
  {
    var y := 2.0 * x + e;
    ProductSign(e, y);
    assert Square(x + e) - Square(x) == Product(e, y);
  }

  lemma SquareOrder(d: real, s: real)
    requires d >= 0.0 && s >= 0.0
    ensures Square(d) > Square(s) <==> d > s
  {
    if d > s {
      SquareGrows(s, d - s);
    } else {
      SquareGrows(d, s - d);
    }
  }

  // The weights of the samples the test would flag against t; 0 for the others.
  function FlaggedWeights(ws: seq<real>, xs: seq<real>, t: Track): (f: seq<real>)
    requires |ws| == |xs|
    ensures |f| == |ws|
  {
    seq(|ws|, k requires 0 <= k < |ws| => if IsAnomaly(xs[k], t) then ws[k] else 0.0)
  }

  // Chebyshev: whatever was sampled, the past samples the three-sigma test flags
  // carry less than a ninth of the total weight.
  lemma FlaggedIsRare(xs: seq<real>)
    requires xs != [] && AddAll(xs).variance > 0.0
    ensures 0.0 <= Sum(FlaggedWeights(Weights(|xs|), xs, AddAll(xs))) < 1.0 / 9.0
  {
    var ws, t := Weights(|xs|), AddAll(xs);
    TracksWeightedMoments(xs);
    WeightsPositive(|xs|);
    FlaggedSpread(ws, xs, t);
    CancelVariance(Sum(FlaggedWeights(ws, xs, t)), t.variance, Spread(ws, xs, t.mean));
  }

  lemma {:induction false} SumStrict(s: seq<real>, t: seq<real>, f: seq<real>)
    requires |s| == |t| == |f|
    requires forall k :: 0 <= k < |s| ==> f[k] >= 0.0 && s[k] <= t[k] && (f[k] > 0.0 ==> s[k] < t[k])
    ensures Sum(f) >= 0.0 && Sum(s) <= Sum(t)
    ensures Sum(f) > 0.0 ==> Sum(s) < Sum(t)
  {
    if s != [] {
      var n := |s| - 1;
      SumStrict(s[..n], t[..n], f[..n]);
    }
  }

  lemma FlaggedSpread(ws: seq<real>, xs: seq<real>, t: Track)
    requires |ws| == |xs| && t.variance > 0.0
    requires forall k :: 0 <= k < |ws| ==> ws[k] > 0.0
    ensures var f := Sum(FlaggedWeights(ws, xs, t));
            && f >= 0.0
            && (f > 0.0 ==> Product(9.0 * t.variance, f) < Spread(ws, xs, t.mean))
  {
    var f, ts := FlaggedWeights(ws, xs, t), Weighted(ws, SquaredDistances(xs, t.mean));
    var c := 9.0 * t.variance;
    forall k | 0 <= k < |ws|
      ensures f[k] >= 0.0 && Scale(f, c)[k] <= ts[k] && (f[k] > 0.0 ==> Scale(f, c)[k] < ts[k])
    {
      FlaggedTerm(ws[k], Square(xs[k] - t.mean), c);
      SquareSign(xs[k] - t.mean);
      ProductSign(ws[k], Square(xs[k] - t.mean));
      ProductZero(c);
    }
    SumStrict(Scale(f, c), ts, f);
    SumScale(f, c);
  }

  lemma FlaggedTerm(w: real, s: real, c: real)
    requires w > 0.0
    ensures s > c ==> Product(c, w) < Product(w, s)
  {
    if s > c {
      ProductSign(w, s - c);
      assert Product(w, s - c) == Product(w, s) - Product(c, w);
    }
  }

  lemma CancelVariance(f: real, v: real, spread: real)
    requires spread == v && v > 0.0 && f >= 0.0 && (f > 0.0 ==> Product(9.0 * v, f) < spread)
    ensures f < 1.0 / 9.0
  {
    var c, e := 9.0 * v, f - 1.0 / 9.0;
    assert Product(c, e) == Product(c, f) - v;
    if e >= 0.0 { ProductSign(c, e); }
  }
}
