/** The brute-force counter of analyzer.c: a window that restarts with the first
    attempt more than a minute after its start, against the attempt times. */
module BruteForce {

  const THRESHOLD: nat := 30
  const WINDOW_SEC: int := 60

  // brute_count and brute_window_start of a suspect.
  datatype Counter = Counter(count: nat, windowStart: int) {
    predicate Alerts() { count >= THRESHOLD }
  }

  // One initial SYN to a login port.
  function Attempt(c: Counter, now: int): Counter {
    if now - c.windowStart > WINDOW_SEC then Counter(1, now) else Counter(c.count + 1, c.windowStart)
  }

  // The counter after attempts at the given times, for an address first seen at start.
  function Run(start: int, times: seq<int>): Counter {
    if times == [] then Counter(0, start)
    else Attempt(Run(start, times[..|times| - 1]), times[|times| - 1])
  }

  // Whether attempt number i raised an alert.
  predicate AlertsAt(start: int, times: seq<int>, i: nat)
    requires i < |times|
  {
    Run(start, times[..i + 1]).Alerts()
  }

  ghost predicate Monotone(start: int, times: seq<int>) {
    && (forall k :: 0 <= k < |times| ==> start <= times[k])
    && forall j, k :: 0 <= j <= k < |times| ==> times[j] <= times[k]
  }

  // The counted attempts are the last c.count ones, the window holds exactly them
  // and is at most a minute long.
  ghost predicate Counts(c: Counter, start: int, times: seq<int>) {
    && c.count <= |times|
    && start <= c.windowStart
    && (times == [] ==> c.windowStart == start)
    && (times != [] ==> c.count >= 1 && times[|times| - 1] - c.windowStart <= WINDOW_SEC)
    && (forall k :: 0 <= k < |times| - c.count ==> times[k] < c.windowStart)
    && (forall k :: |times| - c.count <= k < |times| ==> c.windowStart <= times[k])
  }

  lemma {:induction false} RunCounts(start: int, times: seq<int>)
    requires Monotone(start, times)
    ensures Counts(Run(start, times), start, times)
  {
    if times != [] {
      var n := |times| - 1;
      RunCounts(start, times[..n]);
      AttemptCounts(Run(start, times[..n]), start, times[..n], times[n]);
      assert times[..n] + [times[n]] == times;
    }
  }

  lemma AttemptCounts(c: Counter, start: int, times: seq<int>, now: int)
    requires Counts(c, start, times) && start <= now && Monotone(start, times)
    requires times != [] ==> times[|times| - 1] <= now
    ensures Counts(Attempt(c, now), start, times + [now])
  {
    if now - c.windowStart > WINDOW_SEC && times != [] {
      assert forall k :: 0 <= k < |times| ==> times[k] <= times[|times| - 1];
    }
  }

  // An alert rests on at least 30 attempts of the last minute.
  lemma AlertMeansThirty(start: int, times: seq<int>)
    requires Monotone(start, times) && Run(start, times).Alerts()
    ensures |times| >= 30
    ensures times[|times| - 1] - times[|times| - 30] <= 60
  {
    RunCounts(start, times);
  }

  // While nothing restarts the window the count grows with every attempt.
  lemma {:induction false} CountGrows(start: int, times: seq<int>, i: nat, j: nat)
    requires i <= j <= |times|
    requires forall k :: i <= k < j ==> times[k] - Run(start, times[..i]).windowStart <= WINDOW_SEC
    ensures Run(start, times[..j]).windowStart == Run(start, times[..i]).windowStart
    ensures Run(start, times[..j]).count == Run(start, times[..i]).count + (j - i)
  {
    if i < j {
      CountGrows(start, times, i, j - 1);
      RunStep(start, times, j - 1);
    }
  }

  lemma RunStep(start: int, times: seq<int>, k: nat)
    requires k < |times|
    ensures Run(start, times[..k + 1]) == Attempt(Run(start, times[..k]), times[k])
  {
    assert times[..k + 1][..k] == times[..k];
  }

  // Of 30 attempts within a minute the last one alerts exactly if it finds the window
  // of the first one still open; nothing else alerts.
  lemma AlertExactly(start: int, times: seq<int>)
    requires Monotone(start, times)
    ensures var n := |times|;
            Run(start, times).Alerts()
            <==> n >= 30 && times[n - 1] - times[n - 30] <= 60
                 && times[n - 1] - Run(start, times[..n - 29]).windowStart <= 60
  {
    var n := |times|;
    if Run(start, times).Alerts() { AlertMeansThirty(start, times); }
    if n >= THRESHOLD && times[n - 1] - times[n - THRESHOLD] <= WINDOW_SEC {
      ThirtyAttempts(start, times);
    }
  }

  lemma ThirtyAttempts(start: int, times: seq<int>)
    requires Monotone(start, times) && |times| >= THRESHOLD
    requires times[|times| - 1] - times[|times| - THRESHOLD] <= WINDOW_SEC
    ensures Run(start, times).Alerts()
            <==> times[|times| - 1] - Run(start, times[..|times| - THRESHOLD + 1]).windowStart <= WINDOW_SEC
  {
    var n, first := |times|, |times| - THRESHOLD + 1;
    var r := Restart(start, times, first, n);
    assert times[..n] == times;
    if r == n {
      RunCounts(start, times[..first]);
      CountGrows(start, times, first, n);
    } else {
      RunStep(start, times, r);
      forall k | r + 1 <= k < n
        ensures times[k] - Run(start, times[..r + 1]).windowStart <= WINDOW_SEC
      {
        assert times[k] <= times[n - 1] && times[n - THRESHOLD] <= times[r];
      }
      CountGrows(start, times, r + 1, n);
      assert times[r] <= times[n - 1];
    }
  }

  // Any 59 attempts within a minute raise an alert: at most one of them restarts the
  // window, and either 30 precede it or 30 start with it.
  lemma FiftyNineAlert(start: int, times: seq<int>, j: nat) returns (i: nat)
    requires Monotone(start, times)
    requires j + 58 < |times| && times[j + 58] - times[j] <= 60
    ensures j <= i <= j + 58 && AlertsAt(start, times, i)
  {
    i := Restart(start, times, j, j + 59);
    if i >= j + 30 {
      i := j + 29;
      CountGrows(start, times, j, i + 1);
    } else {
      RunStep(start, times, i);
      assert times[i] >= times[j];
      forall k | i + 1 <= k < j + 59
        ensures times[k] - Run(start, times[..i + 1]).windowStart <= WINDOW_SEC
      {
        assert times[k] <= times[j + 58];
      }
      CountGrows(start, times, i + 1, j + 59);
      i := j + 58;
    }
  }

  // The first attempt in [i, j) that restarts the window, or j.
  lemma {:induction false} Restart(start: int, times: seq<int>, i: nat, j: nat) returns (r: nat)
    requires i <= j <= |times|
    ensures i <= r <= j
    ensures forall k :: i <= k < r ==> times[k] - Run(start, times[..i]).windowStart <= WINDOW_SEC
    ensures r < j ==> Run(start, times[..r]).windowStart == Run(start, times[..i]).windowStart
    ensures r < j ==> times[r] - Run(start, times[..r]).windowStart > WINDOW_SEC
  {
    r := i;
    while r < j && times[r] - Run(start, times[..i]).windowStart <= WINDOW_SEC
      invariant i <= r <= j
      invariant forall k :: i <= k < r ==> times[k] - Run(start, times[..i]).windowStart <= WINDOW_SEC
    {
      r := r + 1;
    }
    CountGrows(start, times, i, r);
  }

  // 58 are not enough: 29 at the end of one window and 29 at the start of the next
  // never alert, although all of them came within one second.
  lemma FiftyEightMayPass(start: int)
    ensures var times := seq(58, k => if k < 29 then start + 60 else start + 61);
            && Monotone(start, times) && times[57] - times[0] == 1
            && forall i :: 0 <= i < 58 ==> !AlertsAt(start, times, i)
  {
    var times := seq(58, k => if k < 29 then start + 60 else start + 61);
    forall i | 0 <= i < 58
      ensures !AlertsAt(start, times, i)
    {
      assert Run(start, times[..0]) == Counter(0, start);
      if i < 29 {
        CountGrows(start, times, 0, i + 1);
      } else {
        CountGrows(start, times, 0, 29);
        RunStep(start, times, 29);
        CountGrows(start, times, 30, i + 1);
      }
    }
  }
}
