/** next_pow2 of the ring buffer: the capacity a caller asked for, rounded up. */
module Capacity {
  import opened Words

  // The smallest power of two that is at least max(2, n).
  ghost predicate IsLeastCapacity(n: nat, c: nat) {
    && IsPow2(c)
    && c >= 2 && c >= n
    && forall k: nat :: Pow2(k) >= 2 && Pow2(k) >= n ==> c <= Pow2(k)
  }

  // The w highest bits of a (k+1)-bit number are all ones.
  ghost predicate TopOnes(n: nat, k: nat, w: nat) {
    && n < Pow2(k + 1)
    && (if w > k then n == Pow2(k + 1) - 1 else n >= Pow2(k + 1) - Pow2(k + 1 - w))
  }

  lemma {:induction false} OrBounds(a: nat, b: nat, j: nat)
    requires a < Pow2(j) && b < Pow2(j)
    ensures b <= BitOr(a, b) < Pow2(j)
  {
    if j > 0 && !(a == 0 && b == 0) {
      OrBounds(a / 2, b / 2, j - 1);
    }
  }

  // OR with a number below 2^j leaves the bits from j upwards alone.
  lemma {:induction false} OrKeepsHighBits(m: nat, r: nat, b: nat, j: nat)
    requires r < Pow2(j) && b < Pow2(j)
    ensures BitOr(m * Pow2(j) + r, b) == m * Pow2(j) + BitOr(r, b)
  {
    if j == 0 {
      OrZero(m);
    } else {
      var p := Pow2(j - 1);
      var x := m * Pow2(j) + r;
      assert x == 2 * (m * p) + r by { assert m * (2 * p) == 2 * (m * p); }
      assert x / 2 == m * p + r / 2 && x % 2 == r % 2;
      OrKeepsHighBits(m, r / 2, b / 2, j - 1);
    }
  }

  lemma {:induction false} OrZero(m: nat)
    ensures BitOr(m, 0) == m
  {
    if m > 0 {
      OrZero(m / 2);
    }
  }

  // One `n |= n >> w` doubles the run of leading ones.
  lemma SmearStep(n: nat, k: nat, w: nat)
    requires 1 <= w && TopOnes(n, k, w)
    ensures TopOnes(BitOr(n, ShiftRight(n, w)), k, 2 * w)
  {
    var s := Pow2(w);
    if w > k {
      AllOnesStep(n, Pow2(k + 1), s) by { if k + 1 < w { Pow2Increasing(k + 1, w); } }
    } else {
      var j := k + 1 - w;
      Pow2Sum(w, j);
      var low := Pow2(j);
      if 2 * w <= k + 1 {
        var q := Pow2(j - w);
        Pow2Sum(w, j - w);
        ShiftFloor(s, low, q);
        OrWithShift(n, j, s, low, low - q);
      } else {
        Pow2Increasing(j, w);
        ShiftFloor(s, low, 1);
        OrWithShift(n, j, s, low, low - 1);
      }
    }
  }

  lemma AllOnesStep(n: nat, top: nat, s: nat)
    requires n == top - 1 && top <= s
    ensures BitOr(n, Quotient(n, s)) == n
  {
    DivBelow(n, 1, s);
    OrZero(n);
  }

  lemma ShiftFloor(s: nat, low: nat, q: nat)
    requires 1 <= q <= low && low <= s * q
    ensures (low - q) * s <= s * low - low
  {
    assert (low - q) * s == low * s - q * s;
  }

  // n has the form (s-1)*low + r with low = 2^j: shifting by s and OR-ing back
  // fills the low part at least up to `floor`.
  lemma OrWithShift(n: nat, j: nat, s: nat, low: nat, floor: nat)
    requires s >= 1 && low == Pow2(j)
    requires s * low - low <= n < s * low
    requires floor * s <= s * low - low
    ensures s * low - low + floor <= BitOr(n, Quotient(n, s)) < s * low
  {
    var r, b := n - (s * low - low), Quotient(n, s);
    DivBelow(n, low, s);
    DivAtLeast(n, floor, s);
    assert (s - 1) * low == s * low - low;
    OrKeepsHighBits(s - 1, r, b, j);
    OrBounds(r, b, j);
  }

  lemma DivBelow(n: nat, a: nat, s: nat)
    requires s > 0 && n < s * a
    ensures Quotient(n, s) < a
  {
    var q := Quotient(n, s);
    assert (q - a) * s == q * s - a * s;
    assert q >= a ==> (q - a) * s >= 0;
  }

  lemma DivAtLeast(n: nat, a: nat, s: nat)
    requires s > 0 && n >= a * s
    ensures Quotient(n, s) >= a
  {
    var q := Quotient(n, s);
    assert (a - (q + 1)) * s == a * s - (q + 1) * s;
    assert q + 1 <= a ==> (a - (q + 1)) * s >= 0;
  }

  lemma {:induction false} HighestBit(n: nat, b: nat) returns (k: nat)
    requires 1 <= n < Pow2(b)
    ensures k < b && Pow2(k) <= n < Pow2(k + 1)
  {
    k := b - 1;
    if n < Pow2(k) {
      k := HighestBit(n, k);
    }
  }

  // The whole cascade of shifts 1, 2, 4, ..., 32.
  function Smear(n: nat): nat {
    var n1 := BitOr(n, ShiftRight(n, 1));
    var n2 := BitOr(n1, ShiftRight(n1, 2));
    var n4 := BitOr(n2, ShiftRight(n2, 4));
    var n8 := BitOr(n4, ShiftRight(n4, 8));
    var n16 := BitOr(n8, ShiftRight(n8, 16));
    BitOr(n16, ShiftRight(n16, 32))
  }

  lemma SmearFills(n: nat, k: nat)
    requires k < 64 && Pow2(k) <= n < Pow2(k + 1)
    ensures Smear(n) == Pow2(k + 1) - 1
  {
    var n1 := BitOr(n, ShiftRight(n, 1));
    var n2 := BitOr(n1, ShiftRight(n1, 2));
    var n4 := BitOr(n2, ShiftRight(n2, 4));
    var n8 := BitOr(n4, ShiftRight(n4, 8));
    var n16 := BitOr(n8, ShiftRight(n8, 16));
    assert TopOnes(n, k, 1);
    SmearStep(n, k, 1);
    SmearStep(n1, k, 2);
    SmearStep(n2, k, 4);
    SmearStep(n4, k, 8);
    SmearStep(n8, k, 16);
    SmearStep(n16, k, 32);
  }

  lemma RoundsUp(request: nat, k: nat)
    requires k < 63 && request >= 2 && Pow2(k) <= request - 1 < Pow2(k + 1)
    ensures IsLeastCapacity(request, Pow2(k + 1))
  {
    forall j: nat | Pow2(j) >= 2 && Pow2(j) >= request
      ensures Pow2(k + 1) <= Pow2(j)
    {
      if j < k { Pow2Increasing(j, k); }
      if k + 1 < j { Pow2Increasing(k + 1, j); }
    }
    assert IsPow2(Pow2(k + 1));
  }

  lemma HighestBitOfWord(n: nat) returns (k: nat)
    requires 1 <= n < WORD
    ensures k < 64 && Pow2(k) <= n < Pow2(k + 1)
  {
    Pow2Values();
    k := HighestBit(n, 64);
  }

  // next_pow2. The final n + 1 is a size_t addition, so a request above 2^63
  // wraps to a capacity of 0; every other request is rounded up exactly.
  method NextPow2(request: nat) returns (c: nat)
    requires request < WORD
    ensures request <= HALF_WORD ==> IsLeastCapacity(request, c) && c <= HALF_WORD
    ensures request > HALF_WORD ==> c == 0
  {
    if request < 2 {
      RoundsUpToTwo(request);
      return 2;
    }
    var n := request - 1;
    ghost var k := HighestBitOfWord(n);
    SmearFills(n, k);
    n := BitOr(n, ShiftRight(n, 1));
    n := BitOr(n, ShiftRight(n, 2));
    n := BitOr(n, ShiftRight(n, 4));
    n := BitOr(n, ShiftRight(n, 8));
    n := BitOr(n, ShiftRight(n, 16));
    n := BitOr(n, ShiftRight(n, 32));
    c := WrapInc(n);
    AllOnesPlusOne(request, k, n);
  }

  lemma RoundsUpToTwo(request: nat)
    requires request < 2
    ensures IsLeastCapacity(request, 2)
  {
    assert Pow2(1) == 2;
  }

  lemma AllOnesPlusOne(request: nat, k: nat, n: nat)
    requires k < 64 && request >= 2 && Pow2(k) <= request - 1 < Pow2(k + 1)
    requires n == Pow2(k + 1) - 1
    ensures request <= HALF_WORD ==> IsLeastCapacity(request, WrapInc(n)) && WrapInc(n) <= HALF_WORD
    ensures request > HALF_WORD ==> WrapInc(n) == 0
  {
    HighBitOfWord(request, k);
    if k < 63 { RoundsUp(request, k); }
  }

  lemma HighBitOfWord(request: nat, k: nat)
    requires k < 64 && request >= 2 && Pow2(k) <= request - 1 < Pow2(k + 1)
    ensures request <= HALF_WORD ==> k < 63 && Pow2(k + 1) <= HALF_WORD
    ensures request > HALF_WORD ==> k == 63 && Pow2(k + 1) == WORD
  {
    Pow2Values();
    if k + 1 < 63 { Pow2Increasing(k + 1, 63); }
  }
}
