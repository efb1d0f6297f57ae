/** Unsigned machine words: bitwise operators on naturals, powers of two and the
    counter arithmetic modulo 2^64 that the agent and the server rely on. */
module Words {

  // Number of values of a 64-bit size_t.
  const WORD: nat := 0x1_0000_0000_0000_0000

  const HALF_WORD: nat := 0x8000_0000_0000_0000

  function Pow2(k: nat): (p: nat)
    ensures p >= 1
  {
    if k == 0 then 1 else 2 * Pow2(k - 1)
  }

  function BitAnd(a: nat, b: nat): nat
    decreases a
  {
    if a == 0 || b == 0 then 0 else 2 * BitAnd(a / 2, b / 2) + (a % 2) * (b % 2)
  }

  function BitOr(a: nat, b: nat): nat
    decreases a + b
  {
    if a == 0 && b == 0 then 0
    else 2 * BitOr(a / 2, b / 2) + (if a % 2 == 1 || b % 2 == 1 then 1 else 0)
  }

  function ShiftRight(a: nat, s: nat): nat {
    Quotient(a, Pow2(s))
  }

  function Quotient(a: nat, d: nat): (q: nat)
    requires d > 0
    ensures q * d <= a < (q + 1) * d
  {
    Multiples(a / d, d);
    assert a == (a / d) * d + a % d;
    a / d
  }

  // a - b on size_t operands.
  function WrapSub(a: nat, b: nat): nat
    requires a < WORD && b < WORD
  {
    (a - b) % WORD
  }

  // a + 1 on a size_t operand.
  function WrapInc(a: nat): nat {
    (a + 1) % WORD
  }

  ghost predicate IsPow2(c: nat) {
    exists k: nat :: c == Pow2(k)
  }

  lemma Pow2Values()
    ensures Pow2(1) == 2 && Pow2(2) == 4 && Pow2(4) == 16 && Pow2(8) == 0x100
    ensures Pow2(16) == 0x1_0000 && Pow2(32) == 0x1_0000_0000
    ensures Pow2(63) == HALF_WORD && Pow2(64) == WORD
  {
    assert Pow2(4) == 16;
    assert Pow2(8) == 0x100;
    Pow2Sum(8, 8);
    Pow2Sum(16, 16);
    Pow2Sum(32, 32);
    assert Pow2(64) == 2 * Pow2(63);
  }

  lemma {:induction false} Pow2Sum(a: nat, b: nat)
    ensures Pow2(a + b) == Pow2(a) * Pow2(b)
  {
    if a > 0 {
      Pow2Sum(a - 1, b);
      DoubleProduct(Pow2(a - 1), Pow2(b));
    }
  }

  lemma DoubleProduct(x: nat, y: nat)
    ensures (2 * x) * y == 2 * (x * y)
  {
  }

  lemma {:induction false} Pow2Increasing(a: nat, b: nat)
    requires a < b
    ensures 2 * Pow2(a) <= Pow2(b)
  {
    if a + 1 < b {
      Pow2Increasing(a, b - 1);
    }
  }

  // Masking with 2^k - 1 takes the remainder modulo 2^k.
  lemma {:induction false} MaskIsRemainder(x: nat, k: nat)
    ensures BitAnd(x, Pow2(k) - 1) == x % Pow2(k)
  {
    if k > 0 && x > 0 {
      var p := Pow2(k - 1);
      MaskIsRemainder(x / 2, k - 1);
      assert (2 * p - 1) / 2 == p - 1 && (2 * p - 1) % 2 == 1;
      HalfRemainder(x, p);
    } else if k > 0 {
      assert 0 % Pow2(k) == 0;
    }
  }

  lemma HalfRemainder(x: nat, p: nat)
    requires p > 0
    ensures x % (2 * p) == 2 * ((x / 2) % p) + x % 2
  {
    var q, r := (x / 2) / p, (x / 2) % p;
    assert x == 2 * (q * p + r) + x % 2;
    assert x == q * (2 * p) + (2 * r + x % 2) by {
      assert 2 * (q * p) == q * (2 * p);
    }
    RemainderOf(x, q, 2 * p, 2 * r + x % 2);
  }

  // Uniqueness of quotient and remainder.
  lemma RemainderOf(x: int, q: int, d: nat, r: nat)
    requires d > 0 && x == q * d + r && r < d
    ensures x % d == r && x / d == q
  {
    var q', r' := x / d, x % d;
    assert x == q' * d + r';
    assert (q - q') * d == r' - r;
    Multiples(q - q', d);
  }

  lemma Multiples(m: int, d: nat)
    ensures m >= 1 ==> m * d >= d
    ensures m <= -1 ==> m * d <= -(d as int)
    ensures m == 0 ==> m * d == 0
  {
  }

  lemma MulMonotone(a: nat, b: nat, d: nat)
    requires a <= b
    ensures a * d <= b * d
  {
    assert (b - a) * d >= 0;
  }

  lemma RemainderShift(x: int, m: int, d: nat)
    requires d > 0
    ensures (x + m * d) % d == x % d
  {
    assert x + m * d == (x / d + m) * d + x % d;
    RemainderOf(x + m * d, x / d + m, d, x % d);
  }

  lemma NestedRemainder(i: nat, m: nat, d: nat)
    requires d > 0 && m > 0
    ensures m * d > 0 && (i % (m * d)) % d == i % d
  {
    var w := m * d;
    var q, r := i / w, i % w;
    assert i == q * w + r;
    assert q * w == (q * m) * d;
    RemainderShift(r, q * m, d);
  }

  // A power of two up to 2^63 divides 2^64, so reducing a counter modulo 2^64
  // first does not change the slot it selects.
  lemma WrapKeepsRemainder(i: nat, k: nat)
    requires k <= 63
    ensures (i % WORD) % Pow2(k) == i % Pow2(k)
  {
    Pow2Values();
    Pow2Sum(64 - k, k);
    NestedRemainder(i, Pow2(64 - k), Pow2(k));
  }

  // Capacities the ring buffer can have: powers of two from 2 to 2^63.
  ghost predicate IsCapacity(cap: nat) {
    exists k: nat :: 1 <= k <= 63 && cap == Pow2(k)
  }

  lemma CapacityRange(cap: nat)
    requires IsCapacity(cap)
    ensures 2 <= cap <= HALF_WORD
  {
    Pow2Values();
    var k: nat :| 1 <= k <= 63 && cap == Pow2(k);
    if k < 63 { Pow2Increasing(k, 63); }
    if 1 < k { Pow2Increasing(1, k); }
  }

  // `counter & mask` on a free-running 64-bit counter selects slot i % cap of
  // the unbounded position i it stands for, also across the 2^64 wrap.
  lemma MaskedSlot(i: nat, cap: nat)
    requires IsCapacity(cap)
    ensures cap > 0 && BitAnd(i % WORD, cap - 1) == i % cap < cap
  {
    var k: nat :| 1 <= k <= 63 && cap == Pow2(k);
    MaskIsRemainder(i % WORD, k);
    WrapKeepsRemainder(i, k);
  }

  lemma MaskedWord(x: nat, cap: nat)
    requires IsCapacity(cap) && x < WORD
    ensures cap > 0 && BitAnd(x, cap - 1) == x % cap < cap
  {
    MaskedSlot(x, cap);
    SmallRemainder(x);
  }

  lemma SmallRemainder(x: nat)
    requires x < WORD
    ensures x % WORD == x
  {
  }

  lemma AddWrapped(a: nat, b: nat)
    ensures (a % WORD + b) % WORD == (a + b) % WORD
  {
  }

  // Incrementing the counter moves to the next slot, cyclically.
  lemma MaskedSlotAdvances(x: nat, cap: nat)
    requires IsCapacity(cap) && x < WORD
    ensures cap > 0
    ensures BitAnd(WrapInc(x), cap - 1) == (BitAnd(x, cap - 1) + 1) % cap
  {
    MaskedWord(x, cap);
    MaskedSlot(x + 1, cap);
    SuccessorRemainder(x, cap);
  }

  lemma SuccessorRemainder(x: nat, d: nat)
    requires d > 0
    ensures (x + 1) % d == (x % d + 1) % d
  {
    assert x + 1 == (x % d + 1) + (x / d) * d;
    RemainderShift(x % d + 1, x / d, d);
  }

  // The difference of two wrapped counters is their true distance whenever
  // that distance is below 2^64.
  lemma WrapDistance(a: nat, b: nat)
    requires b <= a < b + WORD
    ensures WrapSub(a % WORD, b % WORD) == a - b
  {
    var x := a % WORD - b % WORD;
    var m := a / WORD - b / WORD;
    assert a - b == x + m * WORD;
    RemainderShift(x, m, WORD);
    assert (a - b) % WORD == a - b;
  }

  lemma WrapIncrement(a: nat)
    ensures WrapInc(a % WORD) == (a + 1) % WORD
  {
    assert a + 1 == (a % WORD + 1) + (a / WORD) * WORD;
    RemainderShift(a % WORD + 1, a / WORD, WORD);
  }

  // Two counters less than one lap apart select different slots.
  lemma DistinctSlots(a: nat, b: nat, cap: nat)
    requires 0 < a - b < cap
    ensures a % cap != b % cap
  {
    var m := a / cap - b / cap;
    assert a - b == m * cap + (a % cap - b % cap);
    Multiples(m, cap);
  }

  // Masking with a multiple of a power of two drops the low bits.
  lemma {:induction false} BitAndMultiple(q: nat, r: nat, m: nat, j: nat, x: nat, k: nat)
    requires r < Pow2(j) && x == q * Pow2(j) + r && k == m * Pow2(j)
    ensures BitAnd(x, k) == BitAnd(q, m) * Pow2(j)
    decreases j
  {
    if j > 0 {
      var d := Pow2(j - 1);
      var y, n := q * d + r / 2, m * d;
      assert Pow2(j) == 2 * d;
      BitAndMultiple(q, r / 2, m, j - 1, y, n);
      HighLow(q, r, d, x);
      TimesDouble(m, d);
      BitAndStep(y, r % 2, n, BitAnd(q, m), d, x, k);
    } else {
      assert Pow2(0) == 1 && x == q && k == m;
    }
  }

  lemma HighLow(q: nat, r: nat, d: nat, x: nat)
    requires r < 2 * d && x == q * (2 * d) + r
    ensures x == 2 * (q * d + r / 2) + r % 2 && r / 2 < d && r % 2 < 2
  {
    TimesDouble(q, d);
  }

  lemma BitAndStep(y: nat, b: nat, n: nat, z: nat, d: nat, x: nat, k: nat)
    requires b < 2 && x == 2 * y + b && k == 2 * n && BitAnd(y, n) == z * d
    ensures BitAnd(x, k) == z * (2 * d)
  {
    BitAndSplit(y, b, n);
    TimesDouble(z, d);
  }

  lemma BitAndSplit(y: nat, b: nat, n: nat)
    requires b < 2
    ensures BitAnd(2 * y + b, 2 * n) == 2 * BitAnd(y, n)
  {
  }

  lemma TimesDouble(a: nat, d: nat)
    ensures a * (2 * d) == 2 * (a * d)
  {
  }

  lemma NextMultiple(q: nat, d: nat)
    ensures (q + 1) * d == q * d + d
  {
  }

  lemma FewMultiples(q: nat, d: nat, n: nat, x: nat)
    requires q * d <= x < n * d
    ensures q < n && q % n == q
  {
    if q >= n { MulMonotone(n, q, d); }
  }

  lemma SameMultiple(a: nat, b: nat, d: nat)
    requires d > 0
    ensures a * d == b * d <==> a == b
  {
    if a < b { MulMonotone(a + 1, b, d); } else if b < a { MulMonotone(b + 1, a, d); }
  }
}
