/** ringbuf.c as a class: the calls one thread makes when no other thread is inside
    the buffer. RingMachine gives the same code step by step, interleaved. */
module RingBuffer {
  import opened Words
  import opened Capacity

  class RingBuffer<T(0)> {
    var slots: array<T>
    var capacity: nat
    var mask: nat
    var head: nat
    var tail: nat
    var overflowCount: nat
    // How many pushes were refused.
    ghost var refused: nat

    // A request above 2^63 wraps to a capacity of 0: such a buffer stays empty.
    ghost predicate Valid()
      reads this
    {
      && (IsCapacity(capacity) || (capacity == 0 && head == tail))
      && capacity <= HALF_WORD && mask == WrapSub(capacity, 1) && slots.Length == capacity
      && head < WORD && tail < WORD && overflowCount == refused % WORD
      && WrapSub(head, tail) <= capacity
    }

    // The queued items, oldest first.
    ghost function Contents(): (items: seq<T>)
      reads this, slots
      requires Valid()
    {
      if capacity == 0 then [] else Queue(slots[..], tail, WrapSub(head, tail))
    }

    // rb_init on a successful allocation.
    constructor (request: nat)
      requires request < WORD
      ensures Valid() && fresh(slots)
      ensures if request <= HALF_WORD then IsLeastCapacity(request, capacity) else capacity == 0
      ensures Contents() == [] && refused == 0
    {
      var cap := NextPow2(request);
      if request <= HALF_WORD { IsCapacityFromLeast(request, cap); }
      slots := new T[cap];
      capacity, mask := cap, WrapSub(cap, 1);
      head, tail, overflowCount := 0, 0, 0;
      refused := 0;
      new;
    }

    // rb_push. rc is 0 when the item was queued, -1 when the buffer was full.
    method Push(item: T) returns (rc: int)
      requires Valid()
      modifies this`head, this`overflowCount, this`refused, slots
      ensures Valid()
      ensures rc == (if |old(Contents())| < capacity then 0 else -1)
      ensures rc == 0 ==> Contents() == old(Contents()) + [item] && refused == old(refused)
      ensures rc != 0 ==> Contents() == old(Contents()) && refused == old(refused) + 1
    {
      var h, t := head, tail;
      if WrapSub(h, t) >= capacity {
        overflowCount := WrapInc(overflowCount);
        WrapIncrement(refused);
        refused := refused + 1;
        return -1;
      }
      MaskOf(capacity);
      ghost var cells := slots[..];
      HeadSlot(h, t, capacity);
      QueuePush(cells, t, WrapSub(h, t), item);
      slots[BitAnd(h, mask)] := item;
      assert slots[..] == cells[(t + WrapSub(h, t)) % capacity := item];
      head := WrapInc(h);
      HeadAdvances(h, t, capacity);
      rc := 0;
    }

    // rb_pop. rc is 0 and x the oldest item, or -1 when the buffer was empty.
    method Pop(default: T) returns (rc: int, x: T)
      requires Valid()
      modifies this`tail
      ensures Valid()
      ensures rc == (if old(Contents()) != [] then 0 else -1)
      ensures rc == 0 ==> old(Contents()) == [x] + Contents()
      ensures rc != 0 ==> Contents() == old(Contents()) && x == default
    {
      var t, h := tail, head;
      DistanceBack(h, t);
      if t == h {
        return -1, default;
      }
      MaskOf(capacity);
      MaskedWord(t, capacity);
      QueuePop(slots[..], t, WrapSub(h, t));
      x := slots[BitAnd(t, mask)];
      tail := WrapInc(t);
      rc := 0;
    }

    // rb_size with both counters at rest.
    method Size() returns (n: nat)
      requires Valid()
      ensures n == |Contents()| <= capacity
    {
      n := WrapSub(head, tail);
    }

    // rb_overflow: how many pushes were refused, as long as those fit 64 bits.
    method Overflow() returns (n: nat)
      requires Valid()
      ensures n == refused % WORD && (refused < WORD ==> n == refused)
    {
      if refused < WORD { SmallRemainder(refused); }
      n := overflowCount;
    }
  }

  lemma IsCapacityFromLeast(request: nat, c: nat)
    requires request <= HALF_WORD && IsLeastCapacity(request, c) && c <= HALF_WORD
    ensures IsCapacity(c)
  {
    var k: nat :| c == Pow2(k);
    Pow2Values();
    if k > 63 { Pow2Increasing(63, k); }
    assert k != 0;
  }

  lemma MaskOf(cap: nat)
    requires 0 < cap <= HALF_WORD
    ensures WrapSub(cap, 1) == cap - 1
  {
  }

  // n items starting at counter `tail`, read cyclically.
  ghost function Queue<T>(cells: seq<T>, tail: nat, n: nat): (q: seq<T>)
    requires cells != []
    ensures |q| == n
  {
    seq(n, i requires i >= 0 => cells[(tail + i) % |cells|])
  }

  lemma QueuePush<T>(cells: seq<T>, tail: nat, n: nat, x: T)
    requires n < |cells|
    ensures Queue(cells[(tail + n) % |cells| := x], tail, n + 1) == Queue(cells, tail, n) + [x]
  {
    var cap, k := |cells|, (tail + n) % |cells|;
    var q := Queue(cells[k := x], tail, n + 1);
    forall i | 0 <= i < n
      ensures q[i] == Queue(cells, tail, n)[i]
    {
      DistinctSlots(tail + n, tail + i, cap);
    }
  }

  lemma QueuePop<T>(cells: seq<T>, tail: nat, n: nat)
    requires n > 0 && IsCapacity(|cells|) && tail < WORD
    ensures Queue(cells, tail, n) == [cells[tail % |cells|]] + Queue(cells, WrapInc(tail), n - 1)
  {
    var q, rest := Queue(cells, tail, n), Queue(cells, WrapInc(tail), n - 1);
    forall i | 0 <= i < n - 1
      ensures rest[i] == q[i + 1]
    {
      if tail + 1 == WORD { LapKeepsSlot(i, |cells|); }
    }
  }

  // A full lap of the 64-bit counter returns to the same slot.
  lemma LapKeepsSlot(i: nat, cap: nat)
    requires IsCapacity(cap)
    ensures cap > 0 && (WORD + i) % cap == i % cap
  {
    MaskedSlot(WORD + i, cap);
    MaskedSlot(i, cap);
    RemainderShift(i, 1, WORD);
  }

  lemma HeadSlot(h: nat, t: nat, cap: nat)
    requires IsCapacity(cap) && h < WORD && t < WORD
    ensures cap > 0 && BitAnd(h, cap - 1) == (t + WrapSub(h, t)) % cap < cap
  {
    MaskedWord(h, cap);
    DistanceBack(h, t);
    if h < t { LapKeepsSlot(h, cap); }
  }

  lemma DistanceBack(h: nat, t: nat)
    requires h < WORD && t < WORD
    ensures t + WrapSub(h, t) == if h < t then WORD + h else h
    ensures WrapSub(h, t) == 0 <==> h == t
    ensures h != t ==> WrapSub(h, WrapInc(t)) == WrapSub(h, t) - 1
  {
  }

  lemma HeadAdvances(h: nat, t: nat, cap: nat)
    requires IsCapacity(cap) && h < WORD && t < WORD && WrapSub(h, t) < cap
    ensures WrapSub(WrapInc(h), t) == WrapSub(h, t) + 1
  {
    CapacityRange(cap);
  }
}
