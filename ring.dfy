/**
  * Index arithmetic shared by the two ring buffers of the runtime: the value
  * queue (`queue.rs`) and the semaphore's waiter ring (`semaphore/imp.rs`).
  * Both keep `Option<(head, tail)>` bounds over `n` slots; `head` is the slot
  * of the oldest element and `tail` the slot of the newest one.
  */
module Ring {
  import opened Machine

  /** `inc`: the slot after `val`, wrapping at `n`. */
  function Inc(val: nat, n: nat): nat
    requires val < n
  {
    (val + 1) % n
  }

  /** The number of occupied slots of non-empty bounds `(head, tail)`. */
  function Span(head: nat, tail: nat, n: nat): nat
    requires head < n && tail < n
  {
    ((tail - head + n) % n) + 1
  }

  /**
    * The length as the source computes it on a 16-bit `usize`:
    * `tail.wrapping_sub(head).wrapping_add(n) % n + 1`.
    */
  function WrappedSpan(head: nat, tail: nat, n: nat): nat
    requires head < n && tail < n
  {
    var d := (tail - head) % (USIZE_MAX + 1);
    ((d + n) % (USIZE_MAX + 1)) % n + 1
  }

  /**
    * The wrapping arithmetic agrees with `Span` whenever `n <= 0x8000`,
    * which holds for every ring of non-zero-sized slots on AVR.
    */
  lemma WrappedSpanAgrees(head: nat, tail: nat, n: nat)
    requires head < n && tail < n && n <= 0x8000
    ensures WrappedSpan(head, tail, n) == Span(head, tail, n)
  {
    var m := USIZE_MAX + 1;
    if head <= tail {
      ModSmall(tail - head, m);
      ModSmall(tail - head + n, m);
    } else {
      assert (tail - head) % m == tail - head + m;
      ModShift(tail - head + n, m);
    }
  }

  /** With more than `0x8000` slots the sum wraps: 40000 slots holding 30001 elements report 4465. */
  lemma WrappedSpanOverflows()
    ensures Span(0, 30000, 40000) == 30001
    ensures WrappedSpan(0, 30000, 40000) == 4465
  {
  }

  /** The slot of the `i`-th element as the source computes it: `head.wrapping_add(i) % n`. */
  function WrappedSlot(head: nat, i: nat, n: nat): nat
    requires head < n && i < n
  {
    ((head + i) % (USIZE_MAX + 1)) % n
  }

  /** The wrapping slot arithmetic agrees with `Slot` whenever `n <= 0x8000`. */
  lemma WrappedSlotAgrees(head: nat, i: nat, n: nat)
    requires head < n && i < n && n <= 0x8000
    ensures WrappedSlot(head, i, n) == Slot(head, i, n)
  {
    ModSmall(head + i, USIZE_MAX + 1);
  }

  /** The slot holding the `i`-th element counted from `head`. */
  function Slot(head: nat, i: nat, n: nat): nat
    requires 0 < n
  {
    (head + i) % n
  }

  lemma IncCases(val: nat, n: nat)
    requires val < n
    ensures Inc(val, n) < n
    ensures Inc(val, n) == if val + 1 == n then 0 else val + 1
  {
  }

  lemma SpanCases(head: nat, tail: nat, n: nat)
    requires head < n && tail < n
    ensures 1 <= Span(head, tail, n) <= n
    ensures Span(head, tail, n) == if head <= tail then tail - head + 1 else tail + n - head + 1
  {
    if head <= tail {
      assert (tail - head + n) % n == tail - head by {
        ModShift(tail - head, n);
      }
    } else {
      assert 0 <= tail - head + n < n;
    }
  }

  lemma ModSmall(x: nat, n: nat)
    requires x < n
    ensures x % n == x
  {
  }

  lemma ModShift(x: nat, n: nat)
    requires x < n
    ensures (x + n) % n == x
  {
  }

  lemma SlotCases(head: nat, i: nat, n: nat)
    requires head < n && i < n
    ensures Slot(head, i, n) < n
    ensures Slot(head, i, n) == if head + i < n then head + i else head + i - n
  {
    if head + i >= n {
      assert (head + i) % n == (head + i - n + n) % n;
      ModShift(head + i - n, n);
    }
  }

  /** Distinct positions of the window occupy distinct slots. */
  lemma SlotInjective(head: nat, i: nat, j: nat, n: nat)
    requires head < n && i < n && j < n
    requires Slot(head, i, n) == Slot(head, j, n)
    ensures i == j
  {
    SlotCases(head, i, n);
    SlotCases(head, j, n);
  }

  /** Bounds whose next tail slot is the head cover every slot, and only those. */
  lemma FullIff(head: nat, tail: nat, n: nat)
    requires head < n && tail < n
    ensures Inc(tail, n) == head <==> Span(head, tail, n) == n
  {
    SpanCases(head, tail, n);
    IncCases(tail, n);
  }

  /** A single element is left exactly when head and tail coincide. */
  lemma SingleIff(head: nat, tail: nat, n: nat)
    requires head < n && tail < n
    ensures (tail - head + n) % n == 0 <==> head == tail
    ensures Span(head, tail, n) == 1 <==> head == tail
  {
    SpanCases(head, tail, n);
  }

  /** Moving the tail one slot on appends the slot right after the window. */
  lemma GrowTail(head: nat, tail: nat, n: nat)
    requires head < n && tail < n && Inc(tail, n) != head
    ensures Span(head, Inc(tail, n), n) == Span(head, tail, n) + 1
    ensures Span(head, tail, n) < n
    ensures Slot(head, Span(head, tail, n), n) == Inc(tail, n)
  {
    SpanCases(head, tail, n);
    IncCases(tail, n);
    FullIff(head, tail, n);
    SpanCases(head, Inc(tail, n), n);
    SlotCases(head, Span(head, tail, n), n);
  }

  /** Moving the head one slot on drops the oldest slot of the window. */
  lemma ShrinkHead(head: nat, tail: nat, n: nat, i: nat)
    requires head < n && tail < n && head != tail
    requires i + 1 < Span(head, tail, n)
    ensures Span(Inc(head, n), tail, n) == Span(head, tail, n) - 1
    ensures Slot(Inc(head, n), i, n) == Slot(head, i + 1, n)
  {
    SpanCases(head, tail, n);
    IncCases(head, n);
    SpanCases(Inc(head, n), tail, n);
    SlotCases(head, i + 1, n);
    SlotCases(Inc(head, n), i, n);
  }

  /** The tail is the last slot of the window. */
  lemma LastSlot(head: nat, tail: nat, n: nat)
    requires head < n && tail < n
    ensures Slot(head, Span(head, tail, n) - 1, n) == tail
  {
    SpanCases(head, tail, n);
    SlotCases(head, Span(head, tail, n) - 1, n);
  }

  /** Every slot lies in the window at some position: `IndexOf` inverts `Slot`. */
  function IndexOf(head: nat, slot: nat, n: nat): nat
    requires head < n && slot < n
  {
    (slot - head + n) % n
  }

  lemma IndexOfSlot(head: nat, slot: nat, n: nat)
    requires head < n && slot < n
    ensures IndexOf(head, slot, n) < n
    ensures Slot(head, IndexOf(head, slot, n), n) == slot
  {
    if head <= slot {
      ModShift(slot - head, n);
      SlotCases(head, slot - head, n);
    } else {
      ModSmall(slot - head + n, n);
      SlotCases(head, slot - head + n, n);
    }
  }

  lemma SlotIndexOf(head: nat, i: nat, n: nat)
    requires head < n && i < n
    ensures Slot(head, i, n) < n
    ensures IndexOf(head, Slot(head, i, n), n) == i
  {
    SlotCases(head, i, n);
    IndexOfSlot(head, Slot(head, i, n), n);
    SlotInjective(head, IndexOf(head, Slot(head, i, n), n), i, n);
  }

  /** The `len` slots of `b` from `head` on, wrapping around the end of the ring. */
  ghost function Window<T>(b: seq<T>, head: nat, len: nat): (w: seq<T>)
    requires head < |b| && len <= |b|
    ensures |w| == len
  {
    seq(len, i requires 0 <= i < len => b[Slot(head, i, |b|)])
  }

  /** Writing the slot after a window's end extends the window by that value. */
  lemma WindowPush<T>(b: seq<T>, head: nat, len: nat, v: T)
    requires head < |b| && len < |b|
    ensures Window(b[Slot(head, len, |b|) := v], head, len + 1) == Window(b, head, len) + [v]
  {
    var n := |b|;
    forall i | 0 <= i < len
      ensures Slot(head, i, n) != Slot(head, len, n)
    {
      if Slot(head, i, n) == Slot(head, len, n) {
        SlotInjective(head, i, len, n);
      }
    }
  }

  /** Moving the head one slot on drops the window's first value. */
  lemma WindowPop<T>(b: seq<T>, head: nat, len: nat)
    requires head < |b| && 0 < len <= |b|
    ensures Inc(head, |b|) < |b|
    ensures Window(b, Inc(head, |b|), len - 1) == Window(b, head, len)[1..]
  {
    var n := |b|;
    IncCases(head, n);
    forall i | 0 <= i < len - 1
      ensures Slot(Inc(head, n), i, n) == Slot(head, i + 1, n)
    {
      SlotCases(head, i + 1, n);
      SlotCases(Inc(head, n), i, n);
    }
  }

  /** Writing the slot of the `i`-th element changes that element of the window and no other. */
  lemma WindowUpdate<T>(b: seq<T>, b': seq<T>, head: nat, len: nat, i: nat, v: T)
    requires head < |b| && i < len <= |b|
    requires b' == b[Slot(head, i, |b|) := v]
    ensures Window(b', head, len) == Window(b, head, len)[i := v]
  {
    var n := |b|;
    forall k | 0 <= k < len && k != i
      ensures Slot(head, k, n) != Slot(head, i, n)
    {
      if Slot(head, k, n) == Slot(head, i, n) {
        SlotInjective(head, k, i, n);
      }
    }
  }
}
