/**
  * The fixed-capacity FIFO of `avr-async/src/queue.rs`: `N` slots and
  * `Option<(head, tail)>` bounds, where `None` stands for the empty queue, so
  * that a full ring (every slot in use) never looks like an empty one.
  */
module RingQueue {
  import opened Wrappers
  import opened Ring

  class Queue<T(0)> {
    /** The const-generic capacity `N`. */
    const N: nat
    /** `None` when empty, else the slots of the oldest and of the newest element. */
    var bounds: Option<(nat, nat)>
    /** The `N` slots; only those inside the bounds hold values. */
    const buffer: array<T>

    ghost predicate Valid()
      reads this
    {
      0 < N && buffer.Length == N &&
      (bounds.Some? ==> bounds.value.0 < N && bounds.value.1 < N)
    }

    /** The queued values, oldest first. */
    ghost function Contents(): (s: seq<T>)
      reads this, buffer
      requires Valid()
      ensures |s| == Len()
    {
      match bounds
      case None => []
      case Some((head, tail)) => Window(buffer[..], head, Span(head, tail, N))
    }

    /** `new`: an empty queue of capacity `n` (the source needs `N > 0`, since `inc` is taken modulo `N`). */
    constructor (n: nat)
      requires 0 < n
      ensures Valid() && fresh(buffer)
      ensures N == n && bounds == None && Contents() == []
    {
      N := n;
      bounds := None;
      buffer := new T[n];
    }

    /** `capacity`. */
    function Capacity(): (r: nat)
      reads this
      requires Valid()
      ensures r == buffer.Length && Len() <= r
    {
      N
    }

    /** `len`: the distance from head to tail plus one, or 0 without bounds. */
    function Len(): (r: nat)
      reads this
      requires Valid()
      ensures r <= N
      ensures r == 0 <==> bounds.None?
    {
      match bounds
      case None => 0
      case Some((head, tail)) => SpanCases(head, tail, N); Span(head, tail, N)
    }

    /** `is_empty`. */
    function IsEmpty(): (r: bool)
      reads this
      requires Valid()
      ensures r <==> Len() == 0
    {
      bounds.None?
    }

    /** `is_full`: the slot after the tail is the head. */
    function IsFull(): (r: bool)
      reads this
      requires Valid()
      ensures r <==> Len() == N
    {
      match bounds
      case None => false
      case Some((head, tail)) => FullIff(head, tail, N); head == Inc(tail, N)
    }

    /**
      * `enqueue` / `inner_enqueue`: a full queue hands `val` back untouched;
      * otherwise `val` is written at the slot after the tail, which becomes
      * the new tail.
      */
    method Enqueue(val: T) returns (r: Result<(), T>)
      requires Valid()
      modifies this, buffer
      ensures Valid()
      ensures old(IsFull()) ==> r == Err(val) && bounds == old(bounds) && buffer[..] == old(buffer[..])
      ensures !old(IsFull()) ==> r == Ok(()) && Contents() == old(Contents()) + [val]
      ensures !old(IsFull()) ==> Len() == old(Len()) + 1
      ensures !old(IsFull()) ==>
        bounds.Some? && buffer[bounds.value.1] == val &&
        forall j :: 0 <= j < N && j != bounds.value.1 ==> buffer[j] == old(buffer[j])
    {
      match bounds {
        case Some((head, tail)) =>
          var nextTail := Inc(tail, N);
          if head == nextTail {
            r := Err(val);
            return;
          }
          GrowTail(head, tail, N);
          WindowPush(buffer[..], head, Span(head, tail, N), val);
          bounds := Some((head, nextTail));
          buffer[nextTail] := val;
          r := Ok(());
        case None =>
          bounds := Some((0, 0));
          buffer[0] := val;
          assert Contents() == [val];
          r := Ok(());
      }
    }

    /**
      * `dequeue` / `inner_dequeue`: the value at the head leaves the queue;
      * the bounds collapse to `None` when it was the only one.
      */
    method Dequeue() returns (r: Option<T>)
      requires Valid()
      modifies this
      ensures Valid()
      ensures old(bounds).None? ==> r == None && bounds == None
      ensures old(bounds).Some? ==> r == Some(old(Contents())[0]) && Contents() == old(Contents())[1..]
      ensures old(bounds).Some? ==> Len() == old(Len()) - 1
      ensures old(Len()) == 1 ==> bounds == None
    {
      if bounds.None? {
        r := None;
        return;
      }
      var head, tail := bounds.value.0, bounds.value.1;
      ghost var before := Contents();
      var v := buffer[head];
      assert v == before[0] by {
        SpanCases(head, tail, N);
        ModSmall(head, N);
        assert Slot(head, 0, N) == head;
      }
      var len := (tail - head + N) % N;
      SingleIff(head, tail, N);
      if len == 0 {
        bounds := None;
      } else {
        SpanCases(head, tail, N);
        ShrinkHead(head, tail, N, 0);
        WindowPop(buffer[..], head, Span(head, tail, N));
        bounds := Some((Inc(head, N), tail));
        assert Contents() == before[1..];
      }
      r := Some(v);
    }
  }

  /** `Iter`: walks the queue from the head, `len` times, wrapping modulo `N`. */
  class Iter<T(0)> {
    /** The borrowed queue. */
    const q: Queue<T>
    /** `q.len()` when the iterator was made. */
    const len: nat
    var index: nat
    /** The queue's contents while it is borrowed; the borrow keeps them fixed. */
    ghost const items: seq<T>

    ghost predicate Valid()
      reads this, q, q.buffer
    {
      q.Valid() && q.Contents() == items && len == |items| && index <= len
    }

    /** `Iter::new`. */
    constructor (queue: Queue<T>)
      requires queue.Valid()
      ensures Valid() && q == queue && index == 0 && items == queue.Contents()
    {
      q := queue;
      len := queue.Len();
      index := 0;
      items := queue.Contents();
    }

    /** `next`: the element `index` places after the head, until `len` were yielded. */
    method Next() returns (r: Option<T>)
      requires Valid()
      modifies this
      ensures Valid()
      ensures old(index) < len ==> r == Some(items[old(index)]) && index == old(index) + 1
      ensures old(index) >= len ==> r == None && index == old(index)
    {
      if index >= len {
        r := None;
      } else {
        var head := q.bounds.value.0;
        var i := (head + index) % q.N;
        index := index + 1;
        r := Some(q.buffer[i]);
      }
    }
  }

  /**
    * A `for` loop over `q.iter()`: it yields exactly the queued values, oldest
    * first, and leaves the queue as it was.
    */
  method Items<T(0)>(q: Queue<T>) returns (s: seq<T>)
    requires q.Valid()
    ensures s == q.Contents()
  {
    var it := new Iter(q);
    s := [];
    while true
      invariant it.Valid() && it.q == q && it.items == q.Contents()
      invariant s == it.items[..it.index]
      decreases it.len - it.index
    {
      var x := it.Next();
      if x.None? {
        break;
      }
      s := s + [x.value];
    }
  }

  /**
    * `IterMut`: the same walk, yielding the slot of each element (a `&mut T`
    * into the buffer) instead of a copy.
    */
  class IterMut<T(0)> {
    const q: Queue<T>
    const len: nat
    var index: nat
    ghost const items: seq<T>

    ghost predicate Valid()
      reads this, q, q.buffer
    {
      q.Valid() && q.Contents() == items && len == |items| && index <= len
    }

    /** `IterMut::new`. */
    constructor (queue: Queue<T>)
      requires queue.Valid()
      ensures Valid() && q == queue && index == 0 && items == queue.Contents()
    {
      q := queue;
      len := queue.Len();
      index := 0;
      items := queue.Contents();
    }

    /** `next`: the slot of the element `index` places after the head. */
    method Next() returns (r: Option<nat>)
      requires Valid()
      modifies this
      ensures Valid()
      ensures old(index) < len ==>
        r.Some? && r.value < q.N && q.buffer[r.value] == items[old(index)] &&
        r.value == Slot(q.bounds.value.0, old(index), q.N) && index == old(index) + 1
      ensures old(index) >= len ==> r == None && index == old(index)
    {
      if index >= len {
        r := None;
      } else {
        var head := q.bounds.value.0;
        var i := (head + index) % q.N;
        index := index + 1;
        r := Some(i);
      }
    }
  }

  /** Distinct steps of `IterMut` hand out distinct slots, so the `&mut T`s never alias. */
  lemma {:induction false} IterMutSlotsDistinct<T(0)>(q: Queue<T>, i: nat, j: nat)
    requires q.Valid() && q.bounds.Some? && i < q.Len() && j < q.Len() && i != j
    ensures Slot(q.bounds.value.0, i, q.N) != Slot(q.bounds.value.0, j, q.N)
  {
    if Slot(q.bounds.value.0, i, q.N) == Slot(q.bounds.value.0, j, q.N) {
      SlotInjective(q.bounds.value.0, i, j, q.N);
    }
  }

  /**
    * The scenario of the commented-out test: capacity 2; enqueue 1, dequeue,
    * enqueue 1 and 2, a rejected 3, then 1, 2 and nothing come out, in order.
    */
  method Capacity2Scenario() returns (rejected: Result<(), int>, first: Option<int>, second: Option<int>, third: Option<int>)
    ensures rejected == Err(3)
    ensures first == Some(1) && second == Some(2) && third == None
  {
    var q := new Queue<int>(2);
    var e := q.Enqueue(1);
    assert e == Ok(()) && q.Len() == 1 && !q.IsEmpty() && !q.IsFull();
    var d := q.Dequeue();
    assert d == Some(1) && q.Len() == 0 && q.IsEmpty() && !q.IsFull();
    e := q.Enqueue(1);
    assert e == Ok(()) && q.Len() == 1 && !q.IsFull();
    e := q.Enqueue(2);
    assert e == Ok(()) && q.Len() == 2 && q.IsFull();
    rejected := q.Enqueue(3);
    assert q.Len() == 2 && !q.IsEmpty() && q.IsFull();
    first := q.Dequeue();
    second := q.Dequeue();
    assert q.IsEmpty() && !q.IsFull();
    third := q.Dequeue();
  }
}
