/**
  * The async queue of `avr-async/src/sync/queue.rs`: the ring queue of
  * `queue.rs` plus wake-ups, one when a value lands in an empty queue and one
  * when a value leaves a full one, and the `Enqueue` and `Dequeue` futures
  * that retry on every poll.
  */
module AsyncQueue {
  import opened Wrappers
  import RingQueue
  import opened Wake

  class Queue<T(0)> {
    const inner: RingQueue.Queue<T>

    /** `new`: an empty queue of capacity `n`. */
    constructor (n: nat)
      requires 0 < n
      ensures inner.Valid() && fresh(inner) && fresh(inner.buffer) && inner.N == n && inner.Contents() == []
    {
      inner := new RingQueue.Queue(n);
    }

    /**
      * `try_enqueue`: the inner `enqueue`; a value stored into an empty queue
      * wakes the executor once.
      */
    method TryEnqueue(val: T, w: Signal) returns (r: Result<(), T>)
      requires inner.Valid()
      modifies inner, inner.buffer, w
      ensures inner.Valid()
      ensures r == (if old(inner.IsFull()) then Err(val) else Ok(()))
      ensures inner.Contents() == if r.Ok? then old(inner.Contents()) + [val] else old(inner.Contents())
      ensures w.count == old(w.count) + if r.Ok? && old(inner.IsEmpty()) then 1 else 0
    {
      var signal := inner.IsEmpty();
      r := inner.Enqueue(val);
      if r.Ok? && signal {
        w.Wake();
      }
    }

    /**
      * `try_dequeue`: the inner `dequeue`; a value taken from a full queue
      * wakes the executor once.
      */
    method TryDequeue(w: Signal) returns (r: Option<T>)
      requires inner.Valid()
      modifies inner, w
      ensures inner.Valid()
      ensures r.Some? <==> old(inner.Len()) > 0
      ensures r.Some? ==> r.value == old(inner.Contents())[0] && inner.Contents() == old(inner.Contents())[1..]
      ensures r.None? ==> inner.Contents() == old(inner.Contents())
      ensures w.count == old(w.count) + if r.Some? && old(inner.IsFull()) then 1 else 0
    {
      var signal := inner.IsFull();
      r := inner.Dequeue();
      if r.Some? && signal {
        w.Wake();
      }
    }

    /** `enqueue`: a future that stores `val`. */
    method Enqueue(val: T) returns (f: Enqueue<T>)
      ensures fresh(f) && f.q == this && f.v == Some(val)
    {
      f := new Enqueue(this, val);
    }

    /** `dequeue`: a future that takes the oldest value. */
    method Dequeue() returns (f: Dequeue<T>)
      ensures fresh(f) && f.q == Some(this)
    {
      f := new Dequeue(this);
    }
  }

  /** `Enqueue`: the queue and the value still to be stored. */
  class Enqueue<T(0)> {
    const q: Queue<T>
    var v: Option<T>

    constructor (q: Queue<T>, val: T)
      ensures this.q == q && v == Some(val)
    {
      this.q := q;
      v := Some(val);
    }

    /**
      * `poll`: stores the value when there is room, waking the executor when
      * the queue was empty (once in `try_enqueue` and once more here); on a
      * full queue the value is kept for the next poll.
      */
    method Poll(w: Signal) returns (r: Poll<()>)
      requires q.inner.Valid() && v.Some?
      modifies this, q.inner, q.inner.buffer, w
      ensures q.inner.Valid()
      ensures r == if old(q.inner.IsFull()) then Pending else Ready(())
      ensures r.Ready? ==> v == None && q.inner.Contents() == old(q.inner.Contents()) + [old(v.value)]
      ensures r.Pending? ==> v == old(v) && q.inner.Contents() == old(q.inner.Contents())
      ensures w.count == old(w.count) + if r.Ready? && old(q.inner.IsEmpty()) then 2 else 0
    {
      var signal := q.inner.IsEmpty();
      var val := v.value;
      v := None;
      var res := q.TryEnqueue(val, w);
      match res {
        case Ok(_) =>
          if signal {
            w.Wake();
          }
          r := Ready(());
        case Err(x) =>
          v := Some(x);
          r := Pending;
      }
    }
  }

  /** `Dequeue`: the queue, taken out while polled and put back while pending. */
  class Dequeue<T(0)> {
    var q: Option<Queue<T>>

    constructor (q: Queue<T>)
      ensures this.q == Some(q)
    {
      this.q := Some(q);
    }

    /**
      * `poll`: takes the oldest value, waking the executor when the queue was
      * full (once in `try_dequeue` and once more here); on an empty queue the
      * queue is kept for the next poll.
      */
    method Poll(w: Signal) returns (r: Poll<T>)
      requires q.Some? && q.value.inner.Valid()
      modifies this, q.value.inner, w
      ensures old(q.value).inner.Valid()
      ensures r.Ready? <==> old(q.value.inner.Len()) > 0
      ensures r.Ready? ==>
        q == None && r.value == old(q.value.inner.Contents())[0] &&
        old(q.value).inner.Contents() == old(q.value.inner.Contents())[1..]
      ensures r.Pending? ==> q == old(q) && q.value.inner.Contents() == old(q.value.inner.Contents())
      ensures w.count == old(w.count) + if r.Ready? && old(q.value.inner.IsFull()) then 2 else 0
    {
      var queue := q.value;
      q := None;
      var signal := queue.inner.IsFull();
      var res := queue.TryDequeue(w);
      match res {
        case Some(val) =>
          if signal {
            w.Wake();
          }
          r := Ready(val);
        case None =>
          q := Some(queue);
          r := Pending;
      }
    }
  }

  /**
    * A value sent through the async queue comes out unchanged: an `Enqueue`
    * into an empty queue is ready at once, and so is the `Dequeue` after it.
    * Each of the two polls wakes the executor twice, as written.
    */
  method Handoff(x: int) returns (sent: Poll<()>, received: Poll<int>, wakes: nat)
    ensures sent == Ready(()) && received == Ready(x) && wakes == 4
  {
    var w := new Signal();
    var q := new Queue<int>(1);
    assert q.inner.Len() == 0 && q.inner.IsEmpty() && !q.inner.IsFull();
    var e := q.Enqueue(x);
    sent := e.Poll(w);
    assert q.inner.Contents() == [x] && q.inner.Len() == 1 && q.inner.IsFull();
    var d := q.Dequeue();
    received := d.Poll(w);
    wakes := w.count;
  }
}
