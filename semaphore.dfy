/**
  * The public semaphore of `avr-async/src/sync/semaphore/mod.rs`: a thin
  * wrapper over `InnerSemaphore`, and the `Acquire` future that first tries
  * to take the permits at once or queue for them, then waits until its queued
  * request has been served in full.
  */
module Semaphores {
  import opened Wrappers
  import opened SemaphoreImp
  import opened Machine

  /** `Semaphore`: the inner semaphore behind an `UnsafeCell`. */
  class Semaphore {
    const inner: InnerSemaphore

    ghost predicate Valid()
      reads this, inner, inner.buffer
    {
      inner.Valid()
    }

    /** `new`: `permits` permits over a ring of `n` descriptor slots. */
    constructor (n: nat, permits: nat)
      requires 0 < n && permits <= USIZE_MAX
      ensures Valid() && fresh(inner) && fresh(inner.buffer)
      ensures inner.N == n && inner.permits == permits && inner.locking == 0
      ensures inner.Descs == [] && inner.Held == 0
    {
      inner := new InnerSemaphore(n, permits);
    }

    /** `add_permits`: delegates to the inner semaphore. */
    method AddPermits(n: nat)
      requires Valid() && inner.permits + n <= USIZE_MAX
      modifies inner, inner.buffer
      ensures Valid()
      ensures inner.permits == old(inner.permits) + n
      ensures inner.Descs == ServeFrom(old(inner.Descs), 0, old(inner.permits - inner.locking) + n).0
      ensures inner.locking == old(inner.locking) + ServeFrom(old(inner.Descs), 0, old(inner.permits - inner.locking) + n).1
      ensures Served(old(inner.Descs), inner.Descs)
      ensures inner.Held == old(inner.Held) && inner.bounds == old(inner.bounds) && inner.Requests == old(inner.Requests)
    {
      inner.AddPermits(n);
    }

    /** `try_acquire_many`: the inner `try_acquire`. */
    method TryAcquireMany(n: nat) returns (r: Result<SemaphorePermit, TryAcquireError>)
      requires Valid() && n <= inner.permits
      modifies inner
      ensures Valid()
      ensures r.Ok? <==> old(inner.permits - inner.locking) >= n
      ensures r.Ok? ==> r.value == SemaphorePermit(n) && inner.locking == old(inner.locking) + n && inner.Held == old(inner.Held) + n
      ensures r.Err? ==> inner.locking == old(inner.locking) && inner.Held == old(inner.Held)
      ensures inner.permits == old(inner.permits) && inner.bounds == old(inner.bounds)
      ensures inner.Descs == old(inner.Descs) && inner.Requests == old(inner.Requests)
    {
      r := inner.TryAcquire(n);
    }

    /** `try_acquire`: `try_acquire_many(1)`. */
    method TryAcquire() returns (r: Result<SemaphorePermit, TryAcquireError>)
      requires Valid() && 1 <= inner.permits
      modifies inner
      ensures Valid()
      ensures r.Ok? <==> old(inner.locking) < old(inner.permits)
      ensures r.Ok? ==> r.value == SemaphorePermit(1) && inner.locking == old(inner.locking) + 1 && inner.Held == old(inner.Held) + 1
      ensures r.Err? ==> inner.locking == old(inner.locking) && inner.Held == old(inner.Held)
      ensures inner.permits == old(inner.permits) && inner.bounds == old(inner.bounds)
      ensures inner.Descs == old(inner.Descs) && inner.Requests == old(inner.Requests)
    {
      r := TryAcquireMany(1);
    }

    /** `acquire_many`: a future that has not tried anything yet. */
    method AcquireMany(n: nat) returns (a: Acquire)
      ensures fresh(a) && a.q == inner && a.state == Some(Left(n))
    {
      a := new Acquire(inner, n);
    }

    /** `acquire`: `acquire_many(1)`. */
    method AcquireOne() returns (a: Acquire)
      ensures fresh(a) && a.q == inner && a.state == Some(Left(1))
    {
      a := AcquireMany(1);
    }
  }

  /**
    * `Acquire`: `Left(n)` before the request is placed, `Right(t)` once it
    * holds a permit or a queued lock, and `None` after the permit was
    * handed out.
    */
  class Acquire {
    const q: InnerSemaphore
    var state: Option<Either<nat, TryAcquireEnqueue>>

    constructor (q: InnerSemaphore, n: nat)
      ensures this.q == q && state == Some(Left(n))
    {
      this.q := q;
      state := Some(Left(n));
    }

    /** What `poll` demands: a state to take, and a request it can place or a lock still queued. */
    ghost predicate CanPoll()
      reads this, q, q.buffer
    {
      q.Valid() && state.Some? &&
      (state.value.Left? ==> state.value.left <= q.permits) &&
      (state.value.Right? && state.value.right.state.Right? ==> q.LockLive(state.value.right.state.right))
    }

    /**
      * `poll`: a fresh request is placed with `try_acquire_enqueue` (and
      * retried on the next poll while the descriptor ring is full); a placed
      * request is tried with `try_lock` and yields its permit once its lock
      * is owed nothing.
      */
    method Poll() returns (r: Poll<SemaphorePermit>)
      requires CanPoll()
      modifies this, q, q.buffer
      ensures q.Valid() && q.permits == old(q.permits)
      ensures r.Ready? <==> state.None?
      ensures old(state.value).Left? && old(q.permits - q.locking) >= old(state.value.left) ==>
        r == Ready(SemaphorePermit(old(state.value.left))) &&
        q.locking == old(q.locking) + old(state.value.left) && q.Held == old(q.Held) + old(state.value.left) &&
        q.Descs == old(q.Descs) && q.Requests == old(q.Requests)
      ensures old(state.value).Left? && old(q.permits - q.locking) < old(state.value.left) && old(|q.Descs|) == q.N ==>
        r == Pending && state == old(state) &&
        q.locking == old(q.locking) && q.Held == old(q.Held) && q.bounds == old(q.bounds) &&
        q.Descs == old(q.Descs) && q.Requests == old(q.Requests)
      ensures old(state.value).Left? && old(q.permits - q.locking) < old(state.value.left) && old(|q.Descs|) < q.N ==>
        r == Pending && state.Some? && state.value.Right? && state.value.right.state.Right? &&
        state.value.right.state.right.permits == old(state.value.left) &&
        q.LockLive(state.value.right.state.right) && q.Outstanding(state.value.right.state.right) == old(state.value.left) &&
        q.Descs == old(q.Descs) + [Some(old(state.value.left))] && q.Requests == old(q.Requests) + [old(state.value.left)] &&
        q.locking == old(q.locking) && q.Held == old(q.Held)
      ensures old(state.value).Right? && old(state.value.right.state).Left? ==>
        r == Ready(old(state.value.right.state.left)) && q.locking == old(q.locking) && q.Held == old(q.Held) &&
        q.Descs == old(q.Descs)
      ensures old(state.value).Right? && old(state.value.right.state).Right? && old(q.Outstanding(state.value.right.state.right)) == 0 ==>
        r == Ready(SemaphorePermit(old(state.value.right.state.right.permits))) &&
        q.locking == old(q.locking) && q.Held == old(q.Held) + old(state.value.right.state.right.permits) &&
        q.Descs == Leave(old(q.Descs), old(q.LockIndex(state.value.right.state.right)))
      ensures old(state.value).Right? && old(state.value.right.state).Right? && old(q.Outstanding(state.value.right.state.right)) > 0 ==>
        r == Pending && state == old(state) &&
        q.locking == old(q.locking) && q.Held == old(q.Held) && q.bounds == old(q.bounds) &&
        q.Descs == old(q.Descs) && q.Requests == old(q.Requests) && q.LockLive(state.value.right.state.right)
    {
      var cur := state.value;
      state := None;
      while true
        invariant q.Valid() && q.permits == old(q.permits) && state == None
        invariant cur.Left? ==> cur == old(state.value) && unchanged(q) && q.buffer[..] == old(q.buffer[..])
        invariant cur.Right? && old(state.value).Left? ==>
          var n := old(state.value.left);
          old(q.permits - q.locking) >= n ==>
            cur == Right(Acquiring(Left(SemaphorePermit(n)))) &&
            q.locking == old(q.locking) + n && q.Held == old(q.Held) + n &&
            q.Descs == old(q.Descs) && q.Requests == old(q.Requests)
        invariant cur.Right? && old(state.value).Left? ==>
          var n := old(state.value.left);
          old(q.permits - q.locking) < n ==>
            old(|q.Descs|) < q.N && cur.right.state.Right? && cur.right.state.right.permits == n &&
            q.LockLive(cur.right.state.right) && q.Outstanding(cur.right.state.right) == n && n > 0 &&
            q.Descs == old(q.Descs) + [Some(n)] && q.Requests == old(q.Requests) + [n] &&
            q.locking == old(q.locking) && q.Held == old(q.Held)
        invariant cur.Right? && old(state.value).Right? ==> cur == old(state.value) && unchanged(q) && q.buffer[..] == old(q.buffer[..])
        invariant cur.Right? && cur.right.state.Right? ==> q.LockLive(cur.right.state.right)
        decreases if cur.Left? then 1 else 0
      {
        match cur {
          case Left(n) =>
            var p := q.TryAcquireEnqueue(n);
            if p.Some? {
              cur := Right(p.value);
            } else {
              state := Some(Left(n));
              r := Pending;
              return;
            }
          case Right(t) =>
            var x := q.TryLockEnqueued(t);
            match x {
              case Left(s) =>
                r := Ready(s);
                return;
              case Right(t') =>
                state := Some(Right(t'));
                r := Pending;
                return;
            }
        }
      }
    }

    /**
      * Dropping an `Acquire`: its state is dropped with it, so a queued lock
      * leaves the queue and gives back what it was granted (the waiters behind
      * it are then served from the freed permits), and a permit not yet
      * handed out is released to the waiters in the same way.
      */
    method Drop()
      requires q.Valid()
      requires state.Some? && state.value.Right? && state.value.right.state.Right? ==> q.LockLive(state.value.right.state.right)
      requires state.Some? && state.value.Right? && state.value.right.state.Left? ==> state.value.right.state.left.permits <= q.Held
      modifies q, q.buffer
      ensures q.Valid() && q.permits == old(q.permits)
      ensures state.None? || state.value.Left? ==> unchanged(q) && q.buffer[..] == old(q.buffer[..])
      ensures state.Some? && state.value.Right? && state.value.right.state.Left? ==>
        q.PermitDropped(state.value.right.state.left)
      ensures state.Some? && state.value.Right? && state.value.right.state.Right? ==>
        q.Held == old(q.Held) && |q.Descs| <= old(|q.Descs|) &&
        q.Requests == old(q.Requests)[old(|q.Descs|) - |q.Descs|..] &&
        q.LockDropped(state.value.right.state.right)
    {
      if state.Some? && state.value.Right? {
        match state.value.right.state {
          case Left(p) => q.DropPermit(p);
          case Right(lock) => q.DropLock(lock);
        }
      }
    }
  }

  /** The semaphore of the commented-out test: two permits, `locking` handed out, no waiter. */
  ghost predicate TestState(s: Semaphore, locking: nat)
    reads s, s.inner, s.inner.buffer
  {
    s.Valid() && s.inner.N == 2 && s.inner.permits == 2 && s.inner.locking == locking &&
    s.inner.Descs == [] && s.inner.Held == locking
  }

  /** The test's first step: `acquire_many(2)` is ready at once and its permit, a temporary, is dropped. */
  method ScenarioFirst(s: Semaphore) returns (first: Poll<SemaphorePermit>)
    requires TestState(s, 0)
    modifies s.inner, s.inner.buffer
    ensures TestState(s, 0) && first == Ready(SemaphorePermit(2))
  {
    var fut := s.AcquireMany(2);
    first := fut.Poll();
    s.inner.DropPermit(first.value);
  }

  /**
    * The test's block: a held permit for 2 makes `acquire()` queue; dropping
    * the permit serves the queued lock, whose next poll is ready.
    */
  method ScenarioBlock(s: Semaphore) returns (held: Poll<SemaphorePermit>, queued: Poll<SemaphorePermit>, served: Poll<SemaphorePermit>)
    requires TestState(s, 0)
    modifies s.inner, s.inner.buffer
    ensures TestState(s, 1)
    ensures held == Ready(SemaphorePermit(2)) && queued == Pending && served == Ready(SemaphorePermit(1))
  {
    var fut := s.AcquireMany(2);
    held := fut.Poll();
    var waiting := s.AcquireOne();
    queued := waiting.Poll();
    ServeSingle(1, 2);
    s.inner.DropPermit(held.value);
    served := waiting.Poll();
  }

  /** `acquire()` with one permit free is ready at once. */
  method ScenarioSecond(s: Semaphore) returns (second: Poll<SemaphorePermit>)
    requires TestState(s, 1)
    modifies s.inner, s.inner.buffer
    ensures TestState(s, 2) && second == Ready(SemaphorePermit(1))
  {
    var fut := s.AcquireOne();
    second := fut.Poll();
  }

  /** With both permits held, `acquire_many(2)` queues, and one added permit is not enough. */
  method ScenarioMany(s: Semaphore) returns (fut: Acquire, many: Poll<SemaphorePermit>, afterOne: Poll<SemaphorePermit>)
    requires TestState(s, 2)
    modifies s.inner, s.inner.buffer
    ensures fresh(fut) && fut.q == s.inner && fut.CanPoll() && s.Valid()
    ensures fut.state.Some? && fut.state.value.Right? && fut.state.value.right.state.Right?
    ensures fut.state.value.right.state.right.permits == 2
    ensures s.inner.permits == 3 && s.inner.locking == 3 && s.inner.Descs == [Some(1)]
    ensures many == Pending && afterOne == Pending
  {
    fut := s.AcquireMany(2);
    many := fut.Poll();
    ServeSingle(2, 1);
    s.AddPermits(1);
    afterOne := fut.Poll();
  }

  /** A second added permit serves the queued request in full. */
  method ScenarioLast(s: Semaphore, fut: Acquire) returns (afterTwo: Poll<SemaphorePermit>)
    requires fut.q == s.inner && fut.CanPoll() && s.Valid()
    requires fut.state.Some? && fut.state.value.Right? && fut.state.value.right.state.Right?
    requires fut.state.value.right.state.right.permits == 2
    requires s.inner.permits == 3 && s.inner.locking == 3 && s.inner.Descs == [Some(1)]
    modifies fut, s.inner, s.inner.buffer
    ensures afterTwo == Ready(SemaphorePermit(2))
  {
    ServeSingle(1, 1);
    s.AddPermits(1);
    afterTwo := fut.Poll();
  }

  /**
    * The commented-out test of the semaphore module, on a semaphore with two
    * permits and two descriptor slots, step by step.
    */
  method SemaphoreScenario() returns (first: Poll<SemaphorePermit>, held: Poll<SemaphorePermit>,
                                      queued: Poll<SemaphorePermit>, served: Poll<SemaphorePermit>,
                                      second: Poll<SemaphorePermit>, many: Poll<SemaphorePermit>,
                                      afterOne: Poll<SemaphorePermit>, afterTwo: Poll<SemaphorePermit>)
    ensures first == Ready(SemaphorePermit(2)) && held == Ready(SemaphorePermit(2))
    ensures queued == Pending && served == Ready(SemaphorePermit(1)) && second == Ready(SemaphorePermit(1))
    ensures many == Pending && afterOne == Pending && afterTwo == Ready(SemaphorePermit(2))
  {
    var s := new Semaphore(2, 2);
    first := ScenarioFirst(s);
    held, queued, served := ScenarioBlock(s);
    second := ScenarioSecond(s);
    var fut;
    fut, many, afterOne := ScenarioMany(s);
    afterTwo := ScenarioLast(s, fut);
  }
}
