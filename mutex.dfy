/**
  * The async mutex of `avr-async/src/sync/mutex.rs`: a semaphore with a
  * single permit guarding a value. A guard forgets the permit it was given
  * and releases exactly one permit when it is dropped, so the semaphore's
  * held permits count the live guards.
  */
module Mutexes {
  import opened Wrappers
  import opened SemaphoreImp
  import opened Semaphores

  /** `TryLockError`: the mutex is locked. */
  datatype TryLockError = TryLockError

  /** `MutexGuard`: access to the value of `mutex` until the guard is dropped. */
  datatype MutexGuard<T> = MutexGuard(mutex: Mutex<T>)

  /** `MappedMutexGuard`: the semaphore to release and the part of the value `map` selected. */
  datatype MappedMutexGuard<U> = MappedMutexGuard(s: Semaphore, data: U)

  class Mutex<T> {
    const lock: Semaphore
    var value: T

    ghost predicate Valid()
      reads this, lock, lock.inner, lock.inner.buffer
    {
      lock.Valid() && lock.inner.permits == 1
    }

    /** `new`: a one-permit semaphore, free, and the initial value. */
    constructor (n: nat, initial: T)
      requires 0 < n
      ensures Valid() && fresh(lock) && fresh(lock.inner) && fresh(lock.inner.buffer)
      ensures value == initial && lock.inner.locking == 0 && lock.inner.Held == 0 && lock.inner.Descs == []
    {
      lock := new Semaphore(n, 1);
      value := initial;
    }

    /** `try_lock`: the permit is taken and forgotten, giving a guard, iff it is free. */
    method TryLock() returns (r: Result<MutexGuard<T>, TryLockError>)
      requires Valid()
      modifies lock.inner
      ensures Valid()
      ensures r.Ok? <==> old(lock.inner.locking) == 0
      ensures r.Ok? ==> r.value == MutexGuard(this) && lock.inner.locking == 1 && lock.inner.Held == old(lock.inner.Held) + 1
      ensures r.Err? ==> r.error == TryLockError && lock.inner.locking == old(lock.inner.locking) && lock.inner.Held == old(lock.inner.Held)
      ensures lock.inner.Descs == old(lock.inner.Descs) && lock.inner.Requests == old(lock.inner.Requests)
      ensures lock.inner.bounds == old(lock.inner.bounds)
    {
      var p := lock.TryAcquire();
      if p.Ok? {
        r := Ok(MutexGuard(this));
      } else {
        r := Err(TryLockError);
      }
    }

    /** `lock`: a future that acquires the single permit. */
    method Lock() returns (l: Lock<T>)
      requires Valid()
      ensures fresh(l) && l.state.Some? && fresh(l.state.value.1) && l.state.value.0 == this && l.Pollable()
      ensures l.state.value.1.state == Some(Left(1))
    {
      var acquire := lock.AcquireOne();
      l := new Lock(this, acquire);
    }
  }

  /** A mutex never has more than one live guard, since its one permit is either free or handed out once. */
  lemma AtMostOneGuard<T>(m: Mutex<T>)
    requires m.Valid()
    ensures m.lock.inner.Held <= 1
    ensures m.lock.inner.Held == 1 ==> m.lock.inner.locking == 1
  {
    GrantedNonNegative(m.lock.inner.Descs, m.lock.inner.Requests);
  }

  /** Dropping a `MutexGuard` releases exactly one permit, which may go to the next waiter. */
  method DropGuard<T>(g: MutexGuard<T>)
    requires g.mutex.Valid() && 1 <= g.mutex.lock.inner.Held
    modifies g.mutex.lock.inner, g.mutex.lock.inner.buffer
    ensures g.mutex.Valid()
    ensures g.mutex.lock.inner.Held == old(g.mutex.lock.inner.Held) - 1
    ensures g.mutex.lock.inner.Descs == ServeFrom(old(g.mutex.lock.inner.Descs), 0, old(g.mutex.lock.inner.permits - g.mutex.lock.inner.locking) + 1).0
    ensures g.mutex.lock.inner.locking == old(g.mutex.lock.inner.locking) - 1 + ServeFrom(old(g.mutex.lock.inner.Descs), 0, old(g.mutex.lock.inner.permits - g.mutex.lock.inner.locking) + 1).1
  {
    g.mutex.lock.inner.Release(1);
  }

  /**
    * `MutexGuard::map`: the guard is forgotten, releasing nothing, and its
    * one release passes to the mapped guard over the part `f` selects.
    */
  method Map<T, U>(g: MutexGuard<T>, f: T -> U) returns (m: MappedMutexGuard<U>)
    ensures m.s == g.mutex.lock && m.data == f(g.mutex.value)
  {
    m := MappedMutexGuard(g.mutex.lock, f(g.mutex.value));
  }

  /** Dropping a `MappedMutexGuard` releases exactly one permit. */
  method DropMapped<U>(m: MappedMutexGuard<U>)
    requires m.s.Valid() && 1 <= m.s.inner.Held
    modifies m.s.inner, m.s.inner.buffer
    ensures m.s.Valid()
    ensures m.s.inner.Held == old(m.s.inner.Held) - 1
    ensures m.s.inner.Descs == ServeFrom(old(m.s.inner.Descs), 0, old(m.s.inner.permits - m.s.inner.locking) + 1).0
    ensures m.s.inner.locking == old(m.s.inner.locking) - 1 + ServeFrom(old(m.s.inner.Descs), 0, old(m.s.inner.permits - m.s.inner.locking) + 1).1
  {
    m.s.inner.Release(1);
  }

  /** `Lock`: the mutex and its pending `Acquire` for one permit, taken out while polled. */
  class Lock<T> {
    var state: Option<(Mutex<T>, Acquire)>

    constructor (mutex: Mutex<T>, acquire: Acquire)
      ensures state == Some((mutex, acquire))
    {
      state := Some((mutex, acquire));
    }

    /**
      * The taken-out acquire can be polled: it is fresh and asks for the one
      * permit, or it holds a lock queued for it.
      */
    ghost predicate Pollable()
      reads this, state.value.0, state.value.0.lock, state.value.0.lock.inner, state.value.0.lock.inner.buffer, state.value.1
      requires state.Some?
    {
      var a := state.value.1;
      state.value.0.Valid() && a.q == state.value.0.lock.inner && a.state.Some? &&
      (a.state.value.Left? ==> a.state.value.left == 1) &&
      (a.state.value.Right? ==>
        a.state.value.right.state.Right? && a.state.value.right.state.right.permits == 1 &&
        a.q.LockLive(a.state.value.right.state.right))
    }

    /**
      * `poll`: while the acquire is pending the pair is put back; once it is
      * ready the permit is forgotten and a guard is returned, so that the
      * guard alone releases it.
      */
    method Poll() returns (r: Poll<MutexGuard<T>>)
      requires state.Some? && Pollable()
      modifies this, state.value.1, state.value.0.lock.inner, state.value.0.lock.inner.buffer
      ensures r.Pending? ==> state == old(state) && old(state.value.0).lock.inner.Held == old(state.value.0.lock.inner.Held)
      ensures r.Pending? ==> Pollable()
      ensures r.Ready? ==>
        r.value == MutexGuard(old(state.value.0)) && state == None &&
        old(state.value.0).lock.inner.Held == old(state.value.0.lock.inner.Held) + 1
      ensures old(state.value.1.state) == Some(Left(1)) && old(state.value.0.lock.inner.locking) == 0 ==> r.Ready?
      ensures old(state.value.0).Valid()
    {
      var (mutex, acquire) := state.value;
      state := None;
      var p := acquire.Poll();
      match p {
        case Pending =>
          state := Some((mutex, acquire));
          r := Pending;
        case Ready(perm) =>
          r := Ready(MutexGuard(mutex));
      }
    }
  }

  /** While one guard is live a second `try_lock` fails; once it is dropped, `try_lock` succeeds again. */
  method MutualExclusion() returns (first: Result<MutexGuard<int>, TryLockError>,
                                    second: Result<MutexGuard<int>, TryLockError>,
                                    third: Result<MutexGuard<int>, TryLockError>)
    ensures first.Ok? && second == Err(TryLockError) && third.Ok?
  {
    var m := new Mutex(1, 0);
    first := m.TryLock();
    second := m.TryLock();
    assert ServeFrom([], 0, 1) == ([], 0);
    DropGuard(first.value);
    third := m.TryLock();
  }
}
