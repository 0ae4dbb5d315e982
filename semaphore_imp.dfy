/**
  * The counting semaphore of `avr-async/src/sync/semaphore/imp.rs`.
  *
  * `permits` is the total, `locking` the part currently handed out, and a ring
  * of `N` descriptors queues the waiters that could not be served at once. A
  * descriptor `Some(k)` says its waiter is still owed `k` permits; `None`
  * marks a waiter that has left, whose slot is reclaimed once it reaches the
  * head. `progress_queue` hands free permits to the descriptors head first.
  */
module SemaphoreImp {
  import opened Wrappers
  import opened Ring
  import opened Machine

  /** A waiter's descriptor: the permits it is still owed, `None` once it has left. */
  type Descriptor = Option<nat>

  /** `TryAcquireError`: not enough permits are free. */
  datatype TryAcquireError = TryAcquireError

  /** A `SemaphorePermit`: `permits` held, released when the handle is dropped. */
  datatype SemaphorePermit = SemaphorePermit(permits: nat)

  /** An `EnqueuedLock`: the slot of its descriptor and the permits it asked for. */
  datatype EnqueuedLock = EnqueuedLock(slot: nat, permits: nat)

  /** `TryAcquireEnqueue`: either a permit obtained at once or a queued lock. */
  datatype TryAcquireEnqueue = Acquiring(state: Either<SemaphorePermit, EnqueuedLock>)

  /**
    * What `progress_queue` does to the descriptors from position `i` on when
    * `avail` permits are free: the new descriptors and the number of permits
    * handed out. Each live descriptor in turn takes what it is owed; the
    * first one that cannot be served in full takes all that is left, and the
    * walk stops there.
    */
  function ServeFrom(d: seq<Descriptor>, i: nat, avail: nat): (r: (seq<Descriptor>, nat))
    ensures |r.0| == |d| && r.1 <= avail
    ensures forall k :: 0 <= k < i && k < |d| ==> r.0[k] == d[k]
    decreases |d| - i
  {
    if i >= |d| then (d, 0)
    else match d[i]
      case None => ServeFrom(d, i + 1, avail)
      case Some(task) =>
        if avail <= task then (d[i := Some(task - avail)], avail)
        else
          var rest := ServeFrom(d[i := Some(0)], i + 1, avail - task);
          (rest.0, task + rest.1)
  }

  /** The permits already granted to the queued waiters: what each asked for minus what it is still owed. */
  function Granted(d: seq<Descriptor>, req: seq<nat>): int
    requires |req| == |d|
    decreases |d|
  {
    if d == [] then 0
    else (if d[0].Some? then req[0] as int - d[0].value else 0) + Granted(d[1..], req[1..])
  }

  /** No waiter is owed more than it asked for. */
  ghost predicate Within(d: seq<Descriptor>, req: seq<nat>)
  {
    |req| == |d| && forall k :: 0 <= k < |d| && d[k].Some? ==> d[k].value <= req[k]
  }

  /** The number of leading `None` descriptors, which `signal_descriptor` pops. */
  function FreedPrefix(d: seq<Descriptor>): (k: nat)
    ensures k <= |d|
    ensures forall j :: 0 <= j < k ==> d[j].None?
    ensures k < |d| ==> d[k].Some?
    decreases |d|
  {
    if d == [] || d[0].Some? then 0 else 1 + FreedPrefix(d[1..])
  }

  /** The queue after the waiter at position `i` leaves: its descriptor cleared, then the departed head popped. */
  function Leave(d: seq<Descriptor>, i: nat): (r: seq<Descriptor>)
    requires i < |d|
    ensures r == [] || r[0].Some?
    ensures |r| <= |d|
    ensures r == d[i := None][|d| - |r|..]
  {
    var c := d[i := None];
    c[FreedPrefix(c)..]
  }

  /** `d'` is `d` after some waiters were granted permits: the same waiters, none owed more than before. */
  ghost predicate Served(d: seq<Descriptor>, d': seq<Descriptor>)
  {
    |d'| == |d| &&
    forall k :: 0 <= k < |d| ==> (d'[k].Some? <==> d[k].Some?) && (d[k].Some? ==> d'[k].value <= d[k].value)
  }

  /** `progress_queue` keeps every descriptor live or departed as it was and never raises what one is owed. */
  lemma {:induction false} ServeShape(d: seq<Descriptor>, i: nat, avail: nat)
    ensures Served(d, ServeFrom(d, i, avail).0)
    decreases |d| - i
  {
    if i < |d| && d[i].Some? && avail > d[i].value {
      ServeShape(d[i := Some(0)], i + 1, avail - d[i].value);
    } else if i < |d| && d[i].None? {
      ServeShape(d, i + 1, avail);
    }
  }

  /** A single waiter owed `task` takes what it is owed or all there is. */
  lemma ServeSingle(task: nat, avail: nat)
    ensures ServeFrom([Some(task)], 0, avail) ==
      if avail <= task then ([Some(task - avail)], avail) else ([Some(0)], task)
  {
    if avail > task {
      assert [Some(task)][0 := Some(0)] == [Some(0)];
      assert ServeFrom([Some(0)], 1, avail - task) == ([Some(0)], 0);
    } else {
      assert [Some(task)][0 := Some(task - avail)] == [Some(task - avail)];
    }
  }

  /** Every permit `progress_queue` hands out is granted to exactly one waiter. */
  lemma {:induction false} ServeGranted(d: seq<Descriptor>, req: seq<nat>, i: nat, avail: nat)
    requires |req| == |d|
    ensures Granted(ServeFrom(d, i, avail).0, req) == Granted(d, req) + ServeFrom(d, i, avail).1
    decreases |d| - i
  {
    if i < |d| {
      match d[i]
      case None =>
        ServeGranted(d, req, i + 1, avail);
      case Some(task) =>
        if avail <= task {
          GrantedUpdate(d, req, i, Some(task - avail));
        } else {
          GrantedUpdate(d, req, i, Some(0));
          ServeGranted(d[i := Some(0)], req, i + 1, avail - task);
        }
    }
  }

  /** `progress_queue` keeps the accounting: what it hands out is exactly what the waiters gain. */
  lemma ServeAccounting(d: seq<Descriptor>, req: seq<nat>, avail: nat)
    requires Within(d, req)
    ensures Within(ServeFrom(d, 0, avail).0, req)
    ensures Granted(ServeFrom(d, 0, avail).0, req) == Granted(d, req) + ServeFrom(d, 0, avail).1
  {
    ServeShape(d, 0, avail);
    ServeGranted(d, req, 0, avail);
  }

  /** Afterwards either every free permit was handed out or no live waiter from `i` on is owed anything. */
  lemma {:induction false} ServeSaturates(d: seq<Descriptor>, i: nat, avail: nat)
    ensures ServeFrom(d, i, avail).1 == avail ||
      forall k :: i <= k < |d| && ServeFrom(d, i, avail).0[k].Some? ==> ServeFrom(d, i, avail).0[k].value == 0
    decreases |d| - i
  {
    if i < |d| && d[i].None? {
      ServeSaturates(d, i + 1, avail);
    } else if i < |d| && avail > d[i].value {
      ServeSaturates(d[i := Some(0)], i + 1, avail - d[i].value);
    }
  }

  /** Head first: a descriptor is served only once every live descriptor before it is owed nothing. */
  lemma {:induction false} ServeHeadFirst(d: seq<Descriptor>, i: nat, avail: nat, j: nat)
    requires i <= j < |d| && ServeFrom(d, i, avail).0[j] != d[j]
    ensures forall k :: i <= k < j && ServeFrom(d, i, avail).0[k].Some? ==> ServeFrom(d, i, avail).0[k].value == 0
    decreases |d| - i
  {
    if i < j {
      if d[i].None? {
        ServeHeadFirst(d, i + 1, avail, j);
      } else if avail <= d[i].value {
        assert false;
      } else {
        ServeHeadFirst(d[i := Some(0)], i + 1, avail - d[i].value, j);
      }
    }
  }

  /** Rewriting a live descriptor moves the total by what its waiter gains or gives up. */
  lemma {:induction false} GrantedUpdate(d: seq<Descriptor>, req: seq<nat>, i: nat, x: Descriptor)
    requires |req| == |d| && i < |d| && d[i].Some?
    ensures Granted(d[i := x], req) == Granted(d, req) + d[i].value - (if x.Some? then x.value else req[i])
    decreases |d|
  {
    if i > 0 {
      assert d[i := x][1..] == d[1..][i - 1 := x];
      GrantedUpdate(d[1..], req[1..], i - 1, x);
    }
  }

  /** The queued waiters were never granted a negative amount. */
  lemma {:induction false} GrantedNonNegative(d: seq<Descriptor>, req: seq<nat>)
    requires Within(d, req)
    ensures Granted(d, req) >= 0
    decreases |d|
  {
    if d != [] {
      assert Within(d[1..], req[1..]) by {
        forall k | 0 <= k < |d[1..]| && d[1..][k].Some?
          ensures d[1..][k].value <= req[1..][k]
        {
          assert d[1..][k] == d[k + 1];
        }
      }
      GrantedNonNegative(d[1..], req[1..]);
    }
  }

  /** A new waiter, owed all it asked for, adds nothing to what was granted. */
  lemma {:induction false} GrantedPush(d: seq<Descriptor>, req: seq<nat>, p: nat)
    requires |req| == |d|
    ensures Granted(d + [Some(p)], req + [p]) == Granted(d, req)
    decreases |d|
  {
    if d == [] {
      assert Granted([Some(p)], [p]) == p - p + Granted([], []);
    } else {
      assert (d + [Some(p)])[1..] == d[1..] + [Some(p)];
      assert (req + [p])[1..] == req[1..] + [p];
      GrantedPush(d[1..], req[1..], p);
    }
  }

  /** Popping departed waiters from the head changes nothing that was granted. */
  lemma {:induction false} GrantedDropFreed(d: seq<Descriptor>, req: seq<nat>, k: nat)
    requires |req| == |d| && k <= |d|
    requires forall j :: 0 <= j < k ==> d[j].None?
    ensures Granted(d[k..], req[k..]) == Granted(d, req)
    decreases k
  {
    if k > 0 {
      assert d[1..][k - 1..] == d[k..];
      assert req[1..][k - 1..] == req[k..];
      GrantedDropFreed(d[1..], req[1..], k - 1);
    }
  }

  class InnerSemaphore {
    /** The const-generic capacity `N` of the descriptor ring. */
    const N: nat
    var permits: nat
    var locking: nat
    /** `None` when no waiter is queued, else the slots of the oldest and newest descriptor. */
    var bounds: Option<(nat, nat)>
    const buffer: array<Descriptor>
    /** The queued descriptors, oldest first. */
    ghost var Descs: seq<Descriptor>
    /** What each queued waiter asked for, oldest first (the `permits` field of its lock). */
    ghost var Requests: seq<nat>
    /** Permits owned by `SemaphorePermit`s that are alive or were forgotten. */
    ghost var Held: nat

    ghost predicate Shape()
      reads this
    {
      0 < N && buffer.Length == N &&
      (bounds.Some? ==> bounds.value.0 < N && bounds.value.1 < N) &&
      locking <= permits <= USIZE_MAX
    }

    /** `len`: the number of queued descriptors, live or departed. */
    function Len(): (r: nat)
      reads this
      requires Shape()
      ensures r <= N
      ensures r == 0 <==> bounds.None?
    {
      match bounds
      case None => 0
      case Some((head, tail)) => SpanCases(head, tail, N); Span(head, tail, N)
    }

    /** The descriptors the ring holds from head to tail. */
    ghost function Stored(): (d: seq<Descriptor>)
      reads this, buffer
      requires Shape()
      ensures |d| == Len()
    {
      match bounds
      case None => []
      case Some((head, tail)) => Window(buffer[..], head, Span(head, tail, N))
    }

    /**
      * The ring holds `Descs`, and every handed-out permit is accounted for:
      * `locking` is what the permit handles hold plus what the queued waiters
      * were granted so far.
      */
    ghost predicate Valid()
      reads this, buffer
    {
      Shape() && Descs == Stored() && Within(Descs, Requests) &&
      locking == Held + Granted(Descs, Requests)
    }

    /** The position of a lock's descriptor in the queue. */
    ghost function LockIndex(lock: EnqueuedLock): nat
      reads this
      requires Shape() && bounds.Some? && lock.slot < N
    {
      IndexOf(bounds.value.0, lock.slot, N)
    }

    /** `lock` still waits in this queue: its descriptor is live and records its request. */
    ghost predicate LockLive(lock: EnqueuedLock)
      reads this, buffer
    {
      Valid() && bounds.Some? && lock.slot < N &&
      LockIndex(lock) < |Descs| && Descs[LockIndex(lock)].Some? &&
      Requests[LockIndex(lock)] == lock.permits
    }

    /** The permits a live lock is still owed. */
    ghost function Outstanding(lock: EnqueuedLock): nat
      reads this, buffer
      requires LockLive(lock)
    {
      Descs[LockIndex(lock)].value
    }

    /** `new`: `permits` permits, none handed out, no waiter. */
    constructor (n: nat, permits: nat)
      requires 0 < n && permits <= USIZE_MAX
      ensures Valid() && fresh(buffer)
      ensures N == n && this.permits == permits && locking == 0 && bounds == None
      ensures Descs == [] && Requests == [] && Held == 0
    {
      N := n;
      this.permits := permits;
      locking := 0;
      bounds := None;
      buffer := new Descriptor[n];
      Descs := [];
      Requests := [];
      Held := 0;
    }

    /**
      * `try_acquire`: takes `perms` permits iff that many are free. Asking for
      * more than the semaphore's total panics.
      */
    method TryAcquire(perms: nat) returns (r: Result<SemaphorePermit, TryAcquireError>)
      requires Valid() && perms <= permits
      modifies this
      ensures Valid()
      ensures r.Ok? <==> old(permits - locking) >= perms
      ensures r.Ok? ==> r.value == SemaphorePermit(perms) && locking == old(locking) + perms && Held == old(Held) + perms
      ensures r.Err? ==> locking == old(locking) && Held == old(Held)
      ensures permits == old(permits) && bounds == old(bounds) && Descs == old(Descs) && Requests == old(Requests)
    {
      var avail := permits - locking;
      if avail >= perms {
        locking := locking + perms;
        Held := Held + perms;
        r := Ok(SemaphorePermit(perms));
      } else {
        r := Err(TryAcquireError);
      }
    }

    /**
      * `try_enqueue` / `inner_enqueue`: queues a descriptor owed all of
      * `perms` at the slot after the tail, or gives `None` when all `N`
      * slots are taken.
      */
    method InnerEnqueue(perms: nat) returns (r: Option<EnqueuedLock>)
      requires Valid()
      modifies this, buffer
      ensures Valid()
      ensures old(|Descs|) == N ==>
        r == None && bounds == old(bounds) && Descs == old(Descs) && Requests == old(Requests) &&
        buffer[..] == old(buffer[..])
      ensures old(|Descs|) < N ==>
        r.Some? && r.value.permits == perms && LockLive(r.value) && Outstanding(r.value) == perms &&
        Descs == old(Descs) + [Some(perms)] && Requests == old(Requests) + [perms]
      ensures permits == old(permits) && locking == old(locking) && Held == old(Held)
    {
      GrantedPush(Descs, Requests, perms);
      match bounds {
        case Some((head, tail)) =>
          var nextTail := Inc(tail, N);
          FullIff(head, tail, N);
          if head == nextTail {
            r := None;
            return;
          }
          GrowTail(head, tail, N);
          WindowPush(buffer[..], head, Span(head, tail, N), Some(perms));
          SlotIndexOf(head, Span(head, tail, N), N);
          bounds := Some((head, nextTail));
          buffer[nextTail] := Some(perms);
          Descs := Descs + [Some(perms)];
          Requests := Requests + [perms];
          r := Some(EnqueuedLock(nextTail, perms));
        case None =>
          bounds := Some((0, 0));
          buffer[0] := Some(perms);
          Descs := [Some(perms)];
          Requests := [perms];
          assert Stored() == [Some(perms)];
          r := Some(EnqueuedLock(0, perms));
      }
    }

    /**
      * `try_acquire_enqueue`: a permit when enough are free, else a queued
      * lock, else `None` when the descriptor ring is full.
      */
    method TryAcquireEnqueue(perms: nat) returns (r: Option<TryAcquireEnqueue>)
      requires Valid() && perms <= permits
      modifies this, buffer
      ensures Valid()
      ensures old(permits - locking) >= perms ==>
        r == Some(Acquiring(Left(SemaphorePermit(perms)))) &&
        locking == old(locking) + perms && Held == old(Held) + perms &&
        bounds == old(bounds) && Descs == old(Descs) && Requests == old(Requests)
      ensures old(permits - locking) < perms && old(|Descs|) == N ==>
        r == None && bounds == old(bounds) && Descs == old(Descs) && Requests == old(Requests)
      ensures old(permits - locking) < perms && old(|Descs|) < N ==>
        r.Some? && r.value.state.Right? && r.value.state.right.permits == perms &&
        LockLive(r.value.state.right) && Outstanding(r.value.state.right) == perms &&
        Descs == old(Descs) + [Some(perms)] && Requests == old(Requests) + [perms]
      ensures old(permits - locking) < perms ==> locking == old(locking) && Held == old(Held)
      ensures permits == old(permits)
    {
      var p := TryAcquire(perms);
      if p.Ok? {
        r := Some(Acquiring(Left(p.value)));
      } else {
        var lock := InnerEnqueue(perms);
        if lock.Some? {
          r := Some(Acquiring(Right(lock.value)));
        } else {
          r := None;
        }
      }
    }

    /**
      * `signal_descriptor`: pops the departed waiters at the head of the
      * queue, so that the head descriptor, if any, is live.
      */
    method SignalDescriptor()
      requires Valid()
      modifies this
      ensures Valid()
      ensures Descs == old(Descs)[FreedPrefix(old(Descs))..]
      ensures Requests == old(Requests)[FreedPrefix(old(Descs))..]
      ensures Descs == [] || Descs[0].Some?
      ensures permits == old(permits) && locking == old(locking) && Held == old(Held)
    {
      ghost var d0 := Descs;
      ghost var r0 := Requests;
      ghost var k := FreedPrefix(d0);
      ghost var popped := 0;
      GrantedDropFreed(d0, r0, k);
      while bounds.Some?
        invariant Valid()
        invariant permits == old(permits) && locking == old(locking) && Held == old(Held)
        invariant popped <= k && Descs == d0[popped..] && Requests == r0[popped..]
        decreases Len()
      {
        var head, tail := bounds.value.0, bounds.value.1;
        ModSmall(head, N);
        SpanCases(head, tail, N);
        assert buffer[head] == Descs[0];
        if buffer[head].Some? {
          break;
        }
        var newLen := (tail - head + N) % N;
        SingleIff(head, tail, N);
        if newLen == 0 {
          bounds := None;
        } else {
          ShrinkHead(head, tail, N, 0);
          WindowPop(buffer[..], head, Span(head, tail, N));
          bounds := Some((Inc(head, N), tail));
        }
        assert d0[popped..][1..] == d0[popped + 1..];
        assert r0[popped..][1..] == r0[popped + 1..];
        Descs := Descs[1..];
        Requests := Requests[1..];
        popped := popped + 1;
      }
    }

    /**
      * `progress_queue`: walks the descriptors head to tail, serving each
      * live one in full while free permits last; the first that cannot be
      * served in full takes all that is left.
      */
    method ProgressQueue()
      requires Valid()
      modifies this, buffer
      ensures Valid()
      ensures Descs == ServeFrom(old(Descs), 0, old(permits - locking)).0
      ensures locking == old(locking) + ServeFrom(old(Descs), 0, old(permits - locking)).1
      ensures locking == permits || forall k :: 0 <= k < |Descs| && Descs[k].Some? ==> Descs[k].value == 0
      ensures Served(old(Descs), Descs)
      ensures permits == old(permits) && bounds == old(bounds) && Requests == old(Requests) && Held == old(Held)
    {
      ghost var d0 := Descs;
      ghost var a0 := permits - locking;
      ghost var p0 := ServeFrom(d0, 0, a0);
      var len := Len();
      ServeShape(d0, 0, a0);
      if len == 0 {
        ServeAccounting(d0, Requests, a0);
        return;
      }
      var head := bounds.value.0;
      for i := 0 to len
        invariant Shape() && bounds == old(bounds) && len == Len() && head == bounds.value.0
        invariant permits == old(permits) && Requests == old(Requests) && Held == old(Held)
        invariant Descs == Window(buffer[..], head, len)
        invariant ServeFrom(Descs, i, permits - locking).0 == p0.0
        invariant locking - old(locking) + ServeFrom(Descs, i, permits - locking).1 == p0.1
      {
        var stop := ServeAt(head, len, i);
        if stop {
          break;
        }
      }
      assert Descs == p0.0;
      ServeAccounting(d0, Requests, a0);
      ServeSaturates(d0, 0, a0);
    }

    /**
      * One step of the `progress_queue` walk: the descriptor at position `i`
      * takes what it is owed, or all that is left, in which case the walk
      * stops.
      */
    method ServeAt(head: nat, len: nat, i: nat) returns (stop: bool)
      requires Shape() && bounds.Some? && head == bounds.value.0 && len == Len() && i < len
      requires Descs == Window(buffer[..], head, len)
      modifies this, buffer
      ensures Shape() && Descs == Window(buffer[..], head, len)
      ensures permits == old(permits) && bounds == old(bounds) && Requests == old(Requests) && Held == old(Held)
      ensures stop ==>
        Descs == ServeFrom(old(Descs), i, old(permits - locking)).0 &&
        locking - old(locking) == ServeFrom(old(Descs), i, old(permits - locking)).1
      ensures !stop ==>
        ServeFrom(Descs, i + 1, permits - locking).0 == ServeFrom(old(Descs), i, old(permits - locking)).0 &&
        locking - old(locking) + ServeFrom(Descs, i + 1, permits - locking).1 == ServeFrom(old(Descs), i, old(permits - locking)).1
    {
      var idx := (head + i) % N;
      ghost var b0 := buffer[..];
      assert |b0| == N && Slot(head, i, |b0|) == idx;
      assert buffer[idx] == Descs[i];
      stop := false;
      if buffer[idx].Some? {
        var task := buffer[idx].value;
        var remaining := permits - locking;
        if remaining <= task {
          var left: Descriptor := Some(task - remaining);
          buffer[idx] := left;
          WindowUpdate(b0, buffer[..], head, len, i, left);
          Descs := Descs[i := left];
          locking := permits;
          stop := true;
        } else {
          var served: Descriptor := Some(0);
          buffer[idx] := served;
          WindowUpdate(b0, buffer[..], head, len, i, served);
          Descs := Descs[i := served];
          locking := locking + task;
        }
      }
    }

    /** `release`: gives `n` held permits back, then progresses the queue. */
    method Release(n: nat)
      requires Valid() && n <= Held
      modifies this, buffer
      ensures Valid()
      ensures Descs == ServeFrom(old(Descs), 0, old(permits - locking) + n).0
      ensures locking == old(locking) - n + ServeFrom(old(Descs), 0, old(permits - locking) + n).1
      ensures Held == old(Held) - n
      ensures permits == old(permits) && bounds == old(bounds) && Requests == old(Requests)
      ensures Served(old(Descs), Descs)
    {
      GrantedNonNegative(Descs, Requests);
      locking := locking - n;
      Held := Held - n;
      ProgressQueue();
    }

    /**
      * `add_permits`: raises the total by `n`, then progresses the queue.
      * An overflow of `usize` panics.
      */
    method AddPermits(n: nat)
      requires Valid() && permits + n <= USIZE_MAX
      modifies this, buffer
      ensures Valid()
      ensures permits == old(permits) + n
      ensures Descs == ServeFrom(old(Descs), 0, old(permits - locking) + n).0
      ensures locking == old(locking) + ServeFrom(old(Descs), 0, old(permits - locking) + n).1
      ensures Held == old(Held) && bounds == old(bounds) && Requests == old(Requests)
      ensures Served(old(Descs), Descs)
    {
      permits := permits + n;
      ProgressQueue();
    }

    /**
      * The step `try_lock` and `drop` of an `EnqueuedLock` share: the lock's
      * descriptor is set to `None` and `signal_descriptor` pops the departed
      * head. What the waiter was granted passes to its holder; `owed` is what
      * it was still owed.
      */
    method ClearDescriptor(lock: EnqueuedLock) returns (owed: nat)
      requires LockLive(lock)
      modifies this, buffer
      ensures Valid()
      ensures owed == old(Outstanding(lock))
      ensures Descs == Leave(old(Descs), old(LockIndex(lock)))
      ensures Requests == old(Requests)[old(|Descs|) - |Descs|..]
      ensures Held == old(Held) + lock.permits - owed
      ensures permits == old(permits) && locking == old(locking)
    {
      var head := bounds.value.0;
      ghost var idx := LockIndex(lock);
      IndexOfSlot(head, lock.slot, N);
      assert buffer[lock.slot] == Descs[idx];
      owed := buffer[lock.slot].value;
      ghost var b0 := buffer[..];
      GrantedUpdate(Descs, Requests, idx, None);
      buffer[lock.slot] := None;
      WindowUpdate(b0, buffer[..], head, Len(), idx, None);
      ghost var d0, r0 := Descs, Requests;
      Descs := Descs[idx := None];
      Held := Held + lock.permits - owed;
      assert Valid();
      SignalDescriptor();
      assert Descs == Leave(d0, idx);
      assert Requests == r0[|d0| - |Descs|..];
    }

    /**
      * `EnqueuedLock::try_lock`: once the lock is owed nothing its
      * descriptor is cleared, departed waiters are popped and a permit for
      * the whole request is returned; otherwise the lock comes back as it was.
      */
    method TryLock(lock: EnqueuedLock) returns (r: Either<SemaphorePermit, EnqueuedLock>)
      requires LockLive(lock)
      modifies this, buffer
      ensures Valid()
      ensures r.Left? <==> old(Outstanding(lock)) == 0
      ensures r.Left? ==>
        r.left == SemaphorePermit(lock.permits) && Held == old(Held) + lock.permits &&
        Descs == Leave(old(Descs), old(LockIndex(lock))) &&
        Requests == old(Requests)[old(|Descs|) - |Descs|..]
      ensures r.Right? ==>
        r.right == lock && Held == old(Held) && bounds == old(bounds) &&
        Descs == old(Descs) && Requests == old(Requests) && buffer[..] == old(buffer[..])
      ensures permits == old(permits) && locking == old(locking)
    {
      IndexOfSlot(bounds.value.0, lock.slot, N);
      assert buffer[lock.slot] == Descs[LockIndex(lock)];
      if buffer[lock.slot].value == 0 {
        var _ := ClearDescriptor(lock);
        r := Left(SemaphorePermit(lock.permits));
      } else {
        r := Right(lock);
      }
    }

    /**
      * What dropping the permit `p` did: its permits are no longer held, and
      * the waiters were served in queue order from what was free plus them.
      */
    twostate predicate PermitDropped(p: SemaphorePermit)
      requires old(locking <= permits)
      reads this
    {
      var served := ServeFrom(old(Descs), 0, old(permits - locking) + p.permits);
      Held == old(Held) - p.permits && Descs == served.0 && locking == old(locking) - p.permits + served.1
    }

    /**
      * What dropping the queued `lock` did: its descriptor left the queue,
      * what it was granted came back, and the waiters left were served in
      * queue order from what was then free.
      */
    twostate predicate LockDropped(lock: EnqueuedLock)
      requires old(LockLive(lock))
      reads this
    {
      var served := ServeFrom(Leave(old(Descs), old(LockIndex(lock))), 0, old(permits - locking + lock.permits - Outstanding(lock)));
      Descs == served.0 && locking == old(locking + Outstanding(lock)) - lock.permits + served.1
    }

    /**
      * Dropping a queued `EnqueuedLock`: its descriptor is cleared, departed
      * waiters are popped, and the permits it was already granted (its
      * request minus what it is still owed) are released.
      */
    method DropLock(lock: EnqueuedLock)
      requires LockLive(lock)
      modifies this, buffer
      ensures Valid()
      ensures |Descs| <= old(|Descs|) && Requests == old(Requests)[old(|Descs|) - |Descs|..]
      ensures permits == old(permits) && Held == old(Held)
      ensures LockDropped(lock)
    {
      var owed := ClearDescriptor(lock);
      Release(lock.permits - owed);
    }

    /** Dropping a `SemaphorePermit` releases exactly the permits it holds. */
    method DropPermit(p: SemaphorePermit)
      requires Valid() && p.permits <= Held
      modifies this, buffer
      ensures Valid()
      ensures permits == old(permits) && bounds == old(bounds) && Requests == old(Requests)
      ensures Served(old(Descs), Descs)
      ensures PermitDropped(p)
    {
      Release(p.permits);
    }

    /** `TryAcquireEnqueue::try_lock`: a permit passes through; a queued lock is tried. */
    method TryLockEnqueued(t: TryAcquireEnqueue) returns (r: Either<SemaphorePermit, TryAcquireEnqueue>)
      requires Valid() && (t.state.Right? ==> LockLive(t.state.right))
      modifies this, buffer
      ensures Valid()
      ensures t.state.Left? ==>
        r == Left(t.state.left) && Held == old(Held) && bounds == old(bounds) &&
        Descs == old(Descs) && Requests == old(Requests) && buffer[..] == old(buffer[..])
      ensures t.state.Right? ==>
        (r.Left? <==> old(Outstanding(t.state.right)) == 0) &&
        (r.Left? ==>
          r.left == SemaphorePermit(t.state.right.permits) && Held == old(Held) + t.state.right.permits &&
          Descs == Leave(old(Descs), old(LockIndex(t.state.right))) &&
          Requests == old(Requests)[old(|Descs|) - |Descs|..]) &&
        (r.Right? ==>
          r.right == t && Held == old(Held) && bounds == old(bounds) &&
          Descs == old(Descs) && Requests == old(Requests) && buffer[..] == old(buffer[..]))
      ensures permits == old(permits) && locking == old(locking)
    {
      match t.state {
        case Left(p) =>
          r := Left(p);
        case Right(lock) =>
          var x := TryLock(lock);
          match x {
            case Left(p) => r := Left(p);
            case Right(l) => r := Right(Acquiring(Right(l)));
          }
      }
    }
  }
}
