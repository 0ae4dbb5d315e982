# avr-async in Dafny

A model of `avr-async`, a heap-free async runtime for AVR microcontrollers,
together with the three example applications built on it. Each interrupt
handler and each critical section is modelled as one atomic method call.
Within that frame the model covers:

- **Fixed-capacity structures.** The ring-buffer queue (`queue.dfy`, with its
  index arithmetic in `ring.dfy`) keeps an array of `N` slots and optional
  `(head, tail)` bounds. The slab and its box (`slab.dfy`) are write-once
  storage. The reference-counted `Arc` (`arc.dfy`) keeps its count in a slab.
- **Synchronisation.**
  - `semaphore_imp.dfy`: the counting semaphore with its ring of waiter
    descriptors. `progress_queue` hands freed permits to waiters head first.
  - `semaphore.dfy`: the `Acquire` future.
  - `mutex.dfy`: the one-permit mutex and its guards.
  - `sync_queue.dfy`: the async queue, which raises the executor's wake
    signal on empty-to-non-empty and full-to-non-full transitions. That wake
    signal is a counter (`wake.dfy`).
- **Scheduling.**
  - `task.dfy`: the task flags `IN_RUNTIME`, `TASKNO` and
    `CONTEXT_ACQUIRED`, and a task that is polled until it completes.
  - `runtime.dfy`, `executor.dfy` and `yield.dfy`: the library's runtime
    readiness flag, one iteration of its executor loop, and the `Yield`
    future.
  - `app_runtime.dfy`, `app_executor.dfy` and `app_yield.dfy`: the same three
    for the application crate. Its waker sets the ready flag.
  - `time.dfy`: the tick counter, `elapsed` with wrap-around, and the
    delays and intervals built on it.
- **The TWI (I2C) stack.** The peripheral is an oracle. Its readiness and
  the statuses it returns are inputs. What the code sends to it is recorded
  as a log of `Op` events.
  - `twi_address.dfy`: 7-bit address validation and the address byte with
    its R/W bit.
  - `twi_buffer.dfy`: the slice cursors.
  - `twi_driver.dfy`: the interrupt-side `run` step over the shared command
    slot.
  - `twi_raw.dfy`: the raw command futures.
  - `twi_write.dfy` and `twi_read.dfy`: the Start → address → data → Stop
    futures.
  - `twi_transaction.dfy`, `twi_tx_write.dfy` and `twi_tx_read.dfy`: the
    transaction futures, which send no stop of their own.
  - `twi_session.dfy`: whole transfers, in which the executor's polls
    alternate with the interrupt handler.
- **The application tickers.** A beat counter with a half-beat flag, stepped
  by a quarter-second timer (`ticker_beat.dfy`). Snapshots publish the beat
  to listener slots, and each listener takes its slot once. There are three
  variants:
  - `example_ticker.dfy`: `examples/src/bpm120.rs`, a fixed slot array and
    the example's own runtime;
  - `subscribed_ticker.dfy`: `bpm120/src/main.rs`, slots pushed onto a
    bounded vector;
  - `app_ticker.dfy`: `src/main.rs`.

Types the source mutates in place are classes with `modifies` frames:

- the queue and its iterators;
- the semaphore;
- the slab storage and the Arc slot;
- the runtimes, the tick counter and the TWI interface;
- the futures that carry state between polls;
- the tickers.

Each method's `ensures` ties the new state to a specification function, or
states the source's promise outright. Lemmas then relate several calls:

- FIFO order and the capacity-2 scenario of the queue;
- head-first, saturating permit hand-out in the semaphore;
- one release per acquisition;
- take-once results of the raw TWI futures;
- complete write and read sessions;
- the period of the beat counter.

Integers are unbounded. `usize` is 16 bits on AVR, so a count that would
overflow it is a precondition where the source panics. Counters that the
source wraps are reduced modulo their maximum plus one. Every `poll` is a
method or function that returns `Pending` or `Ready(v)`. Every `Drop` is an
explicit method.

## Model

| member | source | states |
|---|---|---|
| Ring.IncCases | avr-async/src/queue.rs:106-109 | `inc` stays below `n` and wraps to 0 exactly after the last slot |
| Ring.SpanCases | avr-async/src/queue.rs:25-30 | the length formula of non-empty bounds lies in 1..n and equals the unwrapped slot distance plus one |
| Ring.FullIff | avr-async/src/queue.rs:38-43 | `head == inc(tail)` holds exactly when the bounds cover all `n` slots |
| Ring.SingleIff | avr-async/src/queue.rs:94-96 | the wrapped distance is 0 exactly when head and tail coincide, i.e. one element is left |
| Ring.SlotInjective | avr-async/src/queue.rs:145 | two positions of the window never share a slot |
| Ring.WrappedSpanAgrees | avr-async/src/queue.rs:28 | the source's wrapping 16-bit length `tail.wrapping_sub(head).wrapping_add(N) % N + 1` equals the unbounded span for every ring of at most 0x8000 slots |
| Ring.WrappedSpanOverflows | avr-async/src/queue.rs:28 | with 40000 slots, bounds (0, 30000) hold 30001 elements but the wrapping formula gives 4465 |
| Ring.WrappedSlotAgrees | avr-async/src/queue.rs:145 | the source's `head.wrapping_add(i) % N` is the unbounded slot for every ring of at most 0x8000 slots |
| RingQueue.Queue.constructor | avr-async/src/queue.rs:12-17 | a new queue has no bounds and holds nothing |
| RingQueue.Queue.Capacity | avr-async/src/queue.rs:20-22 | the capacity is the buffer size and bounds the length |
| RingQueue.Queue.Len | avr-async/src/queue.rs:25-30 | the length is at most the capacity and is 0 exactly when the bounds are `None` |
| RingQueue.Queue.IsEmpty | avr-async/src/queue.rs:33-35 | empty exactly when the length is 0 |
| RingQueue.Queue.IsFull | avr-async/src/queue.rs:38-43 | full exactly when the length equals the capacity |
| RingQueue.Queue.Enqueue | avr-async/src/queue.rs:46-48 | a full queue gives the value back unchanged; otherwise the value is appended to the contents, the length grows by one and only the new tail slot is written |
| RingQueue.Queue.Dequeue | avr-async/src/queue.rs:90-104 | an empty queue gives `None`; otherwise the oldest element is returned and removed, and the last element leaves the bounds `None` |
| RingQueue.Iter.constructor | avr-async/src/queue.rs:127-133 | the iterator starts at index 0 over the queue's current contents |
| RingQueue.Iter.Next | avr-async/src/queue.rs:140-149 | yields the element at the current index in FIFO order and advances, or `None` once the length is reached |
| RingQueue.Items | avr-async/src/queue.rs:183-192 | draining the iterator yields exactly the queue's contents, oldest first |
| RingQueue.IterMut.constructor | avr-async/src/queue.rs:160-164 | the mutable iterator starts at index 0 over the current contents |
| RingQueue.IterMut.Next | avr-async/src/queue.rs:171-180 | hands out the slot holding the element at the current index, or `None` past the length |
| RingQueue.IterMutSlotsDistinct | avr-async/src/queue.rs:175-178 | distinct steps of the mutable iterator give distinct slots, so the `&mut T`s never alias |
| RingQueue.Capacity2Scenario | avr-async/src/queue.rs:205-250 | the commented-out test: with capacity 2 the third enqueue is rejected with its value, and 1, 2, then nothing come out in order |
| SemaphoreImp.ServeFrom | avr-async/src/sync/semaphore/imp.rs:129-153 | serving never changes the number of descriptors, hands out at most the free permits and leaves the descriptors before the start position alone |
| SemaphoreImp.FreedPrefix | avr-async/src/sync/semaphore/imp.rs:100-122 | the departed descriptors at the head that `signal_descriptor` pops: all `None`, and the next one (if any) is live |
| SemaphoreImp.Leave | avr-async/src/sync/semaphore/imp.rs:192-200 | a leaving waiter's descriptor is cleared and only departed head descriptors are popped, so the queue is empty or starts with a live descriptor |
| SemaphoreImp.ServeShape | avr-async/src/sync/semaphore/imp.rs:136-152 | `progress_queue` keeps each descriptor live or departed as it was and never raises what a waiter is owed |
| SemaphoreImp.ServeSingle | avr-async/src/sync/semaphore/imp.rs:142-150 | one waiter owed `task` takes all it is owed when enough is free, else all that is free |
| SemaphoreImp.ServeGranted | avr-async/src/sync/semaphore/imp.rs:142-150 | every permit handed out by `progress_queue` is granted to exactly one waiter |
| SemaphoreImp.ServeAccounting | avr-async/src/sync/semaphore/imp.rs:129-153 | after `progress_queue` no waiter is owed more than it asked for, and what is handed out equals what the waiters gain |
| SemaphoreImp.ServeSaturates | avr-async/src/sync/semaphore/imp.rs:142-146 | either all free permits were handed out or no live waiter is still owed anything |
| SemaphoreImp.ServeHeadFirst | avr-async/src/sync/semaphore/imp.rs:136-152 | a waiter gains permits only once every live waiter ahead of it is owed nothing (FIFO fairness) |
| SemaphoreImp.GrantedUpdate | avr-async/src/sync/semaphore/imp.rs:144-149 | rewriting one live descriptor moves the granted total by exactly what that waiter gained or gave up |
| SemaphoreImp.GrantedNonNegative | avr-async/src/sync/semaphore/imp.rs:195 | queued waiters are never granted a negative amount, so `permits - *d` cannot underflow |
| SemaphoreImp.GrantedPush | avr-async/src/sync/semaphore/imp.rs:88 | a newly queued waiter, owed all it asked for, has been granted nothing |
| SemaphoreImp.GrantedDropFreed | avr-async/src/sync/semaphore/imp.rs:104-113 | popping departed descriptors changes nothing that was granted |
| SemaphoreImp.InnerSemaphore.Len | avr-async/src/sync/semaphore/imp.rs:37-42 | the number of queued descriptors is at most `N` and is 0 exactly when the bounds are `None` |
| SemaphoreImp.InnerSemaphore.Stored | avr-async/src/sync/semaphore/imp.rs:11-13 | the ring window from head to tail holds exactly `len` descriptors |
| SemaphoreImp.InnerSemaphore.constructor | avr-async/src/sync/semaphore/imp.rs:21-28 | a new semaphore has all its permits free and no waiter |
| SemaphoreImp.InnerSemaphore.TryAcquire | avr-async/src/sync/semaphore/imp.rs:53-65 | asking for more than the total panics (precondition); succeeds exactly when enough permits are free, then holds them; otherwise nothing changes |
| SemaphoreImp.InnerSemaphore.InnerEnqueue | avr-async/src/sync/semaphore/imp.rs:72-93 | a full ring refuses; otherwise a descriptor owed the whole request is appended at the tail and its lock returned |
| SemaphoreImp.InnerSemaphore.TryAcquireEnqueue | avr-async/src/sync/semaphore/imp.rs:44-51 | a permit when enough are free; otherwise a queued lock, or `None` when the ring is full, with nothing handed out |
| SemaphoreImp.InnerSemaphore.SignalDescriptor | avr-async/src/sync/semaphore/imp.rs:100-122 | pops exactly the departed descriptors at the head, leaving an empty queue or a live head, and hands out nothing |
| SemaphoreImp.InnerSemaphore.ProgressQueue | avr-async/src/sync/semaphore/imp.rs:129-153 | the new descriptors and handed-out count are those of `ServeFrom` on the free permits; afterwards no permit is free or no waiter is owed anything; the accounting invariant holds |
| SemaphoreImp.InnerSemaphore.ServeAt | avr-async/src/sync/semaphore/imp.rs:137-151 | one iteration of the `progress_queue` loop: it either serves the descriptor in full and goes on, or hands out all that is left and stops |
| SemaphoreImp.InnerSemaphore.Release | avr-async/src/sync/semaphore/imp.rs:124-127 | `n` held permits come back and are served to the queue head first |
| SemaphoreImp.InnerSemaphore.AddPermits | avr-async/src/sync/semaphore/imp.rs:31-34 | the total grows by `n` (an overflow past the 16-bit `usize` panics: precondition) and the new permits are served to the queue |
| SemaphoreImp.InnerSemaphore.ClearDescriptor | avr-async/src/sync/semaphore/imp.rs:194-197 | the lock's descriptor is cleared, departed head descriptors are popped, and the permits it was already granted become held |
| SemaphoreImp.InnerSemaphore.TryLock | avr-async/src/sync/semaphore/imp.rs:179-189 | a lock owed nothing becomes a permit for its whole request and leaves the queue; otherwise it is returned unchanged |
| SemaphoreImp.InnerSemaphore.DropLock | avr-async/src/sync/semaphore/imp.rs:192-200 | a dropped waiting lock leaves the queue and the permits it was granted go back and are served to the remaining waiters |
| SemaphoreImp.InnerSemaphore.DropPermit | avr-async/src/sync/semaphore/imp.rs:221-226 | dropping a permit releases exactly the permits it holds, and the waiters are served in queue order from what is then free |
| SemaphoreImp.InnerSemaphore.TryLockEnqueued | avr-async/src/sync/semaphore/imp.rs:247-255 | a held permit passes through; a queued lock is tried as `EnqueuedLock::try_lock` does |
| Semaphores.Semaphore.constructor | avr-async/src/sync/semaphore/mod.rs:18-22 | a new semaphore wraps an inner semaphore with all permits free and no waiter |
| Semaphores.Semaphore.AddPermits | avr-async/src/sync/semaphore/mod.rs:25-27 | the total grows by `n` and the new permits are served to the queued waiters head first |
| Semaphores.Semaphore.TryAcquireMany | avr-async/src/sync/semaphore/mod.rs:30-32 | succeeds exactly when `n` permits are free, holding them; otherwise nothing changes |
| Semaphores.Semaphore.TryAcquire | avr-async/src/sync/semaphore/mod.rs:35-37 | succeeds exactly when one permit is free |
| Semaphores.Semaphore.AcquireMany | avr-async/src/sync/semaphore/mod.rs:39-41 | a fresh future that has not placed its request for `n` permits |
| Semaphores.Semaphore.AcquireOne | avr-async/src/sync/semaphore/mod.rs:44-46 | a fresh future for one permit |
| Semaphores.Acquire.constructor | avr-async/src/sync/semaphore/mod.rs:67-71 | the future starts in the state `Left((q, n))` |
| Semaphores.Acquire.Poll | avr-async/src/sync/semaphore/mod.rs:73-96 | ready exactly when the permit is handed out; with enough free permits it is ready at once; a full ring keeps the request unplaced; otherwise a queued lock is kept and becomes a permit once it is owed nothing |
| Semaphores.Acquire.Drop | avr-async/src/sync/semaphore/mod.rs:61-63 | dropping the future changes nothing before the request is placed; a permit not yet handed out is released and the waiters are served from the freed permits; a queued lock leaves the queue, gives back what it was granted, and the waiters behind it are served from what is then free |
| Semaphores.SemaphoreScenario | avr-async/src/sync/semaphore/mod.rs:119-155 | the commented-out test: two permits, the polls give Ready, Ready, Pending, Ready, Ready, Pending, Pending, Ready as the test asserts |
| Mutexes.Mutex.constructor | avr-async/src/sync/mutex.rs:22-27 | a new mutex is a free one-permit semaphore holding the initial value |
| Mutexes.Mutex.TryLock | avr-async/src/sync/mutex.rs:34-41 | a guard is returned exactly when the permit was free; the permit is then taken and counted as held by the guard; otherwise `TryLockError` and nothing changes |
| Mutexes.Mutex.Lock | avr-async/src/sync/mutex.rs:30-32 | a fresh future pairing the mutex with an `Acquire` of one permit |
| Mutexes.AtMostOneGuard | avr-async/src/sync/mutex.rs:15-18 | a mutex never has more than one live guard, and a live guard means the permit is handed out |
| Mutexes.DropGuard | avr-async/src/sync/mutex.rs:77-82 | dropping a guard releases exactly one permit, served to the next waiter |
| Mutexes.Map | avr-async/src/sync/mutex.rs:85-97 | the mapped guard releases the same semaphore and gives access to the part of the value the closure selects |
| Mutexes.DropMapped | avr-async/src/sync/mutex.rs:125-130 | dropping a mapped guard releases exactly one permit |
| Mutexes.Lock.constructor | avr-async/src/sync/mutex.rs:139-144 | the future starts holding the mutex and its acquire |
| Mutexes.Lock.Poll | avr-async/src/sync/mutex.rs:146-159 | while the acquire is pending the pair is kept and nothing is held; once ready a guard is returned and counted as the holder of the forgotten permit; a free mutex is ready at the first poll |
| Mutexes.MutualExclusion | avr-async/src/sync/mutex.rs:34-41 | while one guard is live a second `try_lock` fails, and after it is dropped `try_lock` succeeds again |
| AsyncQueue.Queue.constructor | avr-async/src/sync/queue.rs:9-13 | a new async queue is empty |
| AsyncQueue.Queue.TryEnqueue | avr-async/src/sync/queue.rs:16-24 | fails with the value exactly when the queue is full, otherwise appends it; a value stored into an empty queue wakes the executor once |
| AsyncQueue.Queue.TryDequeue | avr-async/src/sync/queue.rs:27-35 | gives the oldest value exactly when the queue is non-empty and removes it; a value taken from a full queue wakes the executor once |
| AsyncQueue.Queue.Enqueue | avr-async/src/sync/queue.rs:38-40 | a fresh future holding the value to store |
| AsyncQueue.Queue.Dequeue | avr-async/src/sync/queue.rs:43-45 | a fresh future holding the queue |
| AsyncQueue.Enqueue.constructor | avr-async/src/sync/queue.rs:55-57 | the future holds the queue and `Some(val)` |
| AsyncQueue.Enqueue.Poll | avr-async/src/sync/queue.rs:63-79 | pending exactly when the queue is full, keeping the value; otherwise the value is appended and, if the queue was empty, the executor is woken twice |
| AsyncQueue.Dequeue.constructor | avr-async/src/sync/queue.rs:88-90 | the future holds `Some(q)` |
| AsyncQueue.Dequeue.Poll | avr-async/src/sync/queue.rs:96-113 | ready exactly when the queue is non-empty, with its oldest value, which is removed; pending keeps the queue; a full queue wakes the executor twice |
| AsyncQueue.Handoff | avr-async/src/sync/queue.rs:63-113 | a value enqueued into an empty queue and then dequeued comes out unchanged, both polls ready at once, with four wake-ups |
| Slabs.Storage.constructor | avr-async/src/slab.rs:107-112 | the static cell declared by `slab!` starts uninitialised, with no destructor run |
| Slabs.Slab.constructor | avr-async/src/slab.rs:18-20 | a handle on the given cell, not yet used |
| Slabs.Slab.Get | avr-async/src/slab.rs:23-27 | consumes the handle, writes the value into the cell and returns a box over the same cell, running no destructor |
| Slabs.Assign | avr-async/src/slab.rs:71-104 | a write through `deref_mut` (or `borrow_mut`, `as_mut`) is read back and leaves the value live, with no destructor run |
| Slabs.Drop | avr-async/src/slab.rs:55-60 | dropping a box runs the destructor of the live value exactly once, in place, freeing nothing |
| Slabs.Leak | avr-async/src/slab.rs:48-52 | `leak` gives the cell's address and runs no destructor |
| Slabs.BoxLifecycle | avr-async/src/slab.rs:23-60 | a box reads back what `get` and a later write stored; only its drop destroys the value, and a leaked box's value stays live |
| Slabs.BoxPointsAtCell | avr-async/src/slab.rs:23-70 | a box made by `get` over a cell reports that cell from `as_ptr` and the value `get` wrote from `deref` |
| Arcs.ArcSlab.constructor | avr-async/src/sync/arc.rs:3 | the caller-provided slab starts uninitialised |
| Arcs.New | avr-async/src/sync/arc.rs:10-13 | the slab receives count 1 and the value, and the handle points at it |
| Arcs.Clone | avr-async/src/sync/arc.rs:87-93 | a clone is a handle on the same slab and raises the count by one, leaving the value alone |
| Arcs.Drop | avr-async/src/sync/arc.rs:73-81 | a drop lowers the count by one and runs the value's destructor exactly when the count reaches zero |
| Arcs.IntoRaw | avr-async/src/sync/arc.rs:57-61 | `into_raw` gives the same address as `as_ptr` and leaves the count as it was |
| Arcs.CloneMany | avr-async/src/sync/arc.rs:87-93 | `k` clones raise the count by `k`, and every handle shares the slab |
| Arcs.DropAll | avr-async/src/sync/arc.rs:95-100 | dropping `k` handles lowers the count by `k` and destroys the value once if that brings it to zero |
| Arcs.Lifecycle | avr-async/src/sync/arc.rs:10-100 | after `k` clones the count is `k + 1`, after their drops it is 1, and the last drop destroys the value exactly once |
| Arcs.SharedView | avr-async/src/sync/arc.rs:10-110 | after `new` and one `clone`, `as_ptr` of both handles is the slab the value was placed in, `strong_count` is 2 and `deref` reads the value `new` stored |
| Tasks.Globals.constructor | avr-async/src/task.rs:7-9 | the statics start outside the runtime, at task 0, with the context not acquired |
| Tasks.Globals.Current | avr-async/src/task.rs:64-67 | the number of the task being polled; calling it outside the runtime panics (precondition) |
| Tasks.Globals.PollFuture | avr-async/src/task.rs:46-49 | an opaque future's poll completes exactly when told to, records the globals it sees and changes none of them |
| Tasks.Task.constructor | avr-async/src/task.rs:34-39 | a task holds its number and its future |
| Tasks.Task.Poll | avr-async/src/task.rs:41-60 | outside the runtime it panics (precondition); a live future is polled seeing `TASKNO` equal to the task's number, kept when pending and dropped when done, and `TASKNO` is 0 afterwards; a finished task reports done without a poll |
| Tasks.TaskContext.Acquire | avr-async/src/task.rs:86-93 | the first acquisition sets `CONTEXT_ACQUIRED`; a second one panics (precondition) |
| Tasks.TaskContext.Poll | avr-async/src/task.rs:99-117 | entering the runtime twice panics (precondition); the inner future is polled with `IN_RUNTIME` set and the flag is clear again afterwards |
| Tasks.RuntimeEntered | avr-async/src/task.rs:14-16 | `is_in_runtime` is false before the acquired context is polled, true for the future it polls and false again afterwards (`TaskContext::poll` sets the flag around the inner poll and clears it after) |
| Tasks.TaskRun | avr-async/src/task.rs:41-60 | a task polled pending twice and then to completion reports false, false, true, and true again afterwards without being polled; every poll saw its number |
| Runtimes.DefaultRuntime.constructor | avr-async/src/runtime.rs:33-39 | a new runtime is not ready and holds the given state |
| Runtimes.DefaultRuntime.Modify | avr-async/src/runtime.rs:43-47 | the closure's update is applied; `ready` is set when the closure answers true and otherwise kept as it was |
| Runtimes.DefaultRuntime.Snapshot | avr-async/src/runtime.rs:55-58 | clears `ready` and applies the state's own snapshot |
| Runtimes.ReadyIsSticky | avr-async/src/runtime.rs:43-47 | once raised, `ready` survives any sequence of `modify` calls whatever their closures answer; only `snapshot` clears it |
| Runtimes.ReadyAfterModifies | avr-async/src/runtime.rs:43-63 | right after `snapshot`, `is_ready` is false; after a sequence of `modify` calls it is true exactly when one closure asked for it, and `state` is what the closures made of the snapshot |
| Executors.Executor.constructor | avr-async/src/executor.rs:25-32 | the loop starts with the task not done and nothing recorded |
| Executors.Executor.Step | avr-async/src/executor.rs:33-50 | one loop iteration: a ready runtime is snapshotted (clearing `ready`) and the task polled once, a completed task leads only to shutdowns, and a runtime not ready idles; every poll directly follows a snapshot |
| Wake.Signal.constructor | avr-async/src/sync/queue.rs:20 | no wake-up has been requested yet |
| Wake.Signal.Wake | avr-async/src/sync/queue.rs:20 | each call of `executor::wake` is counted once |
| Yields.Yield.constructor | avr-async/src/lib.rs:76-84 | a new `Yield` has not been polled |
| Yields.Yield.Poll | avr-async/src/lib.rs:89-100 | the first poll sets the flag, wakes the executor once and is pending; every later poll is ready without waking |
| Yields.AYield | avr-async/src/lib.rs:104-106 | `ayield` gives a fresh, unpolled `Yield` |
| Yields.RYield | avr-async/src/lib.rs:109-111 | `r#yield` gives a fresh, unpolled `Yield` |
| Yields.YieldTwice | avr-async/src/lib.rs:89-100 | a fresh `Yield` is pending once with one wake-up and then ready on every later poll |
| AppRuntime.Runtime.constructor | src/runtime.rs:14-19 | a new runtime is not ready and holds the given state |
| AppRuntime.Runtime.Modify | src/runtime.rs:25-29 | the closure's update is applied; `ready` is set when it answers true and otherwise kept |
| AppRuntime.Runtime.Snapshot | src/runtime.rs:37-40 | clears `ready` and applies the state's own snapshot |
| AppRuntime.ReadyAfterModifies | src/runtime.rs:25-45 | right after `snapshot`, `is_ready` is false; after a sequence of `modify` calls it is true exactly when one closure asked for it, and `state` is what the closures made of the snapshot |
| AppExecutor.NewWaker | src/executor.rs:30-35 | the waker's data pointer is the runtime's `ready` flag |
| AppExecutor.WakeByRef | src/executor.rs:20-22 | waking by reference sets the runtime's `ready` flag and leaves its state alone |
| AppExecutor.Wake | src/executor.rs:16-18 | `wake` does what `wake_by_ref` does |
| AppExecutor.Clone | src/executor.rs:12-14 | a cloned waker points at the same flag |
| AppExecutor.Pass | src/executor.rs:41-47 | one pass: the snapshot clears `ready`, and the flag is set again exactly when the polled task wakes the waker |
| AppExecutor.Drain | src/executor.rs:40-48 | the inner loop runs no pass when the runtime is not ready, otherwise passes until the first poll that does not wake; the state has taken one snapshot per pass |
| AppYield.Yield.constructor | src/lib.rs:11-19 | a new `Yield` has not been polled |
| AppYield.Yield.Poll | src/lib.rs:21-35 | the first poll sets the flag and is pending, without waking anything; every later poll is ready |
| AppYield.AYield | src/lib.rs:37-40 | `ayield` gives a fresh, unpolled `Yield` |
| AppYield.YieldOnce | src/lib.rs:21-35 | the first poll of a fresh `Yield` is pending and the second ready |
| Time.CheckedAdd | src/time.rs:72 | `checked_add` on the counter type gives the sum exactly when it does not pass the type's maximum |
| Time.Elapsed | src/time.rs:70-76 | `elapsed` never returns `None`; it equals the true tick count `ElapsedTicks` while the counter has not wrapped and is one tick short across a wrap |
| Time.Advance | src/time.rs:37-39 | the counter `k` ticks on stays within the counter type |
| Time.ElapsedTicks | src/time.rs:70-76 | the corrected tick count stays within the counter type |
| Time.ElapsedTicksAdvance | src/time.rs:70-76 | the corrected count inverts `Advance`: `k` ticks after `start` it reads exactly `k` |
| Time.ElapsedShortAtWrap | src/time.rs:70-76 | a `u8` counter that wrapped from 255 to 0 has ticked once, yet `elapsed` reports 0 |
| Time.TickCounter.constructor | src/time.rs:17-31 | both counts start at 0 |
| Time.TickCounter.Inc | src/time.rs:37-39 | one tick moves the live counter on by one, wrapping from the maximum to 0, and leaves the snapshot alone |
| Time.TickCounter.Snapshot | src/time.rs:62-67 | the snapshot takes the value of the live counter |
| Time.GetLagsUntilSnapshot | src/time.rs:37-67 | after a tick `get_real` has moved on by one (wrapping) while `get` still reads the old snapshot; after the next `snapshot` `get` reads the live count |
| Time.TickCounter.Delay | src/time.rs:52-54 | a fresh delay starting at the current snapshot |
| Time.TickCounter.Interval | src/time.rs:57-59 | a fresh interval over this counter |
| Time.Ticks | src/time.rs:37-39 | `k` ticks move the live counter `k` steps on, wrapping, with the snapshot untouched |
| Time.TickDelay.constructor | src/time.rs:87-94 | the delay starts at the counter's snapshot |
| Time.TickDelay.Poll | src/time.rs:100-112 | ready exactly when at least `delay` ticks have passed since the start while the counter has not wrapped, and only once more than `delay` have passed across a wrap |
| Time.TickInterval.constructor | src/time.rs:123-129 | holds the counter and the interval length |
| Time.TickInterval.Next | src/time.rs:132-134 | a fresh delay of `interval` ticks from the current snapshot |
| Time.WrapLate | src/time.rs:100-112 | a one-tick delay made at snapshot 255 of a `u8` counter is still pending after one tick (the counter reads 0) and ready after a second |
| TwiAddress.Address.AsWriteByte | avr-async/src/twi/address.rs:36-38 | the write byte has R/W bit 0 and shifts back to a valid address |
| TwiAddress.Address.AsReadByte | avr-async/src/twi/address.rs:41-43 | the read byte has R/W bit 1, shifts back to a valid address and is the write byte with bit 0 set |
| TwiAddress.New | avr-async/src/twi/address.rs:18-24 | accepts exactly the values up to `0x7F`, keeping the value, and otherwise gives `InvalidAddress` |
| TwiAddress.ConstNew | avr-async/src/twi/address.rs:27-33 | panics above `0x7F` (precondition); otherwise agrees with `new` |
| TwiAddress.TryFrom | avr-async/src/twi/address.rs:50-52 | `try_from` is `new` |
| TwiAddress.Into | avr-async/src/twi/address.rs:58-60 | the raw byte of a valid address converts back to the same address |
| TwiAddress.AddressRoundTrip | avr-async/src/twi/address.rs:36-43 | both bytes of a valid address shift back to it and differ from each other |
| TwiAddress.BytesInjective | avr-async/src/twi/address.rs:36-43 | distinct valid addresses give distinct bytes in either direction |
| TwiBuffer.SliceOutputBuffer.constructor | avr-async/src/twi/buffer.rs:19-21 | a new output buffer stands at the slice's first byte |
| TwiBuffer.SliceOutputBuffer.Next | avr-async/src/twi/buffer.rs:31-33 | gives the next byte of the slice and advances, or `None` once the slice is used up |
| TwiBuffer.DrainOutput | avr-async/src/twi/buffer.rs:31-33 | calling `next` until `None` yields the rest of the slice, in order |
| TwiBuffer.SliceInputBuffer.constructor | avr-async/src/twi/buffer.rs:57-61 | a new input buffer stands at the slice's first slot |
| TwiBuffer.SliceInputBuffer.Push | avr-async/src/twi/buffer.rs:71-75 | stores the byte in the next free slot and advances; once every slot is filled the byte is dropped |
| TwiBuffer.SliceInputBuffer.IsLast | avr-async/src/twi/buffer.rs:78-80 | true exactly when one slot is left |
| TwiBuffer.Fill | avr-async/src/twi/buffer.rs:71-75 | pushing bytes fills the free slots in order, drops what does not fit and keeps the slots already filled |
| TwiDriver.Twi.constructor | avr-async/src/twi2/mod.rs:25-31 | a new interface has no command and is not set |
| TwiDriver.Twi.Run | avr-async/src/twi2/mod.rs:63-134 | nothing happens unless the peripheral is ready and a command is set; otherwise the state becomes `RunStep` of the old one, a received byte is stored into the read slot, and completing (which clears `set`) returns true and wakes the executor exactly once |
| TwiDriver.RunStep | avr-async/src/twi2/mod.rs:65-128 | the command keeps its kind and stays well formed, and a command that is no longer set carries its result (or is a stop) |
| TwiDriver.WaitPoll | avr-async/src/twi2/mod.rs:221-230 | `Wait::poll` is ready exactly when `set` is true, as written |
| TwiRaw.Start | avr-async/src/twi2/raw.rs:69-78 | a new start future leaves a start command with no result, sets `set` and sends a start condition |
| TwiRaw.SlaRw | avr-async/src/twi2/raw.rs:105-116 | a new SLA future leaves an SLA command with no result, sets `set` and sends the address with its direction |
| TwiRaw.Write | avr-async/src/twi2/raw.rs:144-166 | an empty buffer issues nothing; otherwise a write command at byte 0 is set and the first byte sent |
| TwiRaw.Read | avr-async/src/twi2/raw.rs:198-220 | an empty buffer issues nothing; otherwise a read command at slot 0 is set and the first read is requested, marked last exactly when the buffer has one byte |
| TwiRaw.Stop | avr-async/src/twi2/raw.rs:57-61 | `stop_unbound` (and `Stop::new`, 251-260) leaves a stop command not yet done, sets `set` and sends a stop condition |
| TwiRaw.Take | avr-async/src/twi2/raw.rs:88-93 | `res.take()`: pending while there is no result, otherwise ready with it, and the result is cleared either way |
| TwiRaw.PollStart | avr-async/src/twi2/raw.rs:84-97 | a wrong command in the slot panics (precondition); ready exactly when a result is stored, with that result, which is taken out |
| TwiRaw.PollSlaRw | avr-async/src/twi2/raw.rs:122-135 | ready exactly when a result is stored, with that result, which is taken out |
| TwiRaw.PollWrite | avr-async/src/twi2/raw.rs:172-189 | an empty write is ready with `Ok` at once; otherwise ready exactly when a result is stored, with it, taking it out |
| TwiRaw.PollRead | avr-async/src/twi2/raw.rs:226-243 | an empty read is ready with `Ok` at once; otherwise ready exactly when a result is stored, with it, taking it out |
| TwiRaw.PollStop | avr-async/src/twi2/raw.rs:266-279 | ready exactly when the stop went out, taking that mark |
| TwiRaw.TakeOnce | avr-async/src/twi2/raw.rs:88-93 | a result is handed out once: the poll after a ready poll is pending, and a fresh start is pending |
| TwiRaw.StartCompletes | avr-async/src/twi2/mod.rs:66-69 | a start is pending until `run` completes it, and then its poll hands out exactly the peripheral's status |
| TwiRaw.IssueStart | avr-async/src/twi2/raw.rs:32-34 | the interface performs the `Start::new` transition |
| TwiRaw.IssueSlaRw | avr-async/src/twi2/raw.rs:37-39 | the interface performs the `SlaRw::new` transition |
| TwiRaw.IssueWrite | avr-async/src/twi2/raw.rs:42-44 | the interface performs the `Write::new` transition |
| TwiRaw.IssueRead | avr-async/src/twi2/raw.rs:47-49 | the interface performs the `Read::new` transition |
| TwiRaw.IssueStop | avr-async/src/twi2/raw.rs:52-61 | the interface performs the `Stop::new` / `stop_unbound` transition |
| TwiRaw.TakeStart | avr-async/src/twi2/raw.rs:84-97 | the interface performs `Start::poll` |
| TwiRaw.TakeSlaRw | avr-async/src/twi2/raw.rs:122-135 | the interface performs `SlaRw::poll` |
| TwiRaw.TakeWrite | avr-async/src/twi2/raw.rs:172-189 | the interface performs `Write::poll` |
| TwiRaw.TakeRead | avr-async/src/twi2/raw.rs:226-243 | the interface performs `Read::poll` |
| TwiRaw.TakeStop | avr-async/src/twi2/raw.rs:266-279 | the interface performs `Stop::poll` |
| TwiWrite.New | avr-async/src/twi2/write.rs:19-39 | with a command in flight the future waits; otherwise it issues the start at once |
| TwiWrite.Step | avr-async/src/twi2/write.rs:55-116 | one turn of the loop: it goes on only when the current sub-future is ready, then to a strictly lower state; a pending sub-future breaks with `Pending` and changes nothing |
| TwiWrite.Drive | avr-async/src/twi2/write.rs:51-118 | a whole poll is pending exactly when it keeps a state for the next poll, and that state fits the command in the slot |
| TwiWrite.DriveDescends | avr-async/src/twi2/write.rs:54-117 | a pending poll never moves the future back, and strictly forward when its sub-future was ready |
| TwiWrite.PendingLeavesStateUnchanged | avr-async/src/twi2/write.rs:57-60 | a poll changes neither the future nor the interface exactly when the current sub-future is pending |
| TwiWrite.WaitThenStart | avr-async/src/twi2/write.rs:56-64 | `Wait` issues the start when `set` reads true (as written) and otherwise stays waiting |
| TwiWrite.StartErrorSendsNoStop | avr-async/src/twi2/write.rs:71-77 | a failed start ends the write with its error and sends no stop |
| TwiWrite.StartOkAddressesForWrite | avr-async/src/twi2/write.rs:72-75 | a successful start addresses the slave with the write direction |
| TwiWrite.SlaErrorSendsStop | avr-async/src/twi2/write.rs:90-96 | a failed address sends the stop and keeps the error to return |
| TwiWrite.SlaOkWrites | avr-async/src/twi2/write.rs:86-88 | a successful address sends the first data byte, or for an empty buffer goes straight to the stop |
| TwiWrite.WriteDoneSendsStop | avr-async/src/twi2/write.rs:104-107 | a finished data write sends the stop and keeps the write's result |
| TwiWrite.StopReturns | avr-async/src/twi2/write.rs:109-115 | once the stop is out the write returns the result it kept |
| TwiWrite.Write.constructor | avr-async/src/twi2/write.rs:19-39 | the future performs `New` on the interface |
| TwiWrite.Write.Poll | avr-async/src/twi2/write.rs:51-118 | a poll does exactly what `Drive` says: result, kept state and interface |
| TwiWrite.TakeTurn | avr-async/src/twi2/write.rs:55-116 | one turn of the loop on the interface does exactly what `Step` says |
| TwiRead.New | avr-async/src/twi2/read.rs:19-39 | with a command in flight the future waits; otherwise it issues the start at once |
| TwiRead.Step | avr-async/src/twi2/read.rs:55-113 | one turn of the loop: it goes on only when the current sub-future is ready, then to a strictly lower state; a pending sub-future breaks with `Pending` and changes nothing |
| TwiRead.Drive | avr-async/src/twi2/read.rs:51-115 | a whole poll is pending exactly when it keeps a state for the next poll, and that state fits the command in the slot |
| TwiRead.DriveDescends | avr-async/src/twi2/read.rs:54-114 | a pending poll never moves the future back, and strictly forward when its sub-future was ready |
| TwiRead.PendingLeavesStateUnchanged | avr-async/src/twi2/read.rs:57-60 | a poll changes neither the future nor the interface exactly when the current sub-future is pending |
| TwiRead.WaitThenStart | avr-async/src/twi2/read.rs:56-64 | `Wait` issues the start when `set` reads true (as written) and otherwise stays waiting |
| TwiRead.StartErrorSendsNoStop | avr-async/src/twi2/read.rs:71-77 | a failed start ends the read with its error and sends no stop |
| TwiRead.StartOkAddressesForWrite | avr-async/src/twi2/read.rs:72-75 | a successful start addresses the slave, with the write direction as written |
| TwiRead.SlaErrorSendsStop | avr-async/src/twi2/read.rs:90-93 | a failed address sends the stop and keeps the error to return |
| TwiRead.SlaOkReads | avr-async/src/twi2/read.rs:86-88 | a successful address requests the first byte, or for an empty buffer goes straight to the stop |
| TwiRead.ReadDoneSendsStop | avr-async/src/twi2/read.rs:101-104 | a finished read sends the stop and keeps the read's result |
| TwiRead.StopReturns | avr-async/src/twi2/read.rs:106-112 | once the stop is out the read returns the result it kept |
| TwiRead.Read.constructor | avr-async/src/twi2/read.rs:19-39 | the future performs `New` on the interface |
| TwiRead.Read.Poll | avr-async/src/twi2/read.rs:51-115 | a poll does exactly what `Drive` says: result, kept state and interface |
| TwiRead.TakeTurn | avr-async/src/twi2/read.rs:55-113 | one turn of the loop on the interface does exactly what `Step` says |
| TwiTxWrite.Step | avr-async/src/twi2/transaction/write.rs:47-83 | one turn of the loop: it goes on only when the sub-future is ready, to a strictly lower state, and never sends a stop |
| TwiTxWrite.Drive | avr-async/src/twi2/transaction/write.rs:43-85 | a whole poll is pending exactly when it keeps a state for the next poll, and that state fits the interface |
| TwiTxWrite.DriveKeepsFit | avr-async/src/twi2/transaction/write.rs:43-85 | a poll is pending exactly when it keeps a state, which fits the interface and is no higher than before (lower when the sub-future was ready) |
| TwiTxWrite.NeverStops | avr-async/src/twi2/transaction/write.rs:43-85 | a transactional data write only adds to the peripheral log and never sends a stop; the stop is left to the transaction's drop |
| TwiTxWrite.PendingLeavesStateUnchanged | avr-async/src/twi2/transaction/write.rs:49-52 | a poll changes neither the state, the interface nor the flag exactly when the sub-future is pending |
| TwiTxWrite.StartOkMarksStarted | avr-async/src/twi2/transaction/write.rs:53-59 | a successful start marks the transaction started and addresses the slave for writing |
| TwiTxWrite.StartErrorReturns | avr-async/src/twi2/transaction/write.rs:60 | a failed start returns its error and leaves the flag as it was |
| TwiTxWrite.SlaErrorReturns | avr-async/src/twi2/transaction/write.rs:73 | a failed address returns its error at once, with no stop |
| TwiTxWrite.SlaOkWrites | avr-async/src/twi2/transaction/write.rs:68-72 | a successful address starts the data write; an empty buffer is ready with `Ok` at once |
| TwiTxWrite.WriteResultReturned | avr-async/src/twi2/transaction/write.rs:76-82 | the data write's result is the future's result |
| TwiTxWrite.Write.constructor | avr-async/src/twi2/transaction/write.rs:17-31 | creating the future issues the start at once |
| TwiTxWrite.Write.Poll | avr-async/src/twi2/transaction/write.rs:43-85 | a poll does exactly what `Drive` says, including the transaction's `started` flag |
| TwiTxWrite.TakeTurn | avr-async/src/twi2/transaction/write.rs:47-83 | one turn of the loop on the interface does exactly what `Step` says |
| TwiTxRead.Step | avr-async/src/twi2/transaction/read.rs:47-83 | one turn of the loop: it goes on only when the sub-future is ready, to a strictly lower state, and never sends a stop |
| TwiTxRead.Drive | avr-async/src/twi2/transaction/read.rs:43-85 | a whole poll is pending exactly when it keeps a state for the next poll, and that state fits the interface |
| TwiTxRead.DriveKeepsFit | avr-async/src/twi2/transaction/read.rs:43-85 | a poll is pending exactly when it keeps a state, which fits the interface and is no higher than before (lower when the sub-future was ready) |
| TwiTxRead.NeverStops | avr-async/src/twi2/transaction/read.rs:43-85 | a transactional read only adds to the peripheral log and never sends a stop; the stop is left to the transaction's drop |
| TwiTxRead.PendingLeavesStateUnchanged | avr-async/src/twi2/transaction/read.rs:49-52 | a poll changes neither the state, the interface nor the flag exactly when the sub-future is pending |
| TwiTxRead.StartOkMarksStarted | avr-async/src/twi2/transaction/read.rs:53-59 | a successful start marks the transaction started and addresses the slave for reading |
| TwiTxRead.StartErrorReturns | avr-async/src/twi2/transaction/read.rs:60 | a failed start returns its error and leaves the flag as it was |
| TwiTxRead.SlaErrorReturns | avr-async/src/twi2/transaction/read.rs:73 | a failed address returns its error at once, with no stop |
| TwiTxRead.SlaOkReads | avr-async/src/twi2/transaction/read.rs:68-72 | a successful address starts the read; an empty buffer is ready with `Ok` at once |
| TwiTxRead.ReadResultReturned | avr-async/src/twi2/transaction/read.rs:76-82 | the read's result is the future's result |
| TwiTxRead.Read.constructor | avr-async/src/twi2/transaction/read.rs:17-31 | creating the future issues the start at once |
| TwiTxRead.Read.Poll | avr-async/src/twi2/transaction/read.rs:43-85 | a poll does exactly what `Drive` says, including the transaction's `started` flag |
| TwiTxRead.TakeTurn | avr-async/src/twi2/transaction/read.rs:47-83 | one turn of the loop on the interface does exactly what `Step` says |
| TwiTransaction.Transaction.constructor | avr-async/src/twi2/transaction/mod.rs:47-52 | a new transaction has not started |
| TwiTransaction.GetTransaction.constructor | avr-async/src/twi2/transaction/mod.rs:14-16 | the future holds the interface |
| TwiTransaction.GetTransaction.Poll | avr-async/src/twi2/transaction/mod.rs:24-35 | ready with a fresh, unstarted transaction exactly when `set` is true (as written); otherwise the interface is kept |
| TwiTransaction.Drop | avr-async/src/twi2/transaction/mod.rs:73-77 | a dropped transaction sends the stop, through `stop_unbound`, exactly when it started, and otherwise changes nothing |
| TwiSession.WriteRound | avr-async/src/twi2/write.rs:54-117 | after a pending poll of the write future with a command in flight, the future's next state still fits the interface and a command is still in flight for the interrupt handler |
| TwiSession.ReadRound | avr-async/src/twi2/read.rs:54-114 | the same for the read future |
| TwiSession.WriteByteAck | avr-async/src/twi2/write.rs:99-103 | while a byte is in flight, polling the write future is pending and leaves it as it was, so the session continues from the handler's run |
| TwiSession.WriteByteRound | avr-async/src/twi2/mod.rs:74-94 | an acknowledged byte either sends the next byte of the buffer, or, after the last one, records `Ok`, clears the command and disables the peripheral |
| TwiSession.WriteStopPhase | avr-async/src/twi2/write.rs:104-114 | once the write command holds its result, the stop is sent and acknowledged and the kept result is returned |
| TwiSession.WriteBytesPhase | avr-async/src/twi2/mod.rs:74-94 | from byte `idx` on, with every status acknowledged, the remaining bytes go out in order, then the stop, and the write returns `Ok` |
| TwiSession.WriteStartRound | avr-async/src/twi2/mod.rs:66-69 | the start condition is completed by the handler with the first status, and the peripheral disabled |
| TwiSession.WriteAddressRound | avr-async/src/twi2/write.rs:71-75 | after a completed start the slave address goes out with the write direction and is completed with the next status |
| TwiSession.WriteFirstByteRound | avr-async/src/twi2/write.rs:85-88 | an acknowledged address makes the future send the first byte of the buffer |
| TwiSession.WriteHeader | avr-async/src/twi2/write.rs:66-88 | with start and address acknowledged, the first byte is in flight and the log holds start, address and that byte |
| TwiSession.WriteCompletes | avr-async/src/twi2/write.rs:19-118 | a write of a non-empty buffer on an idle interface with every step acknowledged sends start, address with the write direction, every byte in order and the stop, and returns `Ok` |
| TwiSession.WriteStartFails | avr-async/src/twi2/write.rs:71-77 | a failed start makes the write return that error, with no address and no stop sent |
| TwiSession.WriteAddressRejected | avr-async/src/twi2/write.rs:85-96 | a slave that does not acknowledge its address still gets a stop before the write returns the error |
| TwiSession.ReadByteAck | avr-async/src/twi2/read.rs:96-100 | while a byte is being read, polling the read future is pending and leaves it as it was |
| TwiSession.ReadByteRound | avr-async/src/twi2/mod.rs:95-112 | an acknowledged byte either asks for the next one, marking it last exactly when it is the final byte, or completes the read after the last |
| TwiSession.ReadStopPhase | avr-async/src/twi2/read.rs:101-111 | once the read command holds its result, the stop is sent and acknowledged and the kept result is returned |
| TwiSession.ReadBytesPhase | avr-async/src/twi2/mod.rs:95-112 | from byte `idx` on, with every status acknowledged, the read asks for each remaining byte, only the final one marked last, then sends the stop and returns `Ok` |
| TwiSession.ReadStartRound | avr-async/src/twi2/mod.rs:66-69 | the start of a read is completed by the handler with the first status |
| TwiSession.ReadAddressRound | avr-async/src/twi2/read.rs:71-75 | after a completed start the address goes out, with the write direction the code passes, and is completed with the next status |
| TwiSession.ReadFirstByteRound | avr-async/src/twi2/read.rs:85-88 | an acknowledged address makes the future ask for the first byte, marked last exactly when the buffer has one byte |
| TwiSession.ReadHeader | avr-async/src/twi2/read.rs:66-88 | with start and address acknowledged, the first byte is being read and the log holds start, address and the first read request |
| TwiSession.ReadCompletes | avr-async/src/twi2/read.rs:51-115 | a read into a non-empty buffer on an idle interface with every step acknowledged sends start, address, one read request per byte with only the final one marked last, the stop, and returns `Ok` |
| TwiSession.Receive | avr-async/src/twi2/mod.rs:95-112 | the bytes the peripheral delivers land in the buffer in order, each but the last followed by a request for the next, and the read completes after the last byte with the peripheral disabled |
| TickerBeat.Tick | examples/src/bpm120.rs:163-172 | each tick toggles the half-beat flag; the second tick of a beat marks the beat as changed, and the beat number stays below 4 |
| TickerBeat.Snapped | examples/src/bpm120.rs:153-160 | a snapshot consumes the change mark and keeps the half flag and the beat number |
| TickerBeat.Take | examples/src/bpm120.rs:191-200 | polling a listener is ready exactly when its slot holds a value, returns that value, and always leaves the slot empty |
| TickerBeat.TakeOnce | examples/src/bpm120.rs:191-200 | a slot hands out its value once: the next poll is pending |
| TickerBeat.BeatAdvancesEveryOtherTick | examples/src/bpm120.rs:163-172 | from the start of a beat, every two ticks advance the beat number by one modulo 4, and the change mark is set once a beat has passed |
| TickerBeat.BeatPeriod | examples/src/bpm120.rs:163-172 | the beat number comes back to its value every eight ticks |
| TickerBeat.WakesOnSecondTick | examples/src/bpm120.rs:163-172 | only the second tick of a beat reports a change, and a snapshot after the first publishes nothing |
| TickerBeat.PublishedOnce | examples/src/bpm120.rs:153-160 | a changed beat is published by one snapshot only; the next snapshot without a tick empties the slots |
| ExampleTicker.Ticker.constructor | examples/src/bpm120.rs:130-151 | a new ticker has the initial counters and `n` empty slots |
| ExampleTicker.Ticker.Snapshot | examples/src/bpm120.rs:153-160 | every slot gets the changed beat, or is emptied when the beat did not change; the change mark is consumed |
| ExampleTicker.Ticker.Tick | examples/src/bpm120.rs:163-172 | the counters advance by one tick, and the result is the change mark after it |
| ExampleTicker.New | examples/src/bpm120.rs:130-151 | as written, all `n` listeners are bound to slot 0 of the new ticker's empty slots |
| ExampleTicker.NewBound | examples/src/bpm120.rs:133-140 | the intended binding: listener `i` on slot `i` of the new ticker |
| ExampleTicker.PollNext | examples/src/bpm120.rs:191-200 | polling takes the listener's slot and changes no other slot |
| ExampleTicker.DistinctSlotsAllReady | examples/src/bpm120.rs:153-160 | listeners on distinct slots that a snapshot filled with `v` each receive `v` |
| ExampleTicker.EmptySharedSlotPending | examples/src/bpm120.rs:133-140 | listeners sharing an empty slot 0 all stay pending |
| ExampleTicker.SharedSlotStarves | examples/src/bpm120.rs:133-140 | as written, after a snapshot publishes `v`, the first listener polled receives it and every other listener stays pending |
| ExampleTicker.Runtime.constructor | examples/src/bpm120.rs:221-268 | the new runtime owns the ticker and is not ready |
| ExampleTicker.Runtime.Snapshot | examples/src/bpm120.rs:270-274 | a snapshot clears the flag and then publishes the ticker's beat to every slot |
| ExampleTicker.Runtime.Wake | examples/src/bpm120.rs:282-285 | waking sets the ready flag |
| ExampleTicker.Runtime.Timer1Compa | examples/src/bpm120.rs:293-299 | the timer interrupt ticks the ticker and, when the beat changed, wakes the executor once and sets the ready flag |
| ExampleTicker.BeatReachesListener | examples/src/bpm120.rs:203-299 | from the start of a beat, `is_ready` stays false after the first timer interrupt and is true after the second, which wakes the executor once; the snapshot then hands the next beat number to a listener once, and its next poll is pending |
| SubscribedTicker.Ticker.constructor | bpm120/src/main.rs:30-37 | a new ticker has the initial counters and no slot |
| SubscribedTicker.Ticker.Subscribe | bpm120/src/main.rs:39-48 | while fewer than `N` listeners exist, subscribing pushes an empty slot and returns a listener on it; after that it returns `None` and changes nothing |
| SubscribedTicker.Ticker.Tick | bpm120/src/main.rs:51-60 | the counters advance by one tick, the slots stay, and the result is the change mark after it |
| SubscribedTicker.Ticker.Snapshot | bpm120/src/main.rs:64-71 | every subscribed slot gets the changed beat, or is emptied; the change mark is consumed |
| SubscribedTicker.PollNext | bpm120/src/main.rs:89-98 | polling takes the listener's slot and changes nothing else |
| SubscribedTicker.SubscribeAll | bpm120/src/main.rs:39-48 | on a new ticker of capacity `N`, the first `N` subscriptions return listeners on slots 0 to `N - 1` and the next returns `None` |
| SubscribedTicker.EachListenerOnce | bpm120/src/main.rs:64-98 | after a snapshot of a changed beat, two listeners on different slots each receive the beat, and a second poll of either is pending |
| AppTicker.State.constructor | src/main.rs:57-64 | a new state has the initial counters and `n` empty slots |
| AppTicker.State.Ticker | src/main.rs:68-70 | the listener of slot `index` refers to that slot of the state |
| AppTicker.State.Tick | src/main.rs:74-82 | the counters advance by one tick |
| AppTicker.State.Snapshot | src/main.rs:86-93 | every slot gets the changed beat, or is emptied; the change mark is consumed |
| AppTicker.PollNext | src/main.rs:28-37 | polling takes the listener's slot and changes no other slot |
| AppTicker.Beats | src/main.rs:143-184 | from a new state, for any number of beats, two ticks and a snapshot per beat hand the listener of slot 0 the beat number `(k + 1) % 4` at beat `k`, one value per snapshot |
| AppTicker.FourBeats | src/main.rs:143-184 | four beats hand the listener of slot 0 the values 1, 2, 3 and 0 in turn |

## Left out

- Peripheral registers (`twi/peripheral.rs`, `twi2/peripheral.rs`): the TWI hardware is an oracle. Its `is_ready` answer, statuses and received bytes are inputs. The `send_*` and `disable` calls are `Op` events in a log.
- Interrupt interleaving: each critical section and each interrupt handler is one atomic call. `cli`, `sei`, `sleep` and the sleep-mode registers are not modelled. `idle` and `shutdown` are recorded only as events.
- The no-op waker of `avr-async/src/executor.rs:11-23` (including its unimplemented `clone`): the library executor's task is polled with no context. Only the application executor's flag-setting waker is modelled.
- `Waker`, `Context` and `Pin` plumbing: each `poll` is a plain step over the future's state.
- The allocator, `boxed.rs`, `sealed.rs`, `tuple.rs`, `sync_unsafe_cell.rs`, the old `twi` module and the proc-macro crate: they are foreign calls, compile-time checks or token generation. The `slab!`, `slab1!` and `task_compose!` macros and the `__private_*` helpers are not modelled; the slab storage is a class supplied by the caller.
- `Semaphore::is_ready` and `Mutex::is_ready` call `InnerSemaphore::is_ready`, which the source does not define, so they are not modelled. The same holds for `UniqueQueue`, and for `crate::led2()` on a rejected address in `twi2/write.rs:91-93`.
- RingQueue.Queue.Len: the source computes lengths and slots with wrapping 16-bit `usize` arithmetic (`tail.wrapping_sub(head).wrapping_add(N) % N` at queue.rs:28 and 94 and imp.rs:40 and 108; `head.wrapping_add(i) % N` at queue.rs:145 and 176 and imp.rs:137), while the model uses the unbounded `Span` and `Slot`. The two agree whenever `N <= 0x8000` (`Ring.WrappedSpanAgrees`, `Ring.WrappedSlotAgrees`), which every ring of non-zero-sized slots meets on AVR, where no object may exceed `isize::MAX` = 32767 bytes. A queue of zero-sized values with more than 0x8000 slots would wrap (`Ring.WrappedSpanOverflows`: 40000 slots holding 30001 elements report 4465); the model does not capture that case, and `Queue.Valid` and `InnerSemaphore.Shape` ask only `0 < N`.
- Arcs.Clone: the source increments a 16-bit count without a check; the model requires the count to be below the `usize` maximum instead of modelling the wrap.
- SemaphoreImp.InnerSemaphore.AddPermits: the `checked_add(..).unwrap()` panic is a precondition.
- SemaphoreImp.InnerSemaphore.DropPermit: `SemaphorePermit::forget` is the absence of this call. A forgotten permit stays counted in the ghost `Held` total.
- Mutexes.Map: the closure is a pure selector from the guarded value to a part of it; mutation through the mapped guard is not modelled.
- Time.TickCounter.Inc: `inc` is modelled as wrapping from the maximum to 0, the release-build behaviour `elapsed` anticipates; the debug-build overflow panic is not modelled.
- Time.TickDelay.Poll: readiness is stated through the corrected tick count `ElapsedTicks`; its relation to the as-written `elapsed` is stated by `Time.Elapsed`.
- `Wait::poll` (`twi2/mod.rs:225-230`) and `GetTransaction::poll` (`twi2/transaction/mod.rs:28-34`) are ready when a command is in flight, which looks inverted; they are modelled as written.
- `twi2/read.rs:74` addresses the slave with the write direction; the read future and its sessions are modelled as written. A `Read` error in `run` (`twi2/mod.rs:113-116`) records the error but leaves the command in flight, also as written.
- The TWI `Error` type comes from the `avr_hal_generic` crate, which is not part of this model. Its variants are taken from the names `twi2/peripheral.rs` uses. Which status maps to which variant is left to the peripheral oracle.
- TwiSession.WriteCompletes and TwiSession.ReadCompletes assume a peripheral that is always ready and answers with the given statuses; they do not model a peripheral that is still busy when the handler runs.
- The ticker examples' listener slots hold `nat` values, not `u8`; the beat counter stays below 4, so nothing is lost.
- `src/main.rs:184` passes a closure returning `()` to `modify`, which expects `bool`; the application ticker's `Tick` returns nothing and is not tied to the runtime's flag.
- `bpm120/src/main.rs`: the `DefaultRuntime` composition, the `task_compose!` task and the timer setup are not modelled beyond the ticker and its listeners.
- Hardware setup in the example mains (`reset_irqs`, timer registers, LEDs, `bpm120/src/util.rs`, `examples/src/i2c.rs`) is board glue.

## Findings

| source | as written | input that shows it | evidently intended | confidence | as-written member | corrected member |
|---|---|---|---|---|---|---|
| src/time.rs:70-76 | after a wrap, `elapsed(start, now)` returns `(max - start) + now` | a `u8` counter with `start = 255` and `now = 0`: one tick has passed, yet `elapsed` gives 0 | `(max - start) + now + 1`, the wrapped distance | not executed | Time.ElapsedShortAtWrap | Time.ElapsedTicksAdvance |
| examples/src/bpm120.rs:133-140 | every listener is bound to slot 0 of the snapshot array | `N = 2`: after a changed beat is snapshotted, the first listener polled gets it, the second stays pending, and slot 1 keeps the beat unread | listener `i` bound to slot `i` | not executed | ExampleTicker.SharedSlotStarves | ExampleTicker.DistinctSlotsAllReady |
