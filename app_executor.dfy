/**
  * The application's executor, `src/executor.rs`. Its waker's data pointer
  * is the runtime's `ready` flag, and waking writes `true` there. The loop
  * runs passes of snapshot-then-poll for as long as the flag is set. The
  * task is opaque: whether a poll wakes the waker is an input, and its
  * result is ignored, as the loop ignores it.
  */
module AppExecutor {
  import opened AppRuntime

  /** A `RawWaker` over the runtime's `ready` flag. */
  datatype Waker<S> = Waker(rt: Runtime<S>)

  /** The waker `run` builds: its data pointer is `&runtime.ready`. */
  function NewWaker<S>(rt: Runtime<S>): (w: Waker<S>)
    ensures w.rt == rt
  {
    Waker(rt)
  }

  /** `wake_by_ref`: writes `true` to the flag; the state is untouched. */
  method WakeByRef<S>(w: Waker<S>)
    modifies w.rt
    ensures w.rt.ready && w.rt.state == old(w.rt.state)
  {
    w.rt.ready := true;
  }

  /** `wake`: the same as `wake_by_ref`. */
  method Wake<S>(w: Waker<S>)
    modifies w.rt
    ensures w.rt.ready && w.rt.state == old(w.rt.state)
  {
    WakeByRef(w);
  }

  /** `clone`: a waker over the same pointer. */
  function Clone<S>(w: Waker<S>): (c: Waker<S>)
    ensures c.rt == w.rt
  {
    Waker(w.rt)
  }

  /** The state after `k` snapshots. */
  function Snapshots<S>(snap: S -> S, s: S, k: nat): S
  {
    if k == 0 then s else Snapshots(snap, snap(s), k - 1)
  }

  /**
    * One pass of the inner loop: the snapshot clears `ready`, then the task
    * is polled, and the flag is set again exactly when that poll wakes the
    * waker.
    */
  method Pass<S>(rt: Runtime<S>, snap: S -> S, wakes: bool)
    requires rt.ready
    modifies rt
    ensures rt.ready == wakes && rt.state == snap(old(rt.state))
  {
    rt.Snapshot(snap);
    if wakes {
      WakeByRef(NewWaker(rt));
    }
  }

  /**
    * The `while runtime.is_ready()` loop, with the `i`-th poll waking iff
    * `wakes[i]`: it runs a pass while the flag is set, stopping at the first
    * poll that does not wake (or when the inputs run out).
    */
  method Drain<S>(rt: Runtime<S>, snap: S -> S, wakes: seq<bool>) returns (passes: nat)
    modifies rt
    ensures passes <= |wakes|
    ensures !old(rt.ready) ==> passes == 0
    ensures old(rt.ready) && 0 < |wakes| ==> 0 < passes
    ensures forall i :: 0 <= i < passes - 1 ==> wakes[i]
    ensures rt.ready == if passes == 0 then old(rt.ready) else wakes[passes - 1]
    ensures rt.ready ==> passes == |wakes|
    ensures rt.state == Snapshots(snap, old(rt.state), passes)
  {
    passes := 0;
    while rt.IsReady() && passes < |wakes|
      invariant passes <= |wakes|
      invariant forall i :: 0 <= i < passes - 1 ==> wakes[i]
      invariant rt.ready == if passes == 0 then old(rt.ready) else wakes[passes - 1]
      invariant rt.state == Snapshots(snap, old(rt.state), passes)
      invariant !old(rt.ready) ==> passes == 0
    {
      Pass(rt, snap, wakes[passes]);
      SnapshotsStep(snap, old(rt.state), passes);
      passes := passes + 1;
    }
  }

  /** One more snapshot after `k` is `k + 1` snapshots. */
  lemma {:induction false} SnapshotsStep<S>(snap: S -> S, s: S, k: nat)
    ensures Snapshots(snap, s, k + 1) == snap(Snapshots(snap, s, k))
  {
    if k > 0 {
      SnapshotsStep(snap, snap(s), k - 1);
    }
  }
}
