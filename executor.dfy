/**
  * The executor loop of `avr-async/src/executor.rs`, one iteration per call.
  * With interrupts masked it reads the runtime's `ready` flag; if it was set
  * it takes a snapshot and polls the task once, otherwise it idles. Once the
  * task completes the executor only shuts down. The task is opaque: whether
  * a poll completes it is an input. Interrupt masking and sleeping are the
  * recorded events.
  */
module Executors {
  import opened Runtimes

  /** What one iteration did, in order. */
  datatype Event = Snapshotted | Polled(completed: bool) | Idled | ShutDown

  /**
    * The order the loop guarantees: every poll comes right after a snapshot,
    * and after the poll that completes the task nothing but shutdowns.
    */
  ghost predicate Orderly(ev: seq<Event>)
  {
    (forall i :: 0 <= i < |ev| && ev[i].Polled? ==> 0 < i && ev[i - 1] == Snapshotted) &&
    (forall i, j :: 0 <= i < j < |ev| && ev[i] == Polled(true) ==> ev[j] == ShutDown)
  }

  class Executor<S> {
    const rt: DefaultRuntime<S>
    var done: bool
    var events: seq<Event>

    ghost predicate Valid()
      reads this
    {
      Orderly(events) && (done <==> Polled(true) in events)
    }

    /** `run`, before its first iteration. */
    constructor (rt: DefaultRuntime<S>)
      ensures Valid() && this.rt == rt && !done && events == []
    {
      this.rt := rt;
      done := false;
      events := [];
    }

    /**
      * One iteration of `run`'s loop: after completion a shutdown; else, if
      * the runtime was ready, a snapshot and then one poll, and a shutdown
      * straight after a completing poll; else an idle.
      */
    method Step(snap: S -> S, completes: bool)
      requires Valid()
      modifies this, rt
      ensures Valid()
      ensures old(done) ==> events == old(events) + [ShutDown] && rt.ready == old(rt.ready) && rt.state == old(rt.state)
      ensures !old(done) && old(rt.ready) ==>
        !rt.ready && rt.state == snap(old(rt.state)) && done == completes &&
        events == old(events) + [Snapshotted, Polled(completes)] + (if completes then [ShutDown] else [])
      ensures !old(done) && !old(rt.ready) ==> events == old(events) + [Idled] && !done && rt.ready == old(rt.ready) && rt.state == old(rt.state)
    {
      if done {
        events := events + [ShutDown];
      } else if rt.IsReady() {
        rt.Snapshot(snap);
        events := events + [Snapshotted, Polled(completes)];
        if completes {
          done := true;
          events := events + [ShutDown];
        }
      } else {
        events := events + [Idled];
      }
    }
  }
}
