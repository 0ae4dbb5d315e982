/**
  * The task layer of `avr-async/src/task.rs`: three global flags, the `Task`
  * that polls its future until it completes and then forgets it, and the
  * `TaskContext` that marks the runtime as entered while it polls.
  *
  * A future is opaque here: whether one of its polls completes is an input,
  * and each poll records what it could observe of the globals, the
  * `IN_RUNTIME` flag and the `TASKNO` number.
  */
module Tasks {
  import opened Wrappers

  /** What an inner future's poll sees of the globals. */
  datatype Observed = Observed(inRuntime: bool, taskNo: nat)

  /** The statics `IN_RUNTIME`, `TASKNO` and `CONTEXT_ACQUIRED`. */
  class Globals {
    var inRuntime: bool
    var taskNo: nat
    var contextAcquired: bool
    /** One entry per poll of an inner future, in order. */
    var observed: seq<Observed>

    constructor ()
      ensures !inRuntime && taskNo == 0 && !contextAcquired && observed == []
    {
      inRuntime := false;
      taskNo := 0;
      contextAcquired := false;
      observed := [];
    }

    /** `is_in_runtime`. */
    function IsInRuntime(): (r: bool)
      reads this
      ensures r <==> inRuntime
    {
      inRuntime
    }

    /** `current`: the number of the task being polled; outside the runtime it panics. */
    function Current(): (n: nat)
      reads this
      requires IsInRuntime()
      ensures n == taskNo
    {
      taskNo
    }

    /**
      * One poll of an opaque future: it records what it sees and completes
      * iff `completes`.
      */
    method PollFuture(completes: bool) returns (r: Poll<()>)
      modifies this
      ensures r == if completes then Ready(()) else Pending
      ensures observed == old(observed) + [Observed(inRuntime, taskNo)]
      ensures inRuntime == old(inRuntime) && taskNo == old(taskNo) && contextAcquired == old(contextAcquired)
    {
      observed := observed + [Observed(inRuntime, taskNo)];
      r := if completes then Ready(()) else Pending;
    }
  }

  /** `Task`: a numbered future, `None` once it has completed. */
  class Task<F> {
    const id: nat
    var future: Option<F>

    /** `Task::new`. */
    constructor (id: nat, future: F)
      ensures this.id == id && this.future == Some(future)
    {
      this.id := id;
      this.future := Some(future);
    }

    /**
      * `poll`: outside the runtime it panics. A live future is polled with
      * `TASKNO` set to the task's number, which is reset to 0 afterwards; it is
      * kept if pending and dropped if it completed, and the result says
      * whether the task is done. A done task is not polled again.
      */
    method Poll(g: Globals, completes: bool) returns (done: bool)
      requires g.IsInRuntime()
      modifies this, g
      ensures g.inRuntime && g.contextAcquired == old(g.contextAcquired)
      ensures old(future).None? ==> done && future == None && g.taskNo == old(g.taskNo) && g.observed == old(g.observed)
      ensures old(future).Some? ==>
        done == completes && future == (if completes then None else old(future)) &&
        g.observed == old(g.observed) + [Observed(true, id)] && g.taskNo == 0
    {
      if future.Some? {
        var f := future.value;
        future := None;
        g.taskNo := id;
        var res := g.PollFuture(completes);
        if res.Pending? {
          future := Some(f);
          done := false;
        } else {
          done := true;
        }
        g.taskNo := 0;
      } else {
        done := true;
      }
    }
  }

  /** `TaskContext`: the composed future of all tasks, acquired once. */
  class TaskContext<F> {
    const inner: F

    /** `acquire`: the first call takes the context; any later call panics. */
    constructor Acquire(g: Globals, inner: F)
      requires !g.contextAcquired
      modifies g
      ensures g.contextAcquired && this.inner == inner
      ensures g.inRuntime == old(g.inRuntime) && g.taskNo == old(g.taskNo) && g.observed == old(g.observed)
    {
      this.inner := inner;
      g.contextAcquired := true;
    }

    /**
      * `poll`: entering the runtime twice panics; the inner future is polled
      * with `IN_RUNTIME` set, and the flag is cleared again afterwards.
      */
    method Poll(g: Globals, completes: bool) returns (r: Poll<()>)
      requires !g.IsInRuntime()
      modifies g
      ensures r == if completes then Ready(()) else Pending
      ensures !g.inRuntime && g.observed == old(g.observed) + [Observed(true, old(g.taskNo))]
      ensures g.taskNo == old(g.taskNo) && g.contextAcquired == old(g.contextAcquired)
    {
      g.inRuntime := true;
      r := g.PollFuture(completes);
      g.inRuntime := false;
    }
  }

  /**
    * `is_in_runtime` around one poll of the acquired context: false before
    * it, true for the future it polls, false again once it returns.
    */
  method RuntimeEntered(completes: bool) returns (before: bool, during: bool, after: bool, r: Poll<()>)
    ensures !before && during && !after
    ensures r == if completes then Ready(()) else Pending
  {
    var g := new Globals();
    var context := new TaskContext.Acquire(g, 0);
    before := g.IsInRuntime();
    r := context.Poll(g, completes);
    during := g.observed[0].inRuntime;
    after := g.IsInRuntime();
  }

  /**
    * A task inside the runtime: polled pending twice, then to completion,
    * every poll sees its number; afterwards it reports done without being
    * polled, and `TASKNO` is back to 0.
    */
  method TaskRun() returns (results: seq<bool>, seen: seq<Observed>)
    ensures results == [false, false, true, true]
    ensures seen == [Observed(true, 7), Observed(true, 7), Observed(true, 7)]
  {
    var g := new Globals();
    // as during `TaskContext::poll`, which polls the composed tasks
    g.inRuntime := true;
    var t := new Task<int>(7, 0);
    var a := t.Poll(g, false);
    var b := t.Poll(g, false);
    var c := t.Poll(g, true);
    var d := t.Poll(g, false);
    results := [a, b, c, d];
    seen := g.observed;
  }
}
