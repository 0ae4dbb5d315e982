/**
  * The default runtime of `avr-async/src/runtime.rs`: the application state
  * and a `ready` flag that interrupts raise through `modify` and the executor
  * clears with `snapshot`. The state is opaque; what `modify`'s closure and the
  * state's own `snapshot` do to it are parameters.
  */
module Runtimes {

  class DefaultRuntime<S> {
    var ready: bool
    var state: S

    /** `new`: not ready. The CPU handle is not modelled. */
    constructor (state: S)
      ensures !ready && this.state == state
    {
      ready := false;
      this.state := state;
    }

    /**
      * `modify`: `f` updates the state and says whether the executor should
      * run; a `true` sets `ready`, a `false` leaves it as it was.
      */
    method Modify(f: S -> (S, bool))
      modifies this
      ensures state == f(old(state)).0
      ensures ready == (old(ready) || f(old(state)).1)
    {
      var (s, wake) := f(state);
      state := s;
      if wake {
        ready := true;
      }
    }

    /** `is_ready`. */
    function IsReady(): (r: bool)
      reads this
      ensures r <==> ready
    {
      ready
    }

    /** `snapshot`: clears `ready`, then lets the state take its snapshot. */
    method Snapshot(snap: S -> S)
      modifies this
      ensures !ready && state == snap(old(state))
    {
      ready := false;
      state := snap(state);
    }

    /** `state`. */
    function State(): (s: S)
      reads this
      ensures s == state
    {
      state
    }
  }

  /**
    * `modify` calls with the closures `fs`, in order, from state `s`: the
    * final state, and whether any of them asked the executor to run.
    */
  function Run<S>(s: S, fs: seq<S -> (S, bool)>): (S, bool)
  {
    if fs == [] then (s, false)
    else
      var (s', wake) := fs[0](s);
      var rest := Run(s', fs[1..]);
      (rest.0, wake || rest.1)
  }

  /**
    * One executor pass seen through `is_ready` and `state`: right after
    * `snapshot` the runtime is not ready; after the interrupts' `modify`
    * calls it is ready exactly when one of them asked for it, and `state`
    * is what the closures made of the snapshot.
    */
  method ReadyAfterModifies<S>(rt: DefaultRuntime<S>, snap: S -> S, fs: seq<S -> (S, bool)>)
      returns (before: bool, after: bool, s: S)
    modifies rt
    ensures !before
    ensures after == Run(snap(old(rt.state)), fs).1 && s == Run(snap(old(rt.state)), fs).0
    ensures rt.ready == after && rt.state == s
  {
    rt.Snapshot(snap);
    before := rt.IsReady();
    ghost var s0 := rt.state;
    assert fs[0..] == fs;
    var i := 0;
    while i < |fs|
      invariant i <= |fs|
      invariant Run(rt.state, fs[i..]).0 == Run(s0, fs).0
      invariant (rt.ready || Run(rt.state, fs[i..]).1) == Run(s0, fs).1
    {
      assert fs[i..][1..] == fs[i + 1..];
      rt.Modify(fs[i]);
      i := i + 1;
    }
    after := rt.IsReady();
    s := rt.State();
  }

  /** A raised flag survives any number of later `modify` calls, whatever they return. */
  method ReadyIsSticky<S>(rt: DefaultRuntime<S>, fs: seq<S -> (S, bool)>)
    requires rt.ready
    modifies rt
    ensures rt.ready
  {
    var i := 0;
    while i < |fs|
      invariant i <= |fs| && rt.ready
    {
      rt.Modify(fs[i]);
      i := i + 1;
    }
  }
}
