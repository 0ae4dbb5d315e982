/**
  * The application's own runtime, `src/runtime.rs`: the same `ready` flag
  * protocol as the library's default runtime, without the CPU handle and its
  * sleep modes.
  */
module AppRuntime {
  import Runtimes

  class Runtime<S> {
    var ready: bool
    var state: S

    /** `new`: not ready. */
    constructor (state: S)
      ensures !ready && this.state == state
    {
      ready := false;
      this.state := state;
    }

    /** `modify`: `f` updates the state; a `true` from it sets `ready`, which is never cleared here. */
    method Modify(f: S -> (S, bool))
      modifies this
      ensures state == f(old(state)).0
      ensures ready == (old(ready) || f(old(state)).1)
    {
      var (s, wake) := f(state);
      state := s;
      if wake {
        ready := true;
      }
    }

    /** `is_ready`. */
    function IsReady(): (r: bool)
      reads this
      ensures r <==> ready
    {
      ready
    }

    /** `snapshot`: clears `ready`, then lets the state take its snapshot. */
    method Snapshot(snap: S -> S)
      modifies this
      ensures !ready && state == snap(old(state))
    {
      ready := false;
      state := snap(state);
    }

    /** `state`. */
    function State(): (s: S)
      reads this
      ensures s == state
    {
      state
    }
  }

  /**
    * One executor pass seen through `is_ready` and `state`: right after
    * `snapshot` the runtime is not ready; after the interrupts' `modify`
    * calls it is ready exactly when one of them asked for it, and `state`
    * is what the closures made of the snapshot (the same fold as the
    * library's runtime, `Runtimes.Run`).
    */
  method ReadyAfterModifies<S>(rt: Runtime<S>, snap: S -> S, fs: seq<S -> (S, bool)>)
      returns (before: bool, after: bool, s: S)
    modifies rt
    ensures !before
    ensures after == Runtimes.Run(snap(old(rt.state)), fs).1 && s == Runtimes.Run(snap(old(rt.state)), fs).0
    ensures rt.ready == after && rt.state == s
  {
    rt.Snapshot(snap);
    before := rt.IsReady();
    ghost var s0 := rt.state;
    assert fs[0..] == fs;
    var i := 0;
    while i < |fs|
      invariant i <= |fs|
      invariant Runtimes.Run(rt.state, fs[i..]).0 == Runtimes.Run(s0, fs).0
      invariant (rt.ready || Runtimes.Run(rt.state, fs[i..]).1) == Runtimes.Run(s0, fs).1
    {
      assert fs[i..][1..] == fs[i + 1..];
      rt.Modify(fs[i]);
      i := i + 1;
    }
    after := rt.IsReady();
    s := rt.State();
  }
}
