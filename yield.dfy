/**
  * `Yield` of `avr-async/src/lib.rs`: a future that is pending once, asking
  * the executor for another pass, and ready from then on.
  */
module Yields {
  import opened Wrappers
  import opened Wake

  class Yield {
    var polled: bool

    /** `new` and `Default`: not yet polled. */
    constructor ()
      ensures !polled
    {
      polled := false;
    }

    /** `poll`: ready once polled before; the first poll sets the flag, wakes and is pending. */
    method Poll(w: Signal) returns (r: Poll<()>)
      modifies this, w
      ensures polled
      ensures r == if old(polled) then Ready(()) else Pending
      ensures w.count == old(w.count) + if old(polled) then 0 else 1
    {
      if polled {
        r := Ready(());
      } else {
        polled := true;
        w.Wake();
        r := Pending;
      }
    }
  }

  /** `ayield`: a fresh `Yield`. */
  method AYield() returns (y: Yield)
    ensures fresh(y) && !y.polled
  {
    y := new Yield();
  }

  /** `r#yield`: the same as `ayield`. */
  method RYield() returns (y: Yield)
    ensures fresh(y) && !y.polled
  {
    y := AYield();
  }

  /** A fresh `Yield` is pending on its first poll, with one wake-up, and ready on every later one. */
  method YieldTwice(extra: nat) returns (first: Poll<()>, rest: seq<Poll<()>>, wakes: nat)
    ensures first == Pending && wakes == 1
    ensures |rest| == extra + 1 && forall i :: 0 <= i < |rest| ==> rest[i] == Ready(())
  {
    var w := new Signal();
    var y := AYield();
    first := y.Poll(w);
    rest := [];
    while |rest| <= extra
      invariant y.polled && w.count == 1 && |rest| <= extra + 1
      invariant forall i :: 0 <= i < |rest| ==> rest[i] == Ready(())
      decreases extra + 1 - |rest|
    {
      var r := y.Poll(w);
      rest := rest + [r];
    }
    wakes := w.count;
  }
}
