/**
  * `Yield` of the application crate, `src/lib.rs`: pending once, then ready,
  * and, unlike the library's, without waking anything.
  */
module AppYield {
  import opened Wrappers

  class Yield {
    var polled: bool

    /** `new` and `Default`: not yet polled. */
    constructor ()
      ensures !polled
    {
      polled := false;
    }

    /** `poll`: ready once polled before; the first poll only sets the flag and is pending. */
    method Poll() returns (r: Poll<()>)
      modifies this
      ensures polled
      ensures r == if old(polled) then Ready(()) else Pending
    {
      if polled {
        r := Ready(());
      } else {
        polled := true;
        r := Pending;
      }
    }
  }

  /** `ayield`: a fresh `Yield`. */
  method AYield() returns (y: Yield)
    ensures fresh(y) && !y.polled
  {
    y := new Yield();
  }

  /** The first poll of a fresh `Yield` is pending and the second ready. */
  method YieldOnce() returns (first: Poll<()>, second: Poll<()>)
    ensures first == Pending && second == Ready(())
  {
    var y := AYield();
    first := y.Poll();
    second := y.Poll();
  }
}
