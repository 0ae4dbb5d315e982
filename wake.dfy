/**
  * `crate::executor::wake()`, which the queue futures and `Yield` call to ask
  * the executor for another pass. The function it names is not part of this
  * model, so it is modelled by what callers can observe of it: the number of
  * times it was called.
  */
module Wake {

  class Signal {
    /** How many times `wake` was called. */
    var count: nat

    constructor ()
      ensures count == 0
    {
      count := 0;
    }

    /** One call to `executor::wake`. */
    method Wake()
      modifies this
      ensures count == old(count) + 1
    {
      count := count + 1;
    }
  }
}
