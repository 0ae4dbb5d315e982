/**
  * The transactions of `avr-async/src/twi2/transaction/mod.rs`: a
  * `GetTransaction` future yields a `Transaction` over the interface, and a
  * transaction whose start succeeded sends the stop when it is dropped, so
  * that its writes and reads share one start and one stop.
  */
module TwiTransaction {
  import opened Wrappers
  import opened TwiDriver
  import Raw = TwiRaw

  /** `Transaction`: the interface and whether a start of it succeeded. */
  class Transaction {
    const twi: Twi
    var started: bool

    /** `Transaction::new`: not started. */
    constructor (twi: Twi)
      ensures this.twi == twi && !started
    {
      this.twi := twi;
      started := false;
    }
  }

  /** `GetTransaction`: the interface, taken out while polled. */
  class GetTransaction {
    var twi: Option<Twi>

    /** `GetTransaction::new`. */
    constructor (twi: Twi)
      ensures this.twi == Some(twi)
    {
      this.twi := Some(twi);
    }

    /**
      * `poll`: ready with a new transaction iff `set` is true, as written;
      * otherwise the interface is kept for the next poll.
      */
    method Poll() returns (r: Poll<Transaction>)
      requires twi.Some?
      modifies this
      ensures r.Ready? <==> old(twi.value.isSet)
      ensures r.Ready? ==> fresh(r.value) && r.value.twi == old(twi.value) && !r.value.started && twi == None
      ensures r.Pending? ==> twi == old(twi)
    {
      var t := twi.value;
      twi := None;
      if t.isSet {
        var tx := new Transaction(t);
        r := Ready(tx);
      } else {
        twi := Some(t);
        r := Pending;
      }
    }
  }

  /** Dropping a transaction sends the stop, through `stop_unbound`, iff it started. */
  method Drop(tx: Transaction)
    requires tx.twi.Valid()
    modifies tx.twi
    ensures tx.twi.Valid()
    ensures tx.twi.Snap() == if tx.started then Raw.Stop(old(tx.twi.Snap())) else old(tx.twi.Snap())
  {
    if tx.started {
      Raw.IssueStop(tx.twi);
    }
  }
}
