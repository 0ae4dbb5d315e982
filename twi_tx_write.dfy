/**
  * The `Write` future of a transaction, `avr-async/src/twi2/transaction/write.rs`:
  * send a start, address the slave for writing and write the buffer. A
  * successful start marks the transaction started. No stop is ever sent
  * here: the first error, or the write's result, is returned at once and
  * the stop is left to the transaction's drop.
  */
module TwiTxWrite {
  import opened Wrappers
  import opened TwiDriver
  import Raw = TwiRaw
  import opened TwiTransaction

  /** The future's `State`; `Write(issued)` remembers whether the data write issued a command. */
  datatype State =
    | Start(addr: bv8, buf: seq<bv8>)
    | SlaW(buf: seq<bv8>)
    | Write(issued: bool)

  /** What a turn of the loop does, with the transaction's `started` flag after it. */
  datatype Turn =
    | Continue(next: State, bus: Bus, started: bool)
    | Break(result: Poll<Result<(), Error>>, bus: Bus, started: bool)

  /** The command in the slot is the one the state's sub-future issued. */
  predicate Fits(s: State, b: Bus)
  {
    match s
    case Start(_, _) => b.command.StartCmd?
    case SlaW(_) => b.command.SlaRwCmd?
    case Write(issued) => issued ==> b.command.WriteCmd?
  }

  function Rank(s: State): nat
  {
    match s
    case Start(_, _) => 2
    case SlaW(_) => 1
    case Write(_) => 0
  }

  /** The state's sub-future would be ready if polled now. */
  predicate SubReady(s: State, b: Bus)
    requires Fits(s, b)
  {
    match s
    case Start(_, _) => b.command.res.Some?
    case SlaW(_) => b.command.res.Some?
    case Write(issued) => !issued || b.command.res.Some?
  }

  /** One turn of the `poll` loop. */
  function Step(s: State, b: Bus, started: bool): (t: Turn)
    requires Fits(s, b)
    ensures t.Continue? ==> Fits(t.next, t.bus) && Rank(t.next) < Rank(s)
    ensures t.Continue? || t.result.Ready? <==> SubReady(s, b)
    ensures !SubReady(s, b) ==> t == Break(Pending, b, started)
    ensures b.sent <= t.bus.sent && SendStop !in t.bus.sent[|b.sent|..]
  {
    match s
    case Start(addr, buf) =>
      var (p, b1) := Raw.PollStart(b);
      if p.Pending? then Break(Pending, b1, started)
      else if p.value.Err? then Break(Ready(Err(p.value.error)), b1, started)
      else Continue(SlaW(buf), Raw.SlaRw(b1, addr, DirWrite), true)
    case SlaW(buf) =>
      var (p, b1) := Raw.PollSlaRw(b);
      if p.Pending? then Break(Pending, b1, started)
      else if p.value.Err? then Break(Ready(Err(p.value.error)), b1, started)
      else
        var (b2, issued) := Raw.Write(b1, buf);
        Continue(Write(issued), b2, started)
    case Write(issued) =>
      var (p, b1) := Raw.PollWrite(b, issued);
      Break(p, b1, started)
  }

  /**
    * A whole `poll`: turns until one breaks. The result, the state kept for
    * the next poll, the interface and the `started` flag afterwards. It is
    * pending exactly when it keeps a state, and that state fits the interface.
    */
  function Drive(s: State, b: Bus, started: bool): (r: (Poll<Result<(), Error>>, Option<State>, Bus, bool))
    requires Fits(s, b)
    ensures r.0.Pending? <==> r.1.Some?
    ensures r.1.Some? ==> Fits(r.1.value, r.2)
    decreases Rank(s)
  {
    match Step(s, b, started)
    case Continue(s', b', st') => Drive(s', b', st')
    case Break(p, b', st') => (p, if p.Pending? then Some(s) else None, b', st')
  }

  /** A pending poll keeps a state that fits the interface, at or below the one it started in. */
  lemma {:induction false} DriveKeepsFit(s: State, b: Bus, started: bool)
    requires Fits(s, b)
    ensures Drive(s, b, started).0.Pending? <==> Drive(s, b, started).1.Some?
    ensures Drive(s, b, started).1.Some? ==>
      Fits(Drive(s, b, started).1.value, Drive(s, b, started).2) && Rank(Drive(s, b, started).1.value) <= Rank(s)
    ensures SubReady(s, b) && Drive(s, b, started).1.Some? ==> Rank(Drive(s, b, started).1.value) < Rank(s)
    decreases Rank(s)
  {
    match Step(s, b, started)
    case Continue(s', b', st') => DriveKeepsFit(s', b', st');
    case Break(p, b', st') =>
  }

  /** A transactional write never sends a stop: it only adds to the interface's log, and never a stop. */
  lemma {:induction false} NeverStops(s: State, b: Bus, started: bool)
    requires Fits(s, b)
    ensures b.sent <= Drive(s, b, started).2.sent && SendStop !in Drive(s, b, started).2.sent[|b.sent|..]
    decreases Rank(s)
  {
    match Step(s, b, started)
    case Continue(s', b', st') =>
      NeverStops(s', b', st');
      var final := Drive(s', b', st').2.sent;
      assert final[|b.sent|..] == b'.sent[|b.sent|..] + final[|b'.sent|..];
    case Break(p, b', st') =>
  }

  /** A poll leaves the state, the interface and the flag as they were exactly when the sub-future is pending. */
  lemma PendingLeavesStateUnchanged(s: State, b: Bus, started: bool)
    requires Fits(s, b)
    ensures Drive(s, b, started) == (Pending, Some(s), b, started) <==> !SubReady(s, b)
  {
    DriveKeepsFit(s, b, started);
  }

  /** A successful start marks the transaction started and addresses the slave for writing. */
  lemma StartOkMarksStarted(addr: bv8, buf: seq<bv8>, b: Bus, started: bool)
    requires b.command == StartCmd(Some(Ok(())))
    ensures Drive(Start(addr, buf), b, started) ==
      (Pending, Some(SlaW(buf)), Bus(SlaRwCmd(None), true, b.sent + [SendSlaRw(addr, DirWrite)]), true)
  {
  }

  /** A failed start returns its error and leaves the flag as it was. */
  lemma StartErrorReturns(addr: bv8, buf: seq<bv8>, b: Bus, started: bool, e: Error)
    requires b.command == StartCmd(Some(Err(e)))
    ensures Drive(Start(addr, buf), b, started) == (Ready(Err(e)), None, b.(command := StartCmd(None)), started)
  {
  }

  /** A failed address returns its error at once. */
  lemma SlaErrorReturns(buf: seq<bv8>, b: Bus, started: bool, e: Error)
    requires b.command == SlaRwCmd(Some(Err(e)))
    ensures Drive(SlaW(buf), b, started) == (Ready(Err(e)), None, b.(command := SlaRwCmd(None)), started)
  {
  }

  /**
    * A successful address starts the data write with the first byte; an
    * empty buffer has nothing to write and the write is ready with `Ok`.
    */
  lemma SlaOkWrites(buf: seq<bv8>, b: Bus, started: bool)
    requires b.command == SlaRwCmd(Some(Ok(())))
    ensures |buf| > 0 ==>
      Drive(SlaW(buf), b, started) == (Pending, Some(Write(true)), Bus(WriteCmd(buf, 0, None), true, b.sent + [SendWrite(buf[0])]), started)
    ensures |buf| == 0 ==> Drive(SlaW(buf), b, started) == (Ready(Ok(())), None, b.(command := SlaRwCmd(None)), started)
  {
  }

  /** The data write's result is the future's result. */
  lemma WriteResultReturned(b: Bus, started: bool, res: Result<(), Error>)
    requires b.command.WriteCmd? && b.command.res == Some(res)
    ensures Drive(Write(true), b, started) == (Ready(res), None, b.(command := WriteCmd(b.command.wbuf, b.command.idx, None)), started)
  {
  }

  /** `Write`: the transaction and the state, taken out while polled. */
  class Write {
    const tx: Transaction
    var state: Option<State>

    /** `Write::new`: issues the start at once. */
    constructor (tx: Transaction, addr: bv8, buf: seq<bv8>)
      requires tx.twi.Valid()
      modifies tx.twi
      ensures this.tx == tx && tx.twi.Valid() && state == Some(Start(addr, buf))
      ensures tx.twi.Snap() == Raw.Start(old(tx.twi.Snap()))
    {
      this.tx := tx;
      Raw.IssueStart(tx.twi);
      state := Some(Start(addr, buf));
    }

    /** `poll`: the loop of turns, which does what `Drive` says. */
    method Poll() returns (r: Poll<Result<(), Error>>)
      requires state.Some? && tx.twi.Valid() && Fits(state.value, tx.twi.Snap())
      modifies this, tx, tx.twi
      ensures tx.twi.Valid()
      ensures (r, state, tx.twi.Snap(), tx.started) == Drive(old(state.value), old(tx.twi.Snap()), old(tx.started))
    {
      while true
        invariant state.Some? && tx.twi.Valid() && Fits(state.value, tx.twi.Snap())
        invariant Drive(state.value, tx.twi.Snap(), tx.started) == Drive(old(state.value), old(tx.twi.Snap()), old(tx.started))
        decreases Rank(state.value)
      {
        var s := state.value;
        state := None;
        var go, next, p := TakeTurn(tx, s);
        if !go {
          state := if p.Pending? then Some(s) else None;
          return p;
        }
        state := Some(next);
      }
    }
  }

  /** One turn of the loop on the transaction, doing what `Step` says. */
  method TakeTurn(tx: Transaction, s: State) returns (go: bool, next: State, p: Poll<Result<(), Error>>)
    requires tx.twi.Valid() && Fits(s, tx.twi.Snap())
    modifies tx, tx.twi
    ensures tx.twi.Valid()
    ensures Step(s, old(tx.twi.Snap()), old(tx.started)) ==
      if go then Continue(next, tx.twi.Snap(), tx.started) else Break(p, tx.twi.Snap(), tx.started)
  {
    go, next, p := false, s, Pending;
    match s {
      case Start(addr, buf) =>
        var q := Raw.TakeStart(tx.twi);
        if q.Ready? && q.value.Err? {
          p := Ready(Err(q.value.error));
        } else if q.Ready? {
          tx.started := true;
          Raw.IssueSlaRw(tx.twi, addr, DirWrite);
          go, next := true, SlaW(buf);
        }
      case SlaW(buf) =>
        var q := Raw.TakeSlaRw(tx.twi);
        if q.Ready? && q.value.Err? {
          p := Ready(Err(q.value.error));
        } else if q.Ready? {
          var issued := Raw.IssueWrite(tx.twi, buf);
          go, next := true, Write(issued);
        }
      case Write(issued) =>
        p := Raw.TakeWrite(tx.twi, issued);
    }
  }
}
