/**
  * The `Read` future of a transaction, `avr-async/src/twi2/transaction/read.rs`:
  * send a start, address the slave for reading and read into the buffer. A
  * successful start marks the transaction started. No stop is ever sent
  * here: the first error, or the read's result, is returned at once and
  * the stop is left to the transaction's drop.
  */
module TwiTxRead {
  import opened Wrappers
  import opened TwiDriver
  import Raw = TwiRaw
  import opened TwiTransaction

  /** The future's `State`; `Read(issued)` remembers whether the read issued a command. */
  datatype State =
    | Start(addr: bv8, buf: array<bv8>)
    | SlaR(buf: array<bv8>)
    | Read(issued: bool)

  /** What a turn of the loop does, with the transaction's `started` flag after it. */
  datatype Turn =
    | Continue(next: State, bus: Bus, started: bool)
    | Break(result: Poll<Result<(), Error>>, bus: Bus, started: bool)

  /** The command in the slot is the one the state's sub-future issued. */
  predicate Fits(s: State, b: Bus)
  {
    match s
    case Start(_, _) => b.command.StartCmd?
    case SlaR(_) => b.command.SlaRwCmd?
    case Read(issued) => issued ==> b.command.ReadCmd?
  }

  function Rank(s: State): nat
  {
    match s
    case Start(_, _) => 2
    case SlaR(_) => 1
    case Read(_) => 0
  }

  /** The state's sub-future would be ready if polled now. */
  predicate SubReady(s: State, b: Bus)
    requires Fits(s, b)
  {
    match s
    case Start(_, _) => b.command.res.Some?
    case SlaR(_) => b.command.res.Some?
    case Read(issued) => !issued || b.command.res.Some?
  }

  /** One turn of the `poll` loop. */
  function Step(s: State, b: Bus, started: bool): (t: Turn)
    requires Fits(s, b)
    ensures t.Continue? ==> Fits(t.next, t.bus) && Rank(t.next) < Rank(s)
    ensures t.Continue? || t.result.Ready? <==> SubReady(s, b)
    ensures !SubReady(s, b) ==> t == Break(Pending, b, started)
    ensures b.sent <= t.bus.sent && SendStop !in t.bus.sent[|b.sent|..]
  {
    match s
    case Start(addr, buf) =>
      var (p, b1) := Raw.PollStart(b);
      if p.Pending? then Break(Pending, b1, started)
      else if p.value.Err? then Break(Ready(Err(p.value.error)), b1, started)
      else Continue(SlaR(buf), Raw.SlaRw(b1, addr, DirRead), true)
    case SlaR(buf) =>
      var (p, b1) := Raw.PollSlaRw(b);
      if p.Pending? then Break(Pending, b1, started)
      else if p.value.Err? then Break(Ready(Err(p.value.error)), b1, started)
      else
        var (b2, issued) := Raw.Read(b1, buf);
        Continue(Read(issued), b2, started)
    case Read(issued) =>
      var (p, b1) := Raw.PollRead(b, issued);
      Break(p, b1, started)
  }

  /**
    * A whole `poll`: turns until one breaks. The result, the state kept for
    * the next poll, the interface and the `started` flag afterwards. It is
    * pending exactly when it keeps a state, and that state fits the interface.
    */
  function Drive(s: State, b: Bus, started: bool): (r: (Poll<Result<(), Error>>, Option<State>, Bus, bool))
    requires Fits(s, b)
    ensures r.0.Pending? <==> r.1.Some?
    ensures r.1.Some? ==> Fits(r.1.value, r.2)
    decreases Rank(s)
  {
    match Step(s, b, started)
    case Continue(s', b', st') => Drive(s', b', st')
    case Break(p, b', st') => (p, if p.Pending? then Some(s) else None, b', st')
  }

  /** A pending poll keeps a state that fits the interface, at or below the one it started in. */
  lemma {:induction false} DriveKeepsFit(s: State, b: Bus, started: bool)
    requires Fits(s, b)
    ensures Drive(s, b, started).0.Pending? <==> Drive(s, b, started).1.Some?
    ensures Drive(s, b, started).1.Some? ==>
      Fits(Drive(s, b, started).1.value, Drive(s, b, started).2) && Rank(Drive(s, b, started).1.value) <= Rank(s)
    ensures SubReady(s, b) && Drive(s, b, started).1.Some? ==> Rank(Drive(s, b, started).1.value) < Rank(s)
    decreases Rank(s)
  {
    match Step(s, b, started)
    case Continue(s', b', st') => DriveKeepsFit(s', b', st');
    case Break(p, b', st') =>
  }

  /** A transactional read never sends a stop: it only adds to the interface's log, and never a stop. */
  lemma {:induction false} NeverStops(s: State, b: Bus, started: bool)
    requires Fits(s, b)
    ensures b.sent <= Drive(s, b, started).2.sent && SendStop !in Drive(s, b, started).2.sent[|b.sent|..]
    decreases Rank(s)
  {
    match Step(s, b, started)
    case Continue(s', b', st') =>
      NeverStops(s', b', st');
      var final := Drive(s', b', st').2.sent;
      assert final[|b.sent|..] == b'.sent[|b.sent|..] + final[|b'.sent|..];
    case Break(p, b', st') =>
  }

  /** A poll leaves the state, the interface and the flag as they were exactly when the sub-future is pending. */
  lemma PendingLeavesStateUnchanged(s: State, b: Bus, started: bool)
    requires Fits(s, b)
    ensures Drive(s, b, started) == (Pending, Some(s), b, started) <==> !SubReady(s, b)
  {
    DriveKeepsFit(s, b, started);
  }

  /** A successful start marks the transaction started and addresses the slave for reading. */
  lemma StartOkMarksStarted(addr: bv8, buf: array<bv8>, b: Bus, started: bool)
    requires b.command == StartCmd(Some(Ok(())))
    ensures Drive(Start(addr, buf), b, started) ==
      (Pending, Some(SlaR(buf)), Bus(SlaRwCmd(None), true, b.sent + [SendSlaRw(addr, DirRead)]), true)
  {
  }

  /** A failed start returns its error and leaves the flag as it was. */
  lemma StartErrorReturns(addr: bv8, buf: array<bv8>, b: Bus, started: bool, e: Error)
    requires b.command == StartCmd(Some(Err(e)))
    ensures Drive(Start(addr, buf), b, started) == (Ready(Err(e)), None, b.(command := StartCmd(None)), started)
  {
  }

  /** A failed address returns its error at once. */
  lemma SlaErrorReturns(buf: array<bv8>, b: Bus, started: bool, e: Error)
    requires b.command == SlaRwCmd(Some(Err(e)))
    ensures Drive(SlaR(buf), b, started) == (Ready(Err(e)), None, b.(command := SlaRwCmd(None)), started)
  {
  }

  /**
    * A successful address starts the read of the first byte, marked last iff
    * it is the only one; an empty buffer has nothing to read and the read is
    * ready with `Ok`.
    */
  lemma SlaOkReads(buf: array<bv8>, b: Bus, started: bool)
    requires b.command == SlaRwCmd(Some(Ok(())))
    ensures buf.Length > 0 ==>
      Drive(SlaR(buf), b, started) == (Pending, Some(Read(true)), Bus(ReadCmd(buf, 0, None), true, b.sent + [SendRead(buf.Length == 1)]), started)
    ensures buf.Length == 0 ==> Drive(SlaR(buf), b, started) == (Ready(Ok(())), None, b.(command := SlaRwCmd(None)), started)
  {
  }

  /** The read's result is the future's result. */
  lemma ReadResultReturned(b: Bus, started: bool, res: Result<(), Error>)
    requires b.command.ReadCmd? && b.command.res == Some(res)
    ensures Drive(Read(true), b, started) == (Ready(res), None, b.(command := ReadCmd(b.command.rbuf, b.command.idx, None)), started)
  {
  }

  /** `Read`: the transaction and the state, taken out while polled. */
  class Read {
    const tx: Transaction
    var state: Option<State>

    /** `Read::new`: issues the start at once. */
    constructor (tx: Transaction, addr: bv8, buf: array<bv8>)
      requires tx.twi.Valid()
      modifies tx.twi
      ensures this.tx == tx && tx.twi.Valid() && state == Some(Start(addr, buf))
      ensures tx.twi.Snap() == Raw.Start(old(tx.twi.Snap()))
    {
      this.tx := tx;
      Raw.IssueStart(tx.twi);
      state := Some(Start(addr, buf));
    }

    /** `poll`: the loop of turns, which does what `Drive` says. */
    method Poll() returns (r: Poll<Result<(), Error>>)
      requires state.Some? && tx.twi.Valid() && Fits(state.value, tx.twi.Snap())
      modifies this, tx, tx.twi
      ensures tx.twi.Valid()
      ensures (r, state, tx.twi.Snap(), tx.started) == Drive(old(state.value), old(tx.twi.Snap()), old(tx.started))
    {
      while true
        invariant state.Some? && tx.twi.Valid() && Fits(state.value, tx.twi.Snap())
        invariant Drive(state.value, tx.twi.Snap(), tx.started) == Drive(old(state.value), old(tx.twi.Snap()), old(tx.started))
        decreases Rank(state.value)
      {
        var s := state.value;
        state := None;
        var go, next, p := TakeTurn(tx, s);
        if !go {
          state := if p.Pending? then Some(s) else None;
          return p;
        }
        state := Some(next);
      }
    }
  }

  /** One turn of the loop on the transaction, doing what `Step` says. */
  method TakeTurn(tx: Transaction, s: State) returns (go: bool, next: State, p: Poll<Result<(), Error>>)
    requires tx.twi.Valid() && Fits(s, tx.twi.Snap())
    modifies tx, tx.twi
    ensures tx.twi.Valid()
    ensures Step(s, old(tx.twi.Snap()), old(tx.started)) ==
      if go then Continue(next, tx.twi.Snap(), tx.started) else Break(p, tx.twi.Snap(), tx.started)
  {
    go, next, p := false, s, Pending;
    match s {
      case Start(addr, buf) =>
        var q := Raw.TakeStart(tx.twi);
        if q.Ready? && q.value.Err? {
          p := Ready(Err(q.value.error));
        } else if q.Ready? {
          tx.started := true;
          Raw.IssueSlaRw(tx.twi, addr, DirRead);
          go, next := true, SlaR(buf);
        }
      case SlaR(buf) =>
        var q := Raw.TakeSlaRw(tx.twi);
        if q.Ready? && q.value.Err? {
          p := Ready(Err(q.value.error));
        } else if q.Ready? {
          var issued := Raw.IssueRead(tx.twi, buf);
          go, next := true, Read(issued);
        }
      case Read(issued) =>
        p := Raw.TakeRead(tx.twi, issued);
    }
  }
}
