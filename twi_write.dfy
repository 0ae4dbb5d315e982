/**
  * The `Write` future of `avr-async/src/twi2/write.rs`: wait for the
  * interface, send a start, address the slave for writing, write the
  * buffer, send a stop, and return the first error or `Ok`. A failed start
  * returns at once; a failed address or data transfer still sends the stop.
  *
  * `Step` is one turn of the `poll` loop as a function on the interface's
  * state; `Drive` runs turns until one breaks, and `Write.Poll` is proved
  * to do what `Drive` says.
  */
module TwiWrite {
  import opened Wrappers
  import opened TwiDriver
  import Raw = TwiRaw

  /** The future's `State`; `Write(issued)` remembers whether the data write issued a command. */
  datatype State =
    | Wait(addr: bv8, buf: seq<bv8>)
    | Start(addr: bv8, buf: seq<bv8>)
    | SlaW(buf: seq<bv8>)
    | Write(issued: bool)
    | Stop(res: Result<(), Error>)

  /** What a turn of the loop does: go on in a new state, or break with a poll result. */
  datatype Turn = Continue(next: State, bus: Bus) | Break(result: Poll<Result<(), Error>>, bus: Bus)

  /** The command in the slot is the one the state's sub-future issued. */
  predicate Fits(s: State, b: Bus)
  {
    match s
    case Wait(_, _) => true
    case Start(_, _) => b.command.StartCmd?
    case SlaW(_) => b.command.SlaRwCmd?
    case Write(issued) => issued ==> b.command.WriteCmd?
    case Stop(_) => b.command.StopCmd?
  }

  /** The order of the states: every turn that goes on moves to a lower one. */
  function Rank(s: State): nat
  {
    match s
    case Wait(_, _) => 4
    case Start(_, _) => 3
    case SlaW(_) => 2
    case Write(_) => 1
    case Stop(_) => 0
  }

  /** The state's sub-future would be ready if polled now. */
  predicate SubReady(s: State, b: Bus)
    requires Fits(s, b)
  {
    match s
    case Wait(_, _) => b.isSet
    case Start(_, _) => b.command.res.Some?
    case SlaW(_) => b.command.res.Some?
    case Write(issued) => !issued || b.command.res.Some?
    case Stop(_) => b.command.stopped
  }

  /** `Write::new`: wait while a command is in flight, else issue the start. */
  function New(b: Bus, addr: bv8, buf: seq<bv8>): (r: (State, Bus))
    ensures Fits(r.0, r.1)
    ensures b.isSet ==> r == (Wait(addr, buf), b)
    ensures !b.isSet ==> r.0 == Start(addr, buf) && r.1.sent == b.sent + [SendStart]
  {
    if b.isSet then (Wait(addr, buf), b) else (Start(addr, buf), Raw.Start(b))
  }

  /** One turn of the `poll` loop. */
  function Step(s: State, b: Bus): (t: Turn)
    requires Fits(s, b)
    ensures t.Continue? ==> Fits(t.next, t.bus) && Rank(t.next) < Rank(s)
    ensures t.Continue? || t.result.Ready? <==> SubReady(s, b)
    ensures !SubReady(s, b) ==> t == Break(Pending, b)
    ensures InFlight(b) ==> InFlight(t.bus)
  {
    match s
    case Wait(addr, buf) =>
      if WaitPoll(b.isSet).Pending? then Break(Pending, b) else Continue(Start(addr, buf), Raw.Start(b))
    case Start(addr, buf) =>
      var (p, b1) := Raw.PollStart(b);
      if p.Pending? then Break(Pending, b1)
      else if p.value.Err? then Break(Ready(Err(p.value.error)), b1)
      else Continue(SlaW(buf), Raw.SlaRw(b1, addr, DirWrite))
    case SlaW(buf) =>
      var (p, b1) := Raw.PollSlaRw(b);
      if p.Pending? then Break(Pending, b1)
      else if p.value.Err? then Continue(Stop(Err(p.value.error)), Raw.Stop(b1))
      else
        var (b2, issued) := Raw.Write(b1, buf);
        Continue(Write(issued), b2)
    case Write(issued) =>
      var (p, b1) := Raw.PollWrite(b, issued);
      if p.Pending? then Break(Pending, b1) else Continue(Stop(p.value), Raw.Stop(b1))
    case Stop(res) =>
      var (stopped, b1) := Raw.PollStop(b);
      if stopped then Break(Ready(res), b1) else Break(Pending, b1)
  }

  /**
    * A whole `poll`: turns until one breaks. The result, the state kept for
    * the next poll (none once ready) and the interface afterwards.
    */
  function Drive(s: State, b: Bus): (r: (Poll<Result<(), Error>>, Option<State>, Bus))
    requires Fits(s, b)
    ensures r.0.Pending? <==> r.1.Some?
    ensures r.1.Some? ==> Fits(r.1.value, r.2)
    ensures InFlight(b) ==> InFlight(r.2)
    decreases Rank(s)
  {
    match Step(s, b)
    case Continue(s', b') => Drive(s', b')
    case Break(p, b') => (p, if p.Pending? then Some(s) else None, b')
  }

  /** A poll that stays pending ends at or below the state it started in, strictly below if it made progress. */
  lemma {:induction false} DriveDescends(s: State, b: Bus)
    requires Fits(s, b)
    ensures Drive(s, b).1.Some? ==> Rank(Drive(s, b).1.value) <= Rank(s)
    ensures SubReady(s, b) && Drive(s, b).1.Some? ==> Rank(Drive(s, b).1.value) < Rank(s)
    decreases Rank(s)
  {
    match Step(s, b)
    case Continue(s', b') => DriveDescends(s', b');
    case Break(p, b') =>
  }

  /**
    * A poll leaves the future in the state it was in, and the interface as
    * it was, exactly when that state's sub-future is still pending.
    */
  lemma PendingLeavesStateUnchanged(s: State, b: Bus)
    requires Fits(s, b)
    ensures Drive(s, b) == (Pending, Some(s), b) <==> !SubReady(s, b)
  {
    DriveDescends(s, b);
  }

  /** Once no command is in flight, `Wait` issues the start. */
  lemma WaitThenStart(addr: bv8, buf: seq<bv8>, b: Bus)
    ensures b.isSet ==> Drive(Wait(addr, buf), b) == (Pending, Some(Start(addr, buf)), Raw.Start(b))
    ensures !b.isSet ==> Drive(Wait(addr, buf), b) == (Pending, Some(Wait(addr, buf)), b)
  {
  }

  /** A failed start ends the write with its error and sends no stop. */
  lemma StartErrorSendsNoStop(addr: bv8, buf: seq<bv8>, b: Bus, e: Error)
    requires b.command == StartCmd(Some(Err(e)))
    ensures Drive(Start(addr, buf), b) == (Ready(Err(e)), None, b.(command := StartCmd(None)))
  {
  }

  /** A successful start addresses the slave with the write direction. */
  lemma StartOkAddressesForWrite(addr: bv8, buf: seq<bv8>, b: Bus)
    requires b.command == StartCmd(Some(Ok(())))
    ensures Drive(Start(addr, buf), b) ==
      (Pending, Some(SlaW(buf)), Bus(SlaRwCmd(None), true, b.sent + [SendSlaRw(addr, DirWrite)]))
  {
  }

  /** A failed address sends the stop and keeps the error to return. */
  lemma SlaErrorSendsStop(buf: seq<bv8>, b: Bus, e: Error)
    requires b.command == SlaRwCmd(Some(Err(e)))
    ensures Drive(SlaW(buf), b) == (Pending, Some(Stop(Err(e))), Bus(StopCmd(false), true, b.sent + [SendStop]))
  {
  }

  /**
    * A successful address starts the data write with the first byte; an
    * empty buffer has nothing to write and goes straight to the stop.
    */
  lemma SlaOkWrites(buf: seq<bv8>, b: Bus)
    requires b.command == SlaRwCmd(Some(Ok(())))
    ensures |buf| > 0 ==> Drive(SlaW(buf), b) == (Pending, Some(Write(true)), Bus(WriteCmd(buf, 0, None), true, b.sent + [SendWrite(buf[0])]))
    ensures |buf| == 0 ==> Drive(SlaW(buf), b) == (Pending, Some(Stop(Ok(()))), Bus(StopCmd(false), true, b.sent + [SendStop]))
  {
  }

  /** A finished data write sends the stop and keeps the write's result to return. */
  lemma WriteDoneSendsStop(b: Bus, res: Result<(), Error>)
    requires b.command.WriteCmd? && b.command.res == Some(res)
    ensures Drive(Write(true), b) == (Pending, Some(Stop(res)), Bus(StopCmd(false), true, b.sent + [SendStop]))
  {
  }

  /** Once the stop is out, the write returns the result it kept. */
  lemma StopReturns(res: Result<(), Error>, b: Bus)
    requires b.command == StopCmd(true)
    ensures Drive(Stop(res), b) == (Ready(res), None, b.(command := StopCmd(false)))
  {
  }

  /** `Write`: the interface and the state, taken out while polled. */
  class Write {
    const twi: Twi
    var state: Option<State>

    /** `Write::new`, performing `New` on the interface. */
    constructor (twi: Twi, addr: bv8, buf: seq<bv8>)
      requires twi.Valid()
      modifies twi
      ensures this.twi == twi && twi.Valid() && state.Some?
      ensures (state.value, twi.Snap()) == New(old(twi.Snap()), addr, buf)
    {
      this.twi := twi;
      if twi.isSet {
        state := Some(Wait(addr, buf));
      } else {
        Raw.IssueStart(twi);
        state := Some(Start(addr, buf));
      }
    }

    /** `poll`: the loop of turns, which does what `Drive` says. */
    method Poll() returns (r: Poll<Result<(), Error>>)
      requires state.Some? && twi.Valid() && Fits(state.value, twi.Snap())
      modifies this, twi
      ensures twi.Valid()
      ensures (r, state, twi.Snap()) == Drive(old(state.value), old(twi.Snap()))
    {
      while true
        invariant state.Some? && twi.Valid() && Fits(state.value, twi.Snap())
        invariant Drive(state.value, twi.Snap()) == Drive(old(state.value), old(twi.Snap()))
        decreases Rank(state.value)
      {
        var s := state.value;
        state := None;
        var go, next, p := TakeTurn(twi, s);
        if !go {
          state := if p.Pending? then Some(s) else None;
          return p;
        }
        state := Some(next);
      }
    }
  }

  /** One turn of the loop on the interface, doing what `Step` says. */
  method TakeTurn(twi: Twi, s: State) returns (go: bool, next: State, p: Poll<Result<(), Error>>)
    requires twi.Valid() && Fits(s, twi.Snap())
    modifies twi
    ensures twi.Valid()
    ensures Step(s, old(twi.Snap())) == if go then Continue(next, twi.Snap()) else Break(p, twi.Snap())
  {
    go, next, p := false, s, Pending;
    match s {
      case Wait(addr, buf) =>
        if WaitPoll(twi.isSet).Ready? {
          Raw.IssueStart(twi);
          go, next := true, Start(addr, buf);
        }
      case Start(addr, buf) =>
        var q := Raw.TakeStart(twi);
        if q.Ready? && q.value.Err? {
          p := Ready(Err(q.value.error));
        } else if q.Ready? {
          Raw.IssueSlaRw(twi, addr, DirWrite);
          go, next := true, SlaW(buf);
        }
      case SlaW(buf) =>
        var q := Raw.TakeSlaRw(twi);
        if q.Ready? && q.value.Err? {
          Raw.IssueStop(twi);
          go, next := true, Stop(Err(q.value.error));
        } else if q.Ready? {
          var issued := Raw.IssueWrite(twi, buf);
          go, next := true, Write(issued);
        }
      case Write(issued) =>
        var q := Raw.TakeWrite(twi, issued);
        if q.Ready? {
          Raw.IssueStop(twi);
          go, next := true, Stop(q.value);
        }
      case Stop(res) =>
        var stopped := Raw.TakeStop(twi);
        if stopped {
          p := Ready(res);
        }
    }
  }
}
