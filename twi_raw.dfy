/**
  * The raw command futures of `avr-async/src/twi2/raw.rs`. Creating one
  * writes its command into the shared slot with no result, sets `set` and
  * issues the matching peripheral call; polling one is pending until `run`
  * has stored a result, then takes that result out. A future is only a
  * pointer to the shared slot, so here creating one is a transition of the
  * interface and polling one another; `Write` and `Read` over an empty
  * buffer issue nothing and remember that in `issued`.
  *
  * Each transition is a function on a `Bus` value and a method on the
  * interface that is proved to perform it. The functions `Start`, `SlaRw`,
  * `Write`, `Read` and `Stop` are the reference transitions: their `ensures`
  * only spell out the interface they produce, and what follows from them is
  * stated by `TakeOnce`, `StartCompletes` and the session lemmas.
  */
module TwiRaw {
  import opened Wrappers
  import opened TwiDriver

  /** `Start::new`. */
  function Start(b: Bus): (b': Bus)
    ensures b'.command == StartCmd(None) && b'.isSet && b'.sent == b.sent + [SendStart]
  {
    Bus(StartCmd(None), true, b.sent + [SendStart])
  }

  /** `SlaRw::new`. */
  function SlaRw(b: Bus, addr: bv8, dir: Direction): (b': Bus)
    ensures b'.command == SlaRwCmd(None) && b'.isSet && b'.sent == b.sent + [SendSlaRw(addr, dir)]
  {
    Bus(SlaRwCmd(None), true, b.sent + [SendSlaRw(addr, dir)])
  }

  /** `Write::new`: nothing for an empty buffer; otherwise the transfer starts at byte 0. */
  function Write(b: Bus, buf: seq<bv8>): (r: (Bus, bool))
    ensures r.1 <==> |buf| > 0
    ensures !r.1 ==> r.0 == b
    ensures r.1 ==> r.0 == Bus(WriteCmd(buf, 0, None), true, b.sent + [SendWrite(buf[0])])
  {
    if |buf| == 0 then (b, false) else (Bus(WriteCmd(buf, 0, None), true, b.sent + [SendWrite(buf[0])]), true)
  }

  /** `Read::new`: nothing for an empty buffer; otherwise the first read, marked last iff it is the only one. */
  function Read(b: Bus, buf: array<bv8>): (r: (Bus, bool))
    ensures r.1 <==> buf.Length > 0
    ensures !r.1 ==> r.0 == b
    ensures r.1 ==> r.0 == Bus(ReadCmd(buf, 0, None), true, b.sent + [SendRead(buf.Length == 1)])
  {
    if buf.Length == 0 then (b, false) else (Bus(ReadCmd(buf, 0, None), true, b.sent + [SendRead(buf.Length == 1)]), true)
  }

  /** `Stop::new`, and `stop_unbound`, which does the same without a future. */
  function Stop(b: Bus): (b': Bus)
    ensures b'.command == StopCmd(false) && b'.isSet && b'.sent == b.sent + [SendStop]
  {
    Bus(StopCmd(false), true, b.sent + [SendStop])
  }

  /** The poll of a future whose result is `res`: pending while there is none, else ready with it, taking it out. */
  function Take<R>(res: Option<R>): (r: (Poll<R>, Option<R>))
    ensures res.None? ==> r == (Pending, None)
    ensures res.Some? ==> r == (Ready(res.value), None)
  {
    match res
    case None => (Pending, None)
    case Some(v) => (Ready(v), None)
  }

  /** `Start::poll`; any other command in the slot is a panic. */
  function PollStart(b: Bus): (r: (Poll<Result<(), Error>>, Bus))
    requires b.command.StartCmd?
    ensures r.1.command.StartCmd? && r.1.command.res == None && r.1.isSet == b.isSet && r.1.sent == b.sent
    ensures r.0.Ready? <==> b.command.res.Some?
    ensures r.0.Ready? ==> r.0.value == b.command.res.value
  {
    var (p, res) := Take(b.command.res);
    (p, b.(command := StartCmd(res)))
  }

  /** `SlaRw::poll`. */
  function PollSlaRw(b: Bus): (r: (Poll<Result<(), Error>>, Bus))
    requires b.command.SlaRwCmd?
    ensures r.1.command.SlaRwCmd? && r.1.command.res == None && r.1.isSet == b.isSet && r.1.sent == b.sent
    ensures r.0.Ready? <==> b.command.res.Some?
    ensures r.0.Ready? ==> r.0.value == b.command.res.value
  {
    var (p, res) := Take(b.command.res);
    (p, b.(command := SlaRwCmd(res)))
  }

  /** `Write::poll`: an empty write is ready with `Ok` at once. */
  function PollWrite(b: Bus, issued: bool): (r: (Poll<Result<(), Error>>, Bus))
    requires issued ==> b.command.WriteCmd?
    ensures !issued ==> r == (Ready(Ok(())), b)
    ensures issued ==> r.1 == b.(command := WriteCmd(b.command.wbuf, b.command.idx, None))
    ensures issued ==> (r.0.Ready? <==> b.command.res.Some?) && (r.0.Ready? ==> r.0.value == b.command.res.value)
  {
    if !issued then (Ready(Ok(())), b)
    else
      var (p, res) := Take(b.command.res);
      (p, b.(command := WriteCmd(b.command.wbuf, b.command.idx, res)))
  }

  /** `Read::poll`: an empty read is ready with `Ok` at once. */
  function PollRead(b: Bus, issued: bool): (r: (Poll<Result<(), Error>>, Bus))
    requires issued ==> b.command.ReadCmd?
    ensures !issued ==> r == (Ready(Ok(())), b)
    ensures issued ==> r.1 == b.(command := ReadCmd(b.command.rbuf, b.command.idx, None))
    ensures issued ==> (r.0.Ready? <==> b.command.res.Some?) && (r.0.Ready? ==> r.0.value == b.command.res.value)
  {
    if !issued then (Ready(Ok(())), b)
    else
      var (p, res) := Take(b.command.res);
      (p, b.(command := ReadCmd(b.command.rbuf, b.command.idx, res)))
  }

  /** `Stop::poll`: ready once the stop went out, taking that mark. */
  function PollStop(b: Bus): (r: (bool, Bus))
    requires b.command.StopCmd?
    ensures r.0 == b.command.stopped && r.1 == b.(command := StopCmd(false))
  {
    (b.command.stopped, b.(command := StopCmd(false)))
  }

  /** A result is handed out once: polling again right after a ready poll is pending. */
  lemma {:induction false} TakeOnce(b: Bus, buf: seq<bv8>)
    requires b.command.StartCmd? && b.command.res.Some?
    ensures PollStart(b).0.Ready? && PollStart(PollStart(b).1).0 == Pending
    ensures Start(b).command == StartCmd(None) && PollStart(Start(b)).0 == Pending
  {
  }

  /** A new command is pending until `run` completes it, and the completion is what its poll hands out. */
  lemma StartCompletes(b: Bus, status: Result<(), Error>, byte: bv8)
    ensures PollStart(Start(b)).0 == Pending
    ensures InFlight(Start(b)) && PollStart(RunStep(Start(b), status, byte)).0 == Ready(status)
    ensures !RunStep(Start(b), status, byte).isSet
  {
  }

  /** The methods that perform the transitions on the shared interface. */

  method IssueStart(twi: Twi)
    modifies twi
    ensures twi.Snap() == Start(old(twi.Snap())) && twi.Valid()
  {
    twi.command := StartCmd(None);
    twi.isSet := true;
    twi.sent := twi.sent + [SendStart];
  }

  method IssueSlaRw(twi: Twi, addr: bv8, dir: Direction)
    modifies twi
    ensures twi.Snap() == SlaRw(old(twi.Snap()), addr, dir) && twi.Valid()
  {
    twi.command := SlaRwCmd(None);
    twi.isSet := true;
    twi.sent := twi.sent + [SendSlaRw(addr, dir)];
  }

  method IssueWrite(twi: Twi, buf: seq<bv8>) returns (issued: bool)
    requires twi.Valid()
    modifies twi
    ensures (twi.Snap(), issued) == Write(old(twi.Snap()), buf) && twi.Valid()
  {
    if |buf| == 0 {
      issued := false;
    } else {
      twi.command := WriteCmd(buf, 0, None);
      twi.isSet := true;
      twi.sent := twi.sent + [SendWrite(buf[0])];
      issued := true;
    }
  }

  method IssueRead(twi: Twi, buf: array<bv8>) returns (issued: bool)
    requires twi.Valid()
    modifies twi
    ensures (twi.Snap(), issued) == Read(old(twi.Snap()), buf) && twi.Valid()
  {
    if buf.Length == 0 {
      issued := false;
    } else {
      twi.command := ReadCmd(buf, 0, None);
      twi.isSet := true;
      twi.sent := twi.sent + [SendRead(buf.Length == 1)];
      issued := true;
    }
  }

  /** `Stop::new` and `stop_unbound`. */
  method IssueStop(twi: Twi)
    modifies twi
    ensures twi.Snap() == Stop(old(twi.Snap())) && twi.Valid()
  {
    twi.command := StopCmd(false);
    twi.isSet := true;
    twi.sent := twi.sent + [SendStop];
  }

  method TakeStart(twi: Twi) returns (r: Poll<Result<(), Error>>)
    requires twi.Valid() && twi.command.StartCmd?
    modifies twi
    ensures (r, twi.Snap()) == PollStart(old(twi.Snap())) && twi.Valid()
  {
    var (p, res) := Take(twi.command.res);
    twi.command := StartCmd(res);
    r := p;
  }

  method TakeSlaRw(twi: Twi) returns (r: Poll<Result<(), Error>>)
    requires twi.Valid() && twi.command.SlaRwCmd?
    modifies twi
    ensures (r, twi.Snap()) == PollSlaRw(old(twi.Snap())) && twi.Valid()
  {
    var (p, res) := Take(twi.command.res);
    twi.command := SlaRwCmd(res);
    r := p;
  }

  method TakeWrite(twi: Twi, issued: bool) returns (r: Poll<Result<(), Error>>)
    requires twi.Valid() && (issued ==> twi.command.WriteCmd?)
    modifies twi
    ensures (r, twi.Snap()) == PollWrite(old(twi.Snap()), issued) && twi.Valid()
  {
    if !issued {
      r := Ready(Ok(()));
    } else {
      var (p, res) := Take(twi.command.res);
      twi.command := WriteCmd(twi.command.wbuf, twi.command.idx, res);
      r := p;
    }
  }

  method TakeRead(twi: Twi, issued: bool) returns (r: Poll<Result<(), Error>>)
    requires twi.Valid() && (issued ==> twi.command.ReadCmd?)
    modifies twi
    ensures (r, twi.Snap()) == PollRead(old(twi.Snap()), issued) && twi.Valid()
  {
    if !issued {
      r := Ready(Ok(()));
    } else {
      var (p, res) := Take(twi.command.res);
      twi.command := ReadCmd(twi.command.rbuf, twi.command.idx, res);
      r := p;
    }
  }

  method TakeStop(twi: Twi) returns (stopped: bool)
    requires twi.Valid() && twi.command.StopCmd?
    modifies twi
    ensures (stopped, twi.Snap()) == PollStop(old(twi.Snap())) && twi.Valid()
  {
    stopped := twi.command.stopped;
    twi.command := StopCmd(false);
  }
}
