/**
  * The shared state of the TWI (I2C) interface, `avr-async/src/twi2/mod.rs`:
  * the command in flight, the `set` flag saying a command is in flight, and
  * the interrupt-side `run` that completes commands as the peripheral
  * reports on them.
  *
  * The peripheral is an oracle: whether it `is_ready` and what its `recv_*`
  * calls return are inputs; its `send_*` calls and `disable` are recorded,
  * in order, in `sent`.
  */
module TwiDriver {
  import opened Wrappers
  import opened Wake

  /** The bus errors the peripheral reports. */
  datatype Error = ArbitrationLost | AddressNack | DataNack | BusError | Unknown

  /** The R/W direction sent with a slave address. */
  datatype Direction = DirWrite | DirRead

  /** A call into the peripheral. */
  datatype Op = SendStart | SendSlaRw(addr: bv8, dir: Direction) | SendWrite(byte: bv8) | SendRead(last: bool) | SendStop | Disable

  /**
    * `State`, the command in flight, each with the result `run` stores for
    * the future that issued it; `Uninit` before the first command. A stop's
    * `Option<()>` result is the flag `stopped`.
    */
  datatype Command =
    | Uninit
    | StartCmd(res: Option<Result<(), Error>>)
    | SlaRwCmd(res: Option<Result<(), Error>>)
    | WriteCmd(wbuf: seq<bv8>, idx: nat, res: Option<Result<(), Error>>)
    | ReadCmd(rbuf: array<bv8>, idx: nat, res: Option<Result<(), Error>>)
    | StopCmd(stopped: bool)

  /** A value copy of the interface's state. */
  datatype Bus = Bus(command: Command, isSet: bool, sent: seq<Op>)

  /**
    * While a command is in flight it is a real one, and a transfer's index
    * points at a byte of its buffer.
    */
  ghost predicate InFlight(b: Bus)
  {
    b.isSet ==>
      !b.command.Uninit? &&
      (b.command.WriteCmd? ==> b.command.idx < |b.command.wbuf|) &&
      (b.command.ReadCmd? ==> b.command.idx < b.command.rbuf.Length)
  }

  /** `TwiSlab`: the peripheral's log, the command slot and `set`. */
  class Twi {
    var command: Command
    var isSet: bool
    var sent: seq<Op>

    ghost function Snap(): Bus
      reads this
    {
      Bus(command, isSet, sent)
    }

    ghost predicate Valid()
      reads this
    {
      InFlight(Snap())
    }

    /** `TwiSlab::new`: no command, not set. */
    constructor ()
      ensures Valid() && command == Uninit && !isSet && sent == []
    {
      command := Uninit;
      isSet := false;
      sent := [];
    }

    /**
      * `TwoWireInterfaceDriver::run`, from the interrupt handler: nothing
      * happens unless the peripheral is ready and a command is set. A start,
      * SLA or stop then completes with the peripheral's result. A write
      * moves to the next byte and completes after the last or on an error.
      * A read stores the byte and moves on, completing after the last; a
      * read error is recorded but does not complete. Completing clears `set`,
      * disables the peripheral, wakes the executor and returns `true`.
      */
    method Run(w: Signal, ready: bool, status: Result<(), Error>, byte: bv8) returns (done: bool)
      requires Valid()
      modifies this, w, if command.ReadCmd? then {command.rbuf} else {}
      ensures Valid()
      ensures !(ready && old(isSet)) ==> !done && Snap() == old(Snap()) && w.count == old(w.count)
      ensures ready && old(isSet) ==> Snap() == RunStep(old(Snap()), status, byte) && done == !isSet
      ensures w.count == old(w.count) + if done then 1 else 0
      ensures old(command).ReadCmd? && ready && old(isSet) && status.Ok? ==>
        old(command).rbuf[..] == old(command.rbuf[..])[old(command).idx := byte]
      ensures !(old(command).ReadCmd? && ready && old(isSet) && status.Ok?) && old(command).ReadCmd? ==>
        old(command).rbuf[..] == old(command.rbuf[..])
    {
      done := false;
      if ready && isSet {
        match command {
          case StartCmd(_) =>
            command := StartCmd(Some(status));
            done := true;
          case SlaRwCmd(_) =>
            command := SlaRwCmd(Some(status));
            done := true;
          case WriteCmd(buf, idx, res) =>
            if status.Ok? {
              if |buf| == idx + 1 {
                command := WriteCmd(buf, idx + 1, Some(Ok(())));
                done := true;
              } else {
                sent := sent + [SendWrite(buf[idx + 1])];
                command := WriteCmd(buf, idx + 1, res);
              }
            } else {
              command := WriteCmd(buf, idx, Some(Err(status.error)));
              done := true;
            }
          case ReadCmd(buf, idx, res) =>
            if status.Ok? {
              buf[idx] := byte;
              if buf.Length == idx + 1 {
                command := ReadCmd(buf, idx + 1, Some(Ok(())));
                done := true;
              } else {
                sent := sent + [SendRead(buf.Length - 1 == idx + 1)];
                command := ReadCmd(buf, idx + 1, res);
              }
            } else {
              command := ReadCmd(buf, idx, Some(Err(status.error)));
            }
          case StopCmd(_) =>
            command := StopCmd(true);
            done := true;
        }
        if done {
          isSet := false;
          sent := sent + [Disable];
          w.Wake();
        }
      }
    }
  }

  /**
    * What `run` does to a set command when the peripheral is ready, apart
    * from storing a received byte.
    */
  ghost function RunStep(b: Bus, status: Result<(), Error>, byte: bv8): (b': Bus)
    requires InFlight(b) && b.isSet
    ensures InFlight(b')
    ensures b'.command.Uninit? == b.command.Uninit? && b'.command.StartCmd? == b.command.StartCmd? &&
            b'.command.SlaRwCmd? == b.command.SlaRwCmd? && b'.command.WriteCmd? == b.command.WriteCmd? &&
            b'.command.ReadCmd? == b.command.ReadCmd? && b'.command.StopCmd? == b.command.StopCmd?
    ensures !b'.isSet ==> b'.command.StopCmd? || b'.command.res.Some?
  {
    match b.command
    case StartCmd(_) => Bus(StartCmd(Some(status)), false, b.sent + [Disable])
    case SlaRwCmd(_) => Bus(SlaRwCmd(Some(status)), false, b.sent + [Disable])
    case WriteCmd(buf, idx, res) =>
      if status.Err? then Bus(WriteCmd(buf, idx, Some(Err(status.error))), false, b.sent + [Disable])
      else if |buf| == idx + 1 then Bus(WriteCmd(buf, idx + 1, Some(Ok(()))), false, b.sent + [Disable])
      else Bus(WriteCmd(buf, idx + 1, res), true, b.sent + [SendWrite(buf[idx + 1])])
    case ReadCmd(buf, idx, res) =>
      if status.Err? then Bus(ReadCmd(buf, idx, Some(Err(status.error))), true, b.sent)
      else if buf.Length == idx + 1 then Bus(ReadCmd(buf, idx + 1, Some(Ok(()))), false, b.sent + [Disable])
      else Bus(ReadCmd(buf, idx + 1, res), true, b.sent + [SendRead(buf.Length - 1 == idx + 1)])
    case StopCmd(_) => Bus(StopCmd(true), false, b.sent + [Disable])
  }

  /** `Wait::poll`: ready iff `set` is true, as written. */
  function WaitPoll(isSet: bool): (r: Poll<()>)
    ensures r.Ready? <==> isSet
    ensures r == Ready(()) || r == Pending
  {
    if isSet then Ready(()) else Pending
  }
}
