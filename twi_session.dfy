/**
  * Whole transfers on the TWI interface: the executor polls a future, the
  * interrupt handler runs once, and so on, with the peripheral always ready
  * and answering with the given statuses. With every step acknowledged, a
  * write sends start, address, every byte in order and stop and returns
  * `Ok`; a read does the same with only its last byte marked last.
  */
module TwiSession {
  import opened Wrappers
  import opened Wake
  import opened TwiDriver
  import Raw = TwiRaw
  import TwiWrite
  import TwiRead

  /** `n` acknowledgements. */
  function Acks(n: nat): (r: seq<Result<(), Error>>)
    ensures |r| == n && forall i :: 0 <= i < n ==> r[i] == Ok(())
  {
    seq(n, i => Ok(()))
  }

  /** The byte writes of `bytes`, in order. */
  function Writes(bytes: seq<bv8>): seq<Op>
  {
    seq(|bytes|, i requires 0 <= i < |bytes| => SendWrite(bytes[i]))
  }

  /** The reads of bytes `j` to `n - 1` of `n`: only the read of byte `n - 1` is marked last. */
  function ReadsFrom(j: nat, n: nat): seq<Op>
  {
    seq(if j < n then n - j else 0, i => SendRead(j + i == n - 1))
  }

  /**
    * Polls the write future, then lets the interrupt handler run with the
    * next status, until the future is ready, the statuses run out or no
    * command is in flight; the final poll result and interface.
    */
  ghost function WriteSession(s: TwiWrite.State, b: Bus, statuses: seq<Result<(), Error>>): (Poll<Result<(), Error>>, Bus)
    requires TwiWrite.Fits(s, b) && InFlight(b)
    decreases |statuses|
  {
    var (p, st, b1) := TwiWrite.Drive(s, b);
    if p.Ready? || |statuses| == 0 || !b1.isSet then (p, b1)
    else WriteSession(st.value, RunStep(b1, statuses[0], 0), statuses[1..])
  }

  /** The same for the read future; the bytes received do not affect the interface's log. */
  ghost function ReadSession(s: TwiRead.State, b: Bus, statuses: seq<Result<(), Error>>): (Poll<Result<(), Error>>, Bus)
    requires TwiRead.Fits(s, b) && InFlight(b)
    decreases |statuses|
  {
    var (p, st, b1) := TwiRead.Drive(s, b);
    if p.Ready? || |statuses| == 0 || !b1.isSet then (p, b1)
    else ReadSession(st.value, RunStep(b1, statuses[0], 0), statuses[1..])
  }

  /** One round of a write session: a pending poll with a command in flight, then one run of the handler. */
  lemma WriteRound(s: TwiWrite.State, b: Bus, st: seq<Result<(), Error>>, s': TwiWrite.State, b1: Bus)
    requires TwiWrite.Fits(s, b) && InFlight(b) && |st| > 0
    requires TwiWrite.Drive(s, b) == (Pending, Some(s'), b1) && b1.isSet
    ensures TwiWrite.Fits(s', b1) && InFlight(b1)
    ensures TwiWrite.Fits(s', RunStep(b1, st[0], 0)) && InFlight(RunStep(b1, st[0], 0))
    ensures WriteSession(s, b, st) == WriteSession(s', RunStep(b1, st[0], 0), st[1..])
  {
  }

  /** One round of a read session. */
  lemma ReadRound(s: TwiRead.State, b: Bus, st: seq<Result<(), Error>>, s': TwiRead.State, b1: Bus)
    requires TwiRead.Fits(s, b) && InFlight(b) && |st| > 0
    requires TwiRead.Drive(s, b) == (Pending, Some(s'), b1) && b1.isSet
    ensures TwiRead.Fits(s', b1) && InFlight(b1)
    ensures TwiRead.Fits(s', RunStep(b1, st[0], 0)) && InFlight(RunStep(b1, st[0], 0))
    ensures ReadSession(s, b, st) == ReadSession(s', RunStep(b1, st[0], 0), st[1..])
  {
  }

  /** A round on a byte in flight: the poll is pending and leaves the state as it was, then the handler runs. */
  lemma WriteByteAck(b: Bus, st: seq<Result<(), Error>>)
    requires b.command.WriteCmd? && b.command.res == None && b.isSet && b.command.idx < |b.command.wbuf| && |st| > 0
    ensures TwiWrite.Fits(TwiWrite.Write(true), RunStep(b, st[0], 0)) && InFlight(RunStep(b, st[0], 0))
    ensures WriteSession(TwiWrite.Write(true), b, st) == WriteSession(TwiWrite.Write(true), RunStep(b, st[0], 0), st[1..])
  {
    TwiWrite.PendingLeavesStateUnchanged(TwiWrite.Write(true), b);
    WriteRound(TwiWrite.Write(true), b, st, TwiWrite.Write(true), b);
  }

  /** While a byte is in flight the poll is pending; the acknowledgement sends the next byte, or completes after the last. */
  lemma WriteByteRound(buf: seq<bv8>, idx: nat, b: Bus, m: nat)
    requires b.command == WriteCmd(buf, idx, None) && b.isSet && idx < |buf| && m >= 1
    ensures WriteSession(TwiWrite.Write(true), b, Acks(m)) == WriteSession(TwiWrite.Write(true),
      if idx + 1 == |buf| then Bus(WriteCmd(buf, idx + 1, Some(Ok(()))), false, b.sent + [Disable])
      else Bus(WriteCmd(buf, idx + 1, None), true, b.sent + [SendWrite(buf[idx + 1])]), Acks(m - 1))
  {
    var next := if idx + 1 == |buf| then Bus(WriteCmd(buf, idx + 1, Some(Ok(()))), false, b.sent + [Disable])
      else Bus(WriteCmd(buf, idx + 1, None), true, b.sent + [SendWrite(buf[idx + 1])]);
    assert RunStep(b, Ok(()), 0) == next;
    assert Acks(m)[1..] == Acks(m - 1);
    WriteByteAck(b, Acks(m));
  }

  /** The stop after a finished write: sent, acknowledged, and the kept result returned. */
  lemma WriteStopPhase(b: Bus, res: Result<(), Error>, m: nat)
    requires b.command.WriteCmd? && b.command.res == Some(res) && !b.isSet && m >= 1
    ensures WriteSession(TwiWrite.Write(true), b, Acks(m)) == (Ready(res), Bus(StopCmd(false), false, b.sent + [SendStop, Disable]))
  {
    TwiWrite.WriteDoneSendsStop(b, res);
    var b2 := RunStep(Bus(StopCmd(false), true, b.sent + [SendStop]), Ok(()), 0);
    assert b2 == Bus(StopCmd(true), false, b.sent + [SendStop, Disable]);
    TwiWrite.StopReturns(res, b2);
    assert Acks(m)[1..] == Acks(m - 1);
  }

  /** Writing byte `idx + 1` extends the log by the writes from `idx + 1` on. */
  lemma WritesStep(buf: seq<bv8>, idx: nat, pre: seq<Op>, tail: seq<Op>)
    requires idx + 1 < |buf|
    ensures pre + [SendWrite(buf[idx + 1])] + Writes(buf[idx + 2..]) + tail == pre + Writes(buf[idx + 1..]) + tail
  {
    assert buf[idx + 1..][1..] == buf[idx + 2..];
    assert Writes(buf[idx + 1..]) == [SendWrite(buf[idx + 1])] + Writes(buf[idx + 2..]);
  }

  /** The log of a write, split at its first byte. */
  lemma WritesStart(buf: seq<bv8>, pre: seq<Op>, pre': seq<Op>)
    requires |buf| > 0 && pre == pre'
    ensures pre + [SendWrite(buf[0])] + Writes(buf[1..]) + [Disable, SendStop, Disable] ==
            pre' + Writes(buf) + [Disable, SendStop, Disable]
  {
    assert Writes(buf) == [SendWrite(buf[0])] + Writes(buf[1..]);
  }

  /** From byte `idx` on, with every byte acknowledged, the write sends the rest in order, then the stop. */
  lemma {:induction false} WriteBytesPhase(buf: seq<bv8>, idx: nat, b: Bus, m: nat)
    requires b.command == WriteCmd(buf, idx, None) && b.isSet && idx < |buf| && m >= |buf| - idx + 1
    ensures WriteSession(TwiWrite.Write(true), b, Acks(m)) ==
      (Ready(Ok(())), Bus(StopCmd(false), false, b.sent + Writes(buf[idx + 1..]) + [Disable, SendStop, Disable]))
    decreases |buf| - idx
  {
    WriteByteRound(buf, idx, b, m);
    if idx + 1 == |buf| {
      var b1 := Bus(WriteCmd(buf, idx + 1, Some(Ok(()))), false, b.sent + [Disable]);
      WriteStopPhase(b1, Ok(()), m - 1);
      assert buf[idx + 1..] == [];
      assert b1.sent + [SendStop, Disable] == b.sent + Writes(buf[idx + 1..]) + [Disable, SendStop, Disable];
    } else {
      var b1 := Bus(WriteCmd(buf, idx + 1, None), true, b.sent + [SendWrite(buf[idx + 1])]);
      WriteBytesPhase(buf, idx + 1, b1, m - 1);
      WritesStep(buf, idx, b.sent, [Disable, SendStop, Disable]);
    }
  }

  /** The start condition, completed with the first status; the poll before it is pending. */
  lemma WriteStartRound(addr: bv8, buf: seq<bv8>, b0: Bus, st: seq<Result<(), Error>>)
    requires |st| > 0
    ensures WriteSession(TwiWrite.Start(addr, buf), Raw.Start(b0), st) ==
      WriteSession(TwiWrite.Start(addr, buf), Bus(StartCmd(Some(st[0])), false, b0.sent + [SendStart, Disable]), st[1..])
  {
    var b1 := Raw.Start(b0);
    TwiWrite.PendingLeavesStateUnchanged(TwiWrite.Start(addr, buf), b1);
    WriteRound(TwiWrite.Start(addr, buf), b1, st, TwiWrite.Start(addr, buf), b1);
    assert b1.sent + [Disable] == b0.sent + [SendStart, Disable];
  }

  /** After a completed start the address goes out with the write direction and is completed with the next status. */
  lemma WriteAddressRound(addr: bv8, buf: seq<bv8>, pre: seq<Op>, st: seq<Result<(), Error>>)
    requires |st| > 0
    ensures WriteSession(TwiWrite.Start(addr, buf), Bus(StartCmd(Some(Ok(()))), false, pre), st) ==
      WriteSession(TwiWrite.SlaW(buf), Bus(SlaRwCmd(Some(st[0])), false, pre + [SendSlaRw(addr, DirWrite), Disable]), st[1..])
  {
    var b2 := Bus(StartCmd(Some(Ok(()))), false, pre);
    TwiWrite.StartOkAddressesForWrite(addr, buf, b2);
    WriteRound(TwiWrite.Start(addr, buf), b2, st, TwiWrite.SlaW(buf), Bus(SlaRwCmd(None), true, pre + [SendSlaRw(addr, DirWrite)]));
    assert pre + [SendSlaRw(addr, DirWrite)] + [Disable] == pre + [SendSlaRw(addr, DirWrite), Disable];
  }

  /** An acknowledged address: the first byte goes out and is acknowledged. */
  lemma WriteFirstByteRound(buf: seq<bv8>, pre: seq<Op>, m: nat)
    requires |buf| > 0 && m >= 1
    ensures WriteSession(TwiWrite.SlaW(buf), Bus(SlaRwCmd(Some(Ok(()))), false, pre), Acks(m)) ==
      WriteSession(TwiWrite.Write(true), Bus(WriteCmd(buf, 0, None), true, pre + [SendWrite(buf[0])]), Acks(m))
  {
    var b4 := Bus(SlaRwCmd(Some(Ok(()))), false, pre);
    var b5 := Bus(WriteCmd(buf, 0, None), true, pre + [SendWrite(buf[0])]);
    // both poll to the pending `Write(true)` on `b5`, then run once on it
    TwiWrite.SlaOkWrites(buf, b4);
    WriteRound(TwiWrite.SlaW(buf), b4, Acks(m), TwiWrite.Write(true), b5);
    TwiWrite.PendingLeavesStateUnchanged(TwiWrite.Write(true), b5);
    WriteRound(TwiWrite.Write(true), b5, Acks(m), TwiWrite.Write(true), b5);
  }

  /** Start and address acknowledged: the first byte is in flight. */
  lemma WriteHeader(addr: bv8, buf: seq<bv8>, b0: Bus, n: nat)
    requires |buf| > 0 && n >= 3
    ensures WriteSession(TwiWrite.Start(addr, buf), Raw.Start(b0), Acks(n)) ==
      WriteSession(TwiWrite.Write(true), Bus(WriteCmd(buf, 0, None), true, b0.sent + [SendStart, Disable] + [SendSlaRw(addr, DirWrite), Disable] + [SendWrite(buf[0])]), Acks(n - 2))
  {
    var pre2 := b0.sent + [SendStart, Disable];
    var pre4 := pre2 + [SendSlaRw(addr, DirWrite), Disable];
    assert Acks(n)[1..] == Acks(n - 1) && Acks(n - 1)[1..] == Acks(n - 2);
    WriteStartRound(addr, buf, b0, Acks(n));
    WriteAddressRound(addr, buf, pre2, Acks(n - 1));
    WriteFirstByteRound(buf, pre4, n - 2);
  }

  /**
    * A write of a non-empty buffer on an idle interface, every step
    * acknowledged: start, address with the write direction, every byte in
    * order, stop, and `Ok`, with the peripheral disabled after each
    * completed command.
    */
  lemma WriteCompletes(addr: bv8, buf: seq<bv8>, b0: Bus, n: nat)
    requires !b0.isSet && |buf| > 0 && n >= |buf| + 3
    ensures TwiWrite.New(b0, addr, buf) == (TwiWrite.Start(addr, buf), Raw.Start(b0))
    ensures WriteSession(TwiWrite.Start(addr, buf), Raw.Start(b0), Acks(n)) ==
      (Ready(Ok(())), Bus(StopCmd(false), false,
        b0.sent + [SendStart, Disable, SendSlaRw(addr, DirWrite), Disable] + Writes(buf) + [Disable, SendStop, Disable]))
  {
    var pre2 := b0.sent + [SendStart, Disable];
    var pre4 := pre2 + [SendSlaRw(addr, DirWrite), Disable];
    var b5 := Bus(WriteCmd(buf, 0, None), true, pre4 + [SendWrite(buf[0])]);
    WriteHeader(addr, buf, b0, n);
    WriteBytesPhase(buf, 0, b5, n - 2);
    WritesStart(buf, pre4, b0.sent + [SendStart, Disable, SendSlaRw(addr, DirWrite), Disable]);
  }

  /** A failed start: the write returns the error and no stop is sent. */
  lemma WriteStartFails(addr: bv8, buf: seq<bv8>, b0: Bus, e: Error, rest: seq<Result<(), Error>>)
    ensures WriteSession(TwiWrite.Start(addr, buf), Raw.Start(b0), [Err(e)] + rest) ==
      (Ready(Err(e)), Bus(StartCmd(None), false, b0.sent + [SendStart, Disable]))
  {
    WriteStartRound(addr, buf, b0, [Err(e)] + rest);
    assert ([Err(e)] + rest)[1..] == rest;
    TwiWrite.StartErrorSendsNoStop(addr, buf, Bus(StartCmd(Some(Err(e))), false, b0.sent + [SendStart, Disable]), e);
  }

  /** A slave that does not acknowledge its address: the stop is still sent, then the error returned. */
  lemma WriteAddressRejected(addr: bv8, buf: seq<bv8>, b0: Bus, e: Error)
    ensures WriteSession(TwiWrite.Start(addr, buf), Raw.Start(b0), [Ok(()), Err(e), Ok(())]) ==
      (Ready(Err(e)), Bus(StopCmd(false), false, b0.sent + [SendStart, Disable, SendSlaRw(addr, DirWrite), Disable, SendStop, Disable]))
  {
    var pre2 := b0.sent + [SendStart, Disable];
    var pre4 := pre2 + [SendSlaRw(addr, DirWrite), Disable];
    WriteStartRound(addr, buf, b0, [Ok(()), Err(e), Ok(())]);
    assert [Ok(()), Err(e), Ok(())][1..] == [Err(e), Ok(())];
    WriteAddressRound(addr, buf, pre2, [Err(e), Ok(())]);
    assert [Err(e), Ok(())][1..] == [Ok(())];
    var b4 := Bus(SlaRwCmd(Some(Err(e))), false, pre4);
    var b5 := Bus(StopCmd(false), true, pre4 + [SendStop]);
    var b6 := Bus(StopCmd(true), false, pre4 + [SendStop, Disable]);
    assert WriteSession(TwiWrite.SlaW(buf), b4, [Ok(())]) == WriteSession(TwiWrite.Stop(Err(e)), b6, []) by {
      TwiWrite.SlaErrorSendsStop(buf, b4, e);
      WriteRound(TwiWrite.SlaW(buf), b4, [Ok(())], TwiWrite.Stop(Err(e)), b5);
      assert b5.sent + [Disable] == b6.sent;
    }
    TwiWrite.StopReturns(Err(e), b6);
    assert b6.sent == b0.sent + [SendStart, Disable, SendSlaRw(addr, DirWrite), Disable, SendStop, Disable];
  }

  /** A round on a byte being read: the poll is pending and leaves the state as it was, then the handler runs. */
  lemma ReadByteAck(b: Bus, st: seq<Result<(), Error>>)
    requires b.command.ReadCmd? && b.command.res == None && b.isSet && b.command.idx < b.command.rbuf.Length && |st| > 0
    ensures TwiRead.Fits(TwiRead.Read(true), RunStep(b, st[0], 0)) && InFlight(RunStep(b, st[0], 0))
    ensures ReadSession(TwiRead.Read(true), b, st) == ReadSession(TwiRead.Read(true), RunStep(b, st[0], 0), st[1..])
  {
    TwiRead.PendingLeavesStateUnchanged(TwiRead.Read(true), b);
    ReadRound(TwiRead.Read(true), b, st, TwiRead.Read(true), b);
  }

  /** While a byte is being read the poll is pending; the acknowledgement asks for the next byte, or completes after the last. */
  lemma ReadByteRound(buf: array<bv8>, idx: nat, b: Bus, m: nat)
    requires b.command == ReadCmd(buf, idx, None) && b.isSet && idx < buf.Length && m >= 1
    ensures ReadSession(TwiRead.Read(true), b, Acks(m)) == ReadSession(TwiRead.Read(true),
      if idx + 1 == buf.Length then Bus(ReadCmd(buf, idx + 1, Some(Ok(()))), false, b.sent + [Disable])
      else Bus(ReadCmd(buf, idx + 1, None), true, b.sent + [SendRead(idx + 1 == buf.Length - 1)]), Acks(m - 1))
  {
    var next := if idx + 1 == buf.Length then Bus(ReadCmd(buf, idx + 1, Some(Ok(()))), false, b.sent + [Disable])
      else Bus(ReadCmd(buf, idx + 1, None), true, b.sent + [SendRead(idx + 1 == buf.Length - 1)]);
    assert RunStep(b, Ok(()), 0) == next;
    assert Acks(m)[1..] == Acks(m - 1);
    ReadByteAck(b, Acks(m));
  }

  /** The stop after a finished read. */
  lemma ReadStopPhase(b: Bus, res: Result<(), Error>, m: nat)
    requires b.command.ReadCmd? && b.command.res == Some(res) && !b.isSet && m >= 1
    ensures ReadSession(TwiRead.Read(true), b, Acks(m)) == (Ready(res), Bus(StopCmd(false), false, b.sent + [SendStop, Disable]))
  {
    TwiRead.ReadDoneSendsStop(b, res);
    var b2 := RunStep(Bus(StopCmd(false), true, b.sent + [SendStop]), Ok(()), 0);
    assert b2 == Bus(StopCmd(true), false, b.sent + [SendStop, Disable]);
    TwiRead.StopReturns(res, b2);
    assert Acks(m)[1..] == Acks(m - 1);
  }

  /** The log of a read, split at its first byte. */
  lemma ReadsStart(n: nat, pre: seq<Op>, pre': seq<Op>)
    requires n > 0 && pre == pre'
    ensures pre + [SendRead(n == 1)] + ReadsFrom(1, n) + [Disable, SendStop, Disable] ==
            pre' + ReadsFrom(0, n) + [Disable, SendStop, Disable]
  {
    assert ReadsFrom(0, n) == [SendRead(n == 1)] + ReadsFrom(1, n);
  }

  /** From byte `idx` on, with every byte acknowledged, the read asks for the rest, marking only the final one last. */
  lemma {:induction false} ReadBytesPhase(buf: array<bv8>, idx: nat, b: Bus, m: nat)
    requires b.command == ReadCmd(buf, idx, None) && b.isSet && idx < buf.Length && m >= buf.Length - idx + 1
    ensures ReadSession(TwiRead.Read(true), b, Acks(m)) ==
      (Ready(Ok(())), Bus(StopCmd(false), false, b.sent + ReadsFrom(idx + 1, buf.Length) + [Disable, SendStop, Disable]))
    decreases buf.Length - idx
  {
    ReadByteRound(buf, idx, b, m);
    if idx + 1 == buf.Length {
      var b1 := Bus(ReadCmd(buf, idx + 1, Some(Ok(()))), false, b.sent + [Disable]);
      ReadStopPhase(b1, Ok(()), m - 1);
      assert b1.sent + [SendStop, Disable] == b.sent + ReadsFrom(idx + 1, buf.Length) + [Disable, SendStop, Disable];
    } else {
      var b1 := Bus(ReadCmd(buf, idx + 1, None), true, b.sent + [SendRead(idx + 1 == buf.Length - 1)]);
      ReadBytesPhase(buf, idx + 1, b1, m - 1);
      assert b1.sent + ReadsFrom(idx + 2, buf.Length) == b.sent + ReadsFrom(idx + 1, buf.Length);
    }
  }

  /** The start condition of a read, completed with the first status. */
  lemma ReadStartRound(addr: bv8, buf: array<bv8>, b0: Bus, st: seq<Result<(), Error>>)
    requires |st| > 0
    ensures ReadSession(TwiRead.Start(addr, buf), Raw.Start(b0), st) ==
      ReadSession(TwiRead.Start(addr, buf), Bus(StartCmd(Some(st[0])), false, b0.sent + [SendStart, Disable]), st[1..])
  {
    var b1 := Raw.Start(b0);
    TwiRead.PendingLeavesStateUnchanged(TwiRead.Start(addr, buf), b1);
    ReadRound(TwiRead.Start(addr, buf), b1, st, TwiRead.Start(addr, buf), b1);
    assert b1.sent + [Disable] == b0.sent + [SendStart, Disable];
  }

  /** After a completed start the address goes out (with the write direction, as written). */
  lemma ReadAddressRound(addr: bv8, buf: array<bv8>, pre: seq<Op>, st: seq<Result<(), Error>>)
    requires |st| > 0
    ensures ReadSession(TwiRead.Start(addr, buf), Bus(StartCmd(Some(Ok(()))), false, pre), st) ==
      ReadSession(TwiRead.SlaR(buf), Bus(SlaRwCmd(Some(st[0])), false, pre + [SendSlaRw(addr, DirWrite), Disable]), st[1..])
  {
    var b2 := Bus(StartCmd(Some(Ok(()))), false, pre);
    TwiRead.StartOkAddressesForWrite(addr, buf, b2);
    ReadRound(TwiRead.Start(addr, buf), b2, st, TwiRead.SlaR(buf), Bus(SlaRwCmd(None), true, pre + [SendSlaRw(addr, DirWrite)]));
    assert pre + [SendSlaRw(addr, DirWrite)] + [Disable] == pre + [SendSlaRw(addr, DirWrite), Disable];
  }

  /** An acknowledged address: the first byte is asked for. */
  lemma ReadFirstByteRound(buf: array<bv8>, pre: seq<Op>, m: nat)
    requires buf.Length > 0 && m >= 1
    ensures ReadSession(TwiRead.SlaR(buf), Bus(SlaRwCmd(Some(Ok(()))), false, pre), Acks(m)) ==
      ReadSession(TwiRead.Read(true), Bus(ReadCmd(buf, 0, None), true, pre + [SendRead(buf.Length == 1)]), Acks(m))
  {
    var b4 := Bus(SlaRwCmd(Some(Ok(()))), false, pre);
    var b5 := Bus(ReadCmd(buf, 0, None), true, pre + [SendRead(buf.Length == 1)]);
    TwiRead.SlaOkReads(buf, b4);
    ReadRound(TwiRead.SlaR(buf), b4, Acks(m), TwiRead.Read(true), b5);
    TwiRead.PendingLeavesStateUnchanged(TwiRead.Read(true), b5);
    ReadRound(TwiRead.Read(true), b5, Acks(m), TwiRead.Read(true), b5);
  }

  /** Start and address acknowledged: the first byte is in flight. */
  lemma ReadHeader(addr: bv8, buf: array<bv8>, b0: Bus, n: nat)
    requires buf.Length > 0 && n >= 3
    ensures ReadSession(TwiRead.Start(addr, buf), Raw.Start(b0), Acks(n)) ==
      ReadSession(TwiRead.Read(true), Bus(ReadCmd(buf, 0, None), true, b0.sent + [SendStart, Disable] + [SendSlaRw(addr, DirWrite), Disable] + [SendRead(buf.Length == 1)]), Acks(n - 2))
  {
    var pre2 := b0.sent + [SendStart, Disable];
    var pre4 := pre2 + [SendSlaRw(addr, DirWrite), Disable];
    assert Acks(n)[1..] == Acks(n - 1) && Acks(n - 1)[1..] == Acks(n - 2);
    ReadStartRound(addr, buf, b0, Acks(n));
    ReadAddressRound(addr, buf, pre2, Acks(n - 1));
    ReadFirstByteRound(buf, pre4, n - 2);
  }

  /**
    * A read into a non-empty buffer on an idle interface, every step
    * acknowledged: start, address (with the write direction, as written),
    * one read per byte with only the final one marked last, stop, and `Ok`.
    */
  lemma ReadCompletes(addr: bv8, buf: array<bv8>, b0: Bus, n: nat)
    requires !b0.isSet && buf.Length > 0 && n >= buf.Length + 3
    ensures TwiRead.New(b0, addr, buf) == (TwiRead.Start(addr, buf), Raw.Start(b0))
    ensures ReadSession(TwiRead.Start(addr, buf), Raw.Start(b0), Acks(n)) ==
      (Ready(Ok(())), Bus(StopCmd(false), false,
        b0.sent + [SendStart, Disable, SendSlaRw(addr, DirWrite), Disable] + ReadsFrom(0, buf.Length) + [Disable, SendStop, Disable]))
  {
    var pre2 := b0.sent + [SendStart, Disable];
    var pre4 := pre2 + [SendSlaRw(addr, DirWrite), Disable];
    var b5 := Bus(ReadCmd(buf, 0, None), true, pre4 + [SendRead(buf.Length == 1)]);
    ReadHeader(addr, buf, b0, n);
    ReadBytesPhase(buf, 0, b5, n - 2);
    ReadsStart(buf.Length, pre4, b0.sent + [SendStart, Disable, SendSlaRw(addr, DirWrite), Disable]);
  }

  /**
    * The bytes the peripheral delivers for a read in flight land in the
    * buffer in order, and the read completes after the last of them,
    * having asked for each following byte on the way.
    */
  method Receive(twi: Twi, w: Signal, bytes: seq<bv8>) returns (done: bool)
    requires twi.Valid() && twi.isSet && twi.command.ReadCmd? && twi.command.idx == 0 && twi.command.res == None
    requires |bytes| == twi.command.rbuf.Length
    modifies twi, w, twi.command.rbuf
    ensures done && !twi.isSet && twi.command == ReadCmd(old(twi.command.rbuf), |bytes|, Some(Ok(())))
    ensures old(twi.command.rbuf)[..] == bytes
    ensures twi.sent == old(twi.sent) + ReadsFrom(1, |bytes|) + [Disable]
  {
    var buf := twi.command.rbuf;
    var i := 0;
    done := false;
    while i < |bytes|
      invariant 0 <= i <= |bytes| && twi.Valid()
      invariant i < |bytes| ==> !done && twi.isSet && twi.command == ReadCmd(buf, i, None)
      invariant i < |bytes| ==> twi.sent == old(twi.sent) + ReadsFrom(1, |bytes|)[..i]
      invariant i == |bytes| ==> done && !twi.isSet && twi.command == ReadCmd(buf, i, Some(Ok(())))
      invariant i == |bytes| ==> twi.sent == old(twi.sent) + ReadsFrom(1, |bytes|) + [Disable]
      invariant buf[..i] == bytes[..i]
    {
      done := twi.Run(w, true, Ok(()), bytes[i]);
      if i + 1 < |bytes| {
        assert ReadsFrom(1, |bytes|)[..i + 1] == ReadsFrom(1, |bytes|)[..i] + [SendRead(i + 1 == |bytes| - 1)];
      } else {
        assert ReadsFrom(1, |bytes|)[..i] == ReadsFrom(1, |bytes|);
      }
      i := i + 1;
    }
    assert buf[..] == buf[..i];
  }
}
