/**
 * What the transmit state machine guarantees: one lemma per case of the
 * interrupt handler, including the statuses its switch does not list, and whole transfers against a peripheral that
 * acknowledges, refuses its address, or stops accepting data.
 */
module TwiProperties {
  import opened TwiBits
  import opened TwiSpec

  predicate IsAck(status: bv8)
  {
    status == TW_MT_SLA_ACK || status == TW_MT_DATA_ACK
  }

  predicate IsFailure(status: bv8)
  {
    status == TW_MT_DATA_NACK || status == TW_MT_SLA_NACK || status == TW_MT_ARB_LOST
  }

  predicate AllAcks(events: seq<bv8>)
  {
    forall j :: 0 <= j < |events| ==> IsAck(events[j])
  }

  /** The register writes that shift `bytes` out: each byte into TWDR, then a reply in TWCR. */
  function Frames(bytes: seq<bv8>): seq<RegWrite>
  {
    if bytes == [] then [] else [Data(bytes[0]), Control(ReplyControl(true))] + Frames(bytes[1..])
  }

  /** The register writes of a transfer up to and including its address byte. */
  function Opening(address: bv8): seq<RegWrite>
  {
    [Control(StartControl()), Data(SlaW(address)), Control(ReplyControl(true))]
  }

  // ---------------------------------------------------------------------------
  // One interrupt in master-transmit mode

  /** A (repeated) start was sent: load SLA+W and release the step, acknowledge on. */
  lemma StartLoadsAddress(d: Driver, status: bv8)
    requires WellFormed(d) && d.state == MasterTx
    requires status == TW_START || status == TW_REP_START
    ensures Step(d, status) == d.(bus := d.bus + [Data(d.slaRw), Control(ReplyControl(true))])
  {
  }

  /** The previous byte was acknowledged and data remains: send the next byte. */
  lemma AckSendsNextByte(d: Driver, status: bv8)
    requires WellFormed(d) && d.state == MasterTx && IsAck(status)
    requires d.index < d.length
    ensures Step(d, status)
         == d.(index := d.index + 1,
               bus := d.bus + [Data(d.buffer[d.index]), Control(ReplyControl(true))])
  {
  }

  /** The last byte was acknowledged and a stop is wanted: stop, go idle, no error. */
  lemma AckAfterLastByteStops(d: Driver, status: bv8)
    requires WellFormed(d) && d.state == MasterTx && IsAck(status)
    requires d.index == d.length && d.sendStop
    ensures Step(d, status) == d.(state := Available, bus := d.bus + [Control(StopControl())])
    ensures d.lastError == NO_ERROR ==> ResultCode(Step(d, status).lastError) == 0
  {
  }

  /** The last byte was acknowledged and no stop is wanted: the handler does nothing at all. */
  lemma AckAfterLastByteHoldsBus(d: Driver, status: bv8)
    requires WellFormed(d) && d.state == MasterTx && IsAck(status)
    requires d.index == d.length && !d.sendStop
    ensures Step(d, status) == d
  {
  }

  /** A refused address, refused data or lost arbitration: stop, go idle, record the status. */
  lemma FailureStopsAndRecords(d: Driver, status: bv8)
    requires WellFormed(d) && d.state == MasterTx && IsFailure(status)
    ensures Step(d, status)
         == d.(state := Available, lastError := status, bus := d.bus + [Control(StopControl())])
    ensures status == TW_MT_SLA_NACK ==> ResultCode(Step(d, status).lastError) == 2
    ensures status == TW_MT_DATA_NACK ==> ResultCode(Step(d, status).lastError) == 3
    ensures status == TW_MT_ARB_LOST ==> ResultCode(Step(d, status).lastError) == 4
  {
  }

  /** A status the handler's switch does not list changes nothing and writes no register. */
  lemma UnlistedStatusIgnored(d: Driver, status: bv8)
    requires WellFormed(d) && d.state == MasterTx
    requires status !in {TW_START, TW_REP_START, TW_MT_SLA_ACK, TW_MT_DATA_ACK,
                         TW_MT_DATA_NACK, TW_MT_SLA_NACK, TW_MT_ARB_LOST}
    ensures Step(d, status) == d
  {
  }

  /** Outside the master modes the interrupt changes nothing and writes no register. */
  lemma OtherModesIgnoreInterrupts(d: Driver, status: bv8)
    requires WellFormed(d) && d.state != MasterTx && d.state != MasterRx
    ensures Step(d, status) == d
  {
  }

  /**
   * Failure branch as written: the status register is read after the stop,
   * so a refused address or refused data is reported as "other error".
   */
  lemma FailAsWrittenLosesCause(d: Driver)
    ensures ResultCode(FailAsWritten(d, TW_MT_SLA_NACK).lastError) == 4
    ensures ResultCode(FailAsWritten(d, TW_MT_DATA_NACK).lastError) == 4
    ensures ResultCode(Fail(d, TW_MT_SLA_NACK).lastError) == 2
    ensures ResultCode(Fail(d, TW_MT_DATA_NACK).lastError) == 3
  {
  }

  // ---------------------------------------------------------------------------
  // Sequences of interrupts

  /** Waiting through `a` then `b` is waiting through `a + b`. */
  lemma {:induction false} AwaitAppend(d: Driver, a: seq<bv8>, b: seq<bv8>)
    requires WellFormed(d)
    ensures Await(d, a + b) == Await(Await(d, a), b)
    decreases |a|
  {
    if a == [] {
      assert a + b == b;
    } else if d.state == MasterTx {
      assert (a + b)[0] == a[0];
      assert (a + b)[1..] == a[1..] + b;
      AwaitAppend(Step(d, a[0]), a[1..], b);
    }
  }

  /** Acknowledgements while data remains send the buffer's bytes in order, one each. */
  lemma {:induction false} AcksSendInOrder(d: Driver, acks: seq<bv8>)
    requires WellFormed(d) && d.state == MasterTx && AllAcks(acks)
    requires d.index + |acks| <= d.length
    ensures Await(d, acks)
         == d.(index := d.index + |acks|,
               bus := d.bus + Frames(d.buffer[d.index..d.index + |acks|]))
    decreases |acks|
  {
    var sent := d.buffer[d.index..d.index + |acks|];
    if acks == [] {
      assert sent == [];
      assert d.bus + Frames(sent) == d.bus;
    } else {
      AckSendsNextByte(d, acks[0]);
      var next := Step(d, acks[0]);
      assert AllAcks(acks[1..]) by {
        forall j | 0 <= j < |acks[1..]| ensures IsAck(acks[1..][j]) {
          assert acks[1..][j] == acks[j + 1];
        }
      }
      AcksSendInOrder(next, acks[1..]);
      assert sent[1..] == next.buffer[next.index..next.index + |acks[1..]|];
      FramesAfter(d.bus, sent);
    }
  }

  /** Shifting out a non-empty run of bytes: the first byte's frame, then the rest. */
  lemma FramesAfter(bus: seq<RegWrite>, sent: seq<bv8>)
    requires sent != []
    ensures bus + Frames(sent)
         == bus + [Data(sent[0]), Control(ReplyControl(true))] + Frames(sent[1..])
  {
  }

  /** Once the buffer is drained and no stop is wanted, acknowledgements change nothing. */
  lemma {:induction false} HeldBusIgnoresAcks(d: Driver, acks: seq<bv8>)
    requires WellFormed(d) && d.state == MasterTx && AllAcks(acks)
    requires d.index == d.length && !d.sendStop
    ensures Await(d, acks) == d
    decreases |acks|
  {
    if acks != [] {
      assert IsAck(acks[0]);
      assert Step(d, acks[0]) == d;
      assert AllAcks(acks[1..]) by {
        forall j | 0 <= j < |acks[1..]| ensures IsAck(acks[1..][j]) {
          assert acks[1..][j] == acks[j + 1];
        }
      }
      HeldBusIgnoresAcks(d, acks[1..]);
    }
  }

  // ---------------------------------------------------------------------------
  // What goes to TWDR

  lemma {:induction false} DataWritesAppend(a: seq<RegWrite>, b: seq<RegWrite>)
    ensures DataWrites(a + b) == DataWrites(a) + DataWrites(b)
    decreases |a|
  {
    if a != [] {
      assert (a + b)[0] == a[0];
      assert (a + b)[1..] == a[1..] + b;
      DataWritesAppend(a[1..], b);
    } else {
      assert a + b == b;
    }
  }

  lemma {:induction false} DataWritesFrames(bytes: seq<bv8>)
    ensures DataWrites(Frames(bytes)) == bytes
    decreases |bytes|
  {
    if bytes != [] {
      var head := [Data(bytes[0]), Control(ReplyControl(true))];
      DataWritesAppend(head, Frames(bytes[1..]));
      assert DataWrites(head) == [bytes[0]] by {
        assert head[1..][1..] == [];
      }
      DataWritesFrames(bytes[1..]);
    }
  }

  /** Of a start request, an address byte and a reply, only the address byte reaches TWDR. */
  lemma DataWritesOfOpening(start: bv8, sla: bv8, reply: bv8)
    ensures DataWrites([Control(start), Data(sla), Control(reply)]) == [sla]
  {
    var w := [Control(start), Data(sla), Control(reply)];
    assert w[1..] == [Data(sla), Control(reply)];
    assert w[1..][1..] == [Control(reply)];
    assert w[1..][1..][1..] == [];
    assert DataWrites(w[1..][1..]) == [];
  }

  /** The TWDR bytes of a completed transfer: SLA+W, then the data bytes. */
  lemma DataWritesOfTransfer(address: bv8, bytes: seq<bv8>)
    ensures DataWrites(Opening(address) + Frames(bytes) + [Control(StopControl())])
         == [SlaW(address)] + bytes
  {
    var stop := [Control(StopControl())];
    assert Opening(address) + Frames(bytes) + stop == Opening(address) + (Frames(bytes) + stop);
    DataWritesAppend(Opening(address), Frames(bytes) + stop);
    DataWritesAppend(Frames(bytes), stop);
    DataWritesFrames(bytes);
    DataWritesOfOpening(StartControl(), SlaW(address), ReplyControl(true));
    assert DataWrites(stop) == [] by {
      assert stop[1..] == [];
    }
  }

  // ---------------------------------------------------------------------------
  // Whole transfers

  lemma DropPrefix<T>(prefix: seq<T>, a: seq<T>, b: seq<T>, c: seq<T>)
    ensures (prefix + a + b + c)[|prefix|..] == a + b + c
  {
    assert prefix + a + b + c == prefix + (a + b + c);
  }

  lemma AllAcksSplit(acks: seq<bv8>, n: nat)
    requires AllAcks(acks) && n <= |acks|
    ensures AllAcks(acks[..n]) && AllAcks(acks[n..]) && acks == acks[..n] + acks[n..]
  {
    forall j | 0 <= j < n ensures IsAck(acks[..n][j]) {
      assert acks[..n][j] == acks[j];
    }
    forall j | 0 <= j < |acks| - n ensures IsAck(acks[n..][j]) {
      assert acks[n..][j] == acks[n + j];
    }
  }

  /** A waiting call from an idle driver: setup, the events, then the classification. */
  lemma WaitingWriteTo(d: Driver, address: bv8, data: seq<bv8>, sendStop: bool, events: seq<bv8>)
    requires WellFormed(d) && d.state == Available && |data| <= BUFFER_LENGTH
    ensures WriteTo(d, address, data, true, sendStop, events).0
         == Await(Setup(d, address, data, sendStop), events)
    ensures WriteTo(d, address, data, true, sendStop, events).1
         == (var done := Await(Setup(d, address, data, sendStop), events);
             if done.state == MasterTx then StillWaiting else Returned(ResultCode(done.lastError)))
  {
  }

  /** The driver after setup, the address byte, and `k` acknowledged data bytes. */
  function Transmitted(d: Driver, address: bv8, data: seq<bv8>, sendStop: bool, k: nat): Driver
    requires WellFormed(d) && k <= |data| <= BUFFER_LENGTH
  {
    Setup(d, address, data, sendStop).(index := k, bus := d.bus + Opening(address) + Frames(data[..k]))
  }

  /**
   * From a reachable idle driver: setup, the start's interrupt and `|acks|`
   * acknowledgements leave SLA+W and the first `|acks|` bytes on the bus.
   */
  lemma StartThenAcks(d: Driver, address: bv8, data: seq<bv8>, sendStop: bool,
                      acks: seq<bv8>, tail: seq<bv8>)
    requires Reachable(d) && |data| <= BUFFER_LENGTH
    requires |acks| <= |data| && AllAcks(acks)
    ensures Await(Setup(d, address, data, sendStop), [TW_START] + acks + tail)
         == Await(Transmitted(d, address, data, sendStop, |acks|), tail)
  {
    var armed := Setup(d, address, data, sendStop);
    var started := armed.(bus := d.bus + Opening(address));
    assert Step(armed, TW_START) == started by {
      assert armed.bus == d.bus + [Control(StartControl())];
    }
    var events := [TW_START] + acks + tail;
    assert events[0] == TW_START;
    assert events[1..] == acks + tail;
    assert Await(armed, events) == Await(started, acks + tail);
    AwaitAppend(started, acks, tail);
    AcksSendInOrder(started, acks);
    assert started.buffer[0..|acks|] == data[..|acks|];
  }

  /** A drained transfer with a stop wanted: the next acknowledgement ends it, later events are ignored. */
  lemma LastAckStops(d: Driver, address: bv8, data: seq<bv8>, ack: bv8, rest: seq<bv8>)
    requires Reachable(d) && |data| <= BUFFER_LENGTH && IsAck(ack)
    ensures Await(Transmitted(d, address, data, true, |data|), [ack] + rest)
         == Transmitted(d, address, data, true, |data|)
              .(state := Available,
                bus := d.bus + Opening(address) + Frames(data) + [Control(StopControl())])
  {
    var drained := Transmitted(d, address, data, true, |data|);
    assert data[..|data|] == data;
    assert ([ack] + rest)[0] == ack;
    assert ([ack] + rest)[1..] == rest;
  }

  /**
   * A peripheral that acknowledges its address and every byte receives SLA+W
   * and then exactly the caller's bytes, in order, followed by a stop; the
   * call returns 0 and the driver is idle again. Later events are ignored.
   */
  lemma AckingPeripheralReceivesAll(d: Driver, address: bv8, data: seq<bv8>,
                                    acks: seq<bv8>, rest: seq<bv8>)
    requires Reachable(d) && d.state == Available && |data| <= BUFFER_LENGTH
    requires |acks| == |data| + 1 && AllAcks(acks)
    ensures var r := WriteTo(d, address, data, true, true, [TW_START] + acks + rest);
            && r.1 == Returned(0)
            && r.0.state == Available && r.0.lastError == NO_ERROR && r.0.index == |data|
            && r.0.bus == d.bus + Opening(address) + Frames(data) + [Control(StopControl())]
            && DataWrites(r.0.bus[|d.bus|..]) == [SlaW(address)] + data
  {
    var stopped := Transmitted(d, address, data, true, |data|)
                     .(state := Available,
                       bus := d.bus + Opening(address) + Frames(data) + [Control(StopControl())]);
    assert WriteTo(d, address, data, true, true, [TW_START] + acks + rest) == (stopped, Returned(0)) by {
      AckedTransferStops(d, address, data, acks, rest);
    }
    assert DataWrites(stopped.bus[|d.bus|..]) == [SlaW(address)] + data by {
      DropPrefix(d.bus, Opening(address), Frames(data), [Control(StopControl())]);
      DataWritesOfTransfer(address, data);
    }
  }

  lemma AckedTransferStops(d: Driver, address: bv8, data: seq<bv8>, acks: seq<bv8>, rest: seq<bv8>)
    requires Reachable(d) && |data| <= BUFFER_LENGTH
    requires |acks| == |data| + 1 && AllAcks(acks)
    ensures Await(Setup(d, address, data, true), [TW_START] + acks + rest)
         == Transmitted(d, address, data, true, |data|)
              .(state := Available,
                bus := d.bus + Opening(address) + Frames(data) + [Control(StopControl())])
  {
    var n := |data|;
    var body := acks[..n];
    AllAcksSplit(acks, n);
    var tail := [acks[n]] + rest;
    assert acks[n..] == [acks[n]];
    assert [TW_START] + acks + rest == [TW_START] + body + tail;
    StartThenAcks(d, address, data, true, body, tail);
    assert IsAck(acks[n]);
    LastAckStops(d, address, data, acks[n], rest);
  }

  /**
   * A transfer that fails after `k` acknowledgements, the address's and then
   * k - 1 data bytes' (k = 0: the address itself was refused or arbitration
   * was lost): the data bytes sent are the first `k` of the caller's, the last
   * of them the one the failure answers, then a stop follows at once, and the
   * call reports 2, 3 or 4 according to the failing status.
   */
  lemma FailureEndsTransfer(d: Driver, address: bv8, data: seq<bv8>, sendStop: bool,
                            acks: seq<bv8>, failure: bv8, rest: seq<bv8>)
    requires Reachable(d) && d.state == Available && |data| <= BUFFER_LENGTH
    requires |acks| <= |data| && AllAcks(acks) && IsFailure(failure)
    ensures var r := WriteTo(d, address, data, true, sendStop, [TW_START] + acks + ([failure] + rest));
            && r.1 == Returned(ResultCode(failure))
            && r.0.state == Available && r.0.lastError == failure && r.0.index == |acks|
            && r.0.bus == d.bus + Opening(address) + Frames(data[..|acks|]) + [Control(StopControl())]
  {
    var tail := [failure] + rest;
    WaitingWriteTo(d, address, data, sendStop, [TW_START] + acks + tail);
    StartThenAcks(d, address, data, sendStop, acks, tail);
    var sent := Transmitted(d, address, data, sendStop, |acks|);
    var failed := sent.(state := Available, lastError := failure,
                        bus := sent.bus + [Control(StopControl())]);
    assert Await(sent, tail) == failed by {
      assert tail[0] == failure;
      assert tail[1..] == rest;
    }
  }

  /**
   * A peripheral that refuses its address: the only byte on TWDR is SLA+W, a
   * stop follows immediately, and the call returns 2.
   */
  lemma AddressNackStopsAtOnce(d: Driver, address: bv8, data: seq<bv8>, sendStop: bool,
                               rest: seq<bv8>)
    requires Reachable(d) && d.state == Available && |data| <= BUFFER_LENGTH
    ensures var r := WriteTo(d, address, data, true, sendStop, [TW_START, TW_MT_SLA_NACK] + rest);
            && r.1 == Returned(2)
            && r.0.bus == d.bus + Opening(address) + [Control(StopControl())]
            && DataWrites(r.0.bus[|d.bus|..]) == [SlaW(address)]
  {
    var none: seq<bv8> := [];
    FailureEndsTransfer(d, address, data, sendStop, none, TW_MT_SLA_NACK, rest);
    assert [TW_START] + none + ([TW_MT_SLA_NACK] + rest) == [TW_START, TW_MT_SLA_NACK] + rest;
    assert data[..0] == none;
    var delta := Opening(address) + [Control(StopControl())];
    assert Opening(address) + Frames(none) + [Control(StopControl())] == delta;
    assert d.bus + Opening(address) + Frames(none) + [Control(StopControl())] == d.bus + delta;
    assert d.bus + Opening(address) + [Control(StopControl())] == d.bus + delta;
    assert (d.bus + delta)[|d.bus|..] == delta;
    DataWritesOfTransfer(address, none);
    assert [SlaW(address)] + none == [SlaW(address)];
  }

  /**
   * Without a stop, a waiting call never returns: once the buffer is drained
   * the handler holds the bus, clears no TWINT, and the driver stays in
   * master-transmit mode whatever acknowledgements follow.
   */
  lemma HoldingTheBusNeverReturns(d: Driver, address: bv8, data: seq<bv8>, acks: seq<bv8>)
    requires Reachable(d) && d.state == Available && |data| <= BUFFER_LENGTH
    requires |data| <= |acks| && AllAcks(acks)
    ensures var r := WriteTo(d, address, data, true, false, [TW_START] + acks);
            && r.1 == StillWaiting
            && r.0.state == MasterTx && r.0.index == r.0.length == |data|
            && r.0.bus == d.bus + Opening(address) + Frames(data)
  {
    var drained := Transmitted(d, address, data, false, |data|);
    assert WriteTo(d, address, data, true, false, [TW_START] + acks) == (drained, StillWaiting) by {
      HeldTransferStaysArmed(d, address, data, acks);
    }
    assert drained.bus == d.bus + Opening(address) + Frames(data) by {
      assert data[..|data|] == data;
    }
  }

  lemma HeldTransferStaysArmed(d: Driver, address: bv8, data: seq<bv8>, acks: seq<bv8>)
    requires Reachable(d) && |data| <= BUFFER_LENGTH
    requires |data| <= |acks| && AllAcks(acks)
    ensures Await(Setup(d, address, data, false), [TW_START] + acks)
         == Transmitted(d, address, data, false, |data|)
  {
    var n := |data|;
    var body, tail := acks[..n], acks[n..];
    AllAcksSplit(acks, n);
    assert [TW_START] + acks == [TW_START] + body + tail;
    StartThenAcks(d, address, data, false, body, tail);
    HeldBusIgnoresAcks(Transmitted(d, address, data, false, n), tail);
  }

  /**
   * The first transfer of the demo loop: twi_WriteTo(0x70, [0x21], 1, 1) right
   * after twi_Init, answered by START, SLA_ACK and DATA_ACK. TWDR receives
   * 0xE0 then 0x21, a stop is the last write, and the call returns 0.
   */
  lemma OscillatorOnTransfer()
    ensures var d := Init(Boot());
            var r := WriteTo(d, 0x70, [0x21], true, true, [TW_START, TW_MT_SLA_ACK, TW_MT_DATA_ACK]);
            && r.1 == Returned(0)
            && r.0.bus[|d.bus|..] == [Control(0xE5), Data(0xE0), Control(0xC5),
                                     Data(0x21), Control(0xC5), Control(0xD5)]
            && DataWrites(r.0.bus[|d.bus|..]) == [0xE0, 0x21]
  {
    var d := Init(Boot());
    var acks := [TW_MT_SLA_ACK, TW_MT_DATA_ACK];
    assert AllAcks(acks);
    AckingPeripheralReceivesAll(d, 0x70, [0x21], acks, []);
    assert [TW_START] + acks + [] == [TW_START, TW_MT_SLA_ACK, TW_MT_DATA_ACK];
    assert Frames([0x21]) == [Data(0x21), Control(ReplyControl(true))] by {
      assert [0x21 as bv8][1..] == [];
    }
  }
}
