/**
 * The driver's storage as the source keeps it: static variables updated in
 * place by twi_WriteTo and by the interrupt handler, a fixed 32-byte buffer
 * filled by a loop, and the register writes recorded on an append-only trace.
 * Every method that has a counterpart in TwiSpec is proved to move the state
 * exactly as that function. Two operations take the corrected behaviour rather than the code's:
 * Init programs the bit-rate divisor the formula means, and the handler's
 * failure branch records the status that caused the failure.
 */
module TwoWire {
  import opened TwiBits
  import TwiClock
  import S = TwiSpec

  class Twi {
    var state: S.Mode
    var sendStop: bool
    var inRepStart: bool
    var lastError: bv8
    var slaRw: bv8
    const buffer: array<bv8>
    var length: nat
    var index: nat
    /** Every write to TWBR, TWCR and TWDR, oldest first. */
    var bus: seq<S.RegWrite>

    /** The driver's state as a value. */
    function View(): S.Driver
      reads this, buffer
    {
      S.Driver(state, sendStop, inRepStart, lastError, slaRw, buffer[..], length, index, bus)
    }

    ghost predicate Valid()
      reads this, buffer
    {
      S.WellFormed(View())
    }

    /** The static initialisers. */
    constructor ()
      ensures Valid() && fresh(buffer)
      ensures View() == S.Boot()
    {
      state, sendStop, inRepStart := S.Available, true, false;
      lastError, slaRw := 0, 0;
      buffer := new bv8[S.BUFFER_LENGTH](_ => 0);
      length, index := 0, 0;
      bus := [];
    }

    method WriteTwcr(value: bv8)
      modifies this`bus
      ensures bus == old(bus) + [S.Control(value)]
    {
      bus := bus + [S.Control(value)];
    }

    method WriteTwdr(value: bv8)
      modifies this`bus
      ensures bus == old(bus) + [S.Data(value)]
    {
      bus := bus + [S.Data(value)];
    }

    /**
     * twi_Init, with the bit-rate divisor computed from the configured
     * frequencies (the code's 16-bit parameter is TwiClock.BitRateAsWritten).
     * The prescaler bits of TWSR are not modelled.
     */
    method Init()
      requires Valid()
      modifies this
      ensures Valid()
      ensures View() == S.Init(old(View()))
    {
      state := S.Available;
      bus := bus + [S.BitRate(TwiClock.BitRateRegister())];
      WriteTwcr(ControlInterruptsOn() | ControlEnable() | ControlAcknowledge());
    }

    /** handler_TWI_Reply. */
    method Reply(ack: bool)
      modifies this`bus
      ensures bus == old(bus) + [S.Control(ReplyControl(ack))]
    {
      if ack {
        WriteTwcr(OnState() | ControlHandled());
      } else {
        WriteTwcr(OnNoAck() | ControlHandled());
      }
    }

    /** handler_TWI_Stop; the stop condition is taken to complete before the poll on TWSTO. */
    method Stop()
      modifies this`bus, this`state
      ensures bus == old(bus) + [S.Control(StopControl())]
      ensures state == S.Available
      ensures View() == S.Stop(old(View()))
    {
      WriteTwcr(OnState() | ControlHandled() | ControlSendStop());
      state := S.Available;
    }

    /**
     * twi_Master_TX_Handler, with the failing status recorded in lastError
     * (the code re-reads the status register; see TwiSpec.FailAsWritten).
     */
    method MasterTxHandler(status: bv8)
      requires Valid()
      modifies this
      ensures Valid()
      ensures View() == S.MasterTransmit(old(View()), status)
    {
      if status == TW_START || status == TW_REP_START {
        WriteTwdr(slaRw);
        Reply(true);
      } else if status == TW_MT_SLA_ACK || status == TW_MT_DATA_ACK {
        if index < length {
          WriteTwdr(buffer[index]);
          index := index + 1;
          Reply(true);
        } else if sendStop {
          Stop();
        }
      } else if status == TW_MT_DATA_NACK || status == TW_MT_SLA_NACK || status == TW_MT_ARB_LOST {
        Stop();
        lastError := status;
      }
    }

    /**
     * ISR(TWI_vect). twi_Master_RX_Handler is a verbatim copy of the transmit
     * handler, so master-receive mode runs the same method.
     */
    method Isr(status: bv8)
      requires Valid()
      modifies this
      ensures Valid()
      ensures View() == S.Step(old(View()), status)
    {
      match state
      case MasterTx => MasterTxHandler(status);
      case MasterRx => MasterTxHandler(status);
      case _ =>
    }

    /** The body of twi_WriteTo between its two waits. */
    method Setup(address: bv8, data: seq<bv8>, sendStop: bool)
      requires Valid() && |data| <= S.BUFFER_LENGTH
      modifies this, buffer
      ensures Valid()
      ensures View() == S.Setup(old(View()), address, data, sendStop)
    {
      ghost var d := View();
      state := S.MasterTx;
      this.sendStop := sendStop;
      lastError := S.NO_ERROR;
      index := 0;
      length := |data|;
      Load(data);
      slaRw := TW_WRITE;
      slaRw := slaRw | (address << 1);
      assert View() == d.(state := S.MasterTx, sendStop := sendStop, lastError := S.NO_ERROR,
                          index := 0, length := |data|,
                          buffer := data + d.buffer[|data|..], slaRw := SlaW(address));
      if inRepStart {
        inRepStart := false;
        WriteTwdr(slaRw);
        WriteTwcr(ControlHandled() | OnState());
      } else {
        WriteTwcr(ControlHandled() | OnState() | ControlSendStart());
      }
    }

    /** The copy loop of twi_WriteTo: the caller's bytes to the front of the buffer. */
    method Load(data: seq<bv8>)
      requires |data| <= buffer.Length
      modifies buffer
      ensures buffer[..] == data + old(buffer[..])[|data|..]
    {
      for i := 0 to |data|
        invariant buffer[..i] == data[..i]
        invariant buffer[i..] == old(buffer[..])[i..]
      {
        buffer[i] := data[i];
      }
      assert buffer[..] == buffer[..|data|] + buffer[|data|..];
    }

    /**
     * twi_WriteTo. The wait for an idle driver becomes the precondition; the
     * wait for completion runs the interrupt handler once for each bus event
     * in `events` while the transfer is in progress.
     */
    method WriteTo(address: bv8, data: seq<bv8>, wait: bool, sendStop: bool, events: seq<bv8>)
      returns (outcome: S.Outcome)
      requires Valid() && |data| < 256
      requires |data| <= S.BUFFER_LENGTH ==> state == S.Available
      modifies this, buffer
      ensures Valid()
      ensures (View(), outcome) == S.WriteTo(old(View()), address, data, wait, sendStop, events)
    {
      if S.BUFFER_LENGTH < |data| {
        return S.Returned(1);
      }
      Setup(address, data, sendStop);
      ghost var armed := View();
      var i := 0;
      while wait && state == S.MasterTx && i < |events|
        invariant Valid() && i <= |events|
        invariant wait ==> S.Await(View(), events[i..]) == S.Await(armed, events)
        invariant !wait ==> View() == armed
      {
        assert events[i..][1..] == events[i + 1..];
        Isr(events[i]);
        i := i + 1;
      }
      if wait && state == S.MasterTx {
        outcome := S.StillWaiting;
      } else {
        outcome := S.Returned(S.ResultCode(lastError));
      }
    }
  }
}
