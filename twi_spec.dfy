/**
 * The driver's state as a value, and the transitions of twi_WriteTo and of the
 * TWI interrupt handler as functions on it. The class in module TwoWire is
 * proved to follow these functions step by step.
 */
module TwiSpec {
  import opened TwiBits
  import TwiClock

  const BUFFER_LENGTH: nat := 32
  /** twi_LastError's "no error occurred" sentinel. */
  const NO_ERROR: bv8 := 0xFF

  /** twi_State: the values TWI_AVAILABLE .. TWI_SLAVE_TX. */
  datatype Mode = Available | MasterRx | MasterTx | SlaveRx | SlaveTx

  /** One write to a register of the bus controller. */
  datatype RegWrite =
    | Control(twcr: bv8)   // TWCR
    | Data(twdr: bv8)      // TWDR
    | BitRate(twbr: bv8)   // TWBR

  /** The driver's static variables, and every register write issued so far. */
  datatype Driver = Driver(
    state: Mode,
    sendStop: bool,
    inRepStart: bool,
    lastError: bv8,
    slaRw: bv8,
    buffer: seq<bv8>,
    length: nat,
    index: nat,
    bus: seq<RegWrite>)

  /** What a twi_WriteTo call does: it returns a code, or is still waiting for the bus. */
  datatype Outcome = Returned(code: bv8) | StillWaiting

  predicate WellFormed(d: Driver)
  {
    |d.buffer| == BUFFER_LENGTH && d.index <= d.length <= BUFFER_LENGTH
  }

  /**
   * The states the driver can reach: nothing ever sets twi_InRepStart or
   * enters master-receive mode.
   */
  predicate Reachable(d: Driver)
  {
    WellFormed(d) && !d.inRepStart && (d.state == Available || d.state == MasterTx)
  }

  /** The fields a bus event never changes: the request being transferred. */
  predicate SameRequest(d: Driver, r: Driver)
  {
    r.buffer == d.buffer && r.length == d.length && r.slaRw == d.slaRw
    && r.sendStop == d.sendStop && r.inRepStart == d.inRepStart
  }

  /** Only the register writes that went to TWDR, in order. */
  function DataWrites(w: seq<RegWrite>): (bytes: seq<bv8>)
    ensures |bytes| <= |w|
  {
    if w == [] then []
    else if w[0].Data? then [w[0].twdr] + DataWrites(w[1..])
    else DataWrites(w[1..])
  }

  /** The static initialisers: idle, no transfer, zeroed buffer, nothing on the bus yet. */
  function Boot(): (d: Driver)
    ensures Reachable(d) && d.state == Available && d.bus == []
  {
    Driver(Available, true, false, 0, 0, seq(BUFFER_LENGTH, _ => 0), 0, 0, [])
  }

  /**
   * twi_Init: back to idle, program the bit rate, enable the interface. The
   * bit rate is the divisor the formula means, TwiClock.BitRateRegister, not
   * the value the code's 16-bit parameter yields.
   */
  function Init(d: Driver): (r: Driver)
    ensures r.state == Available
    ensures r.bus == d.bus + [BitRate(TwiClock.BitRateRegister()), Control(OnState())]
    ensures r.(state := d.state, bus := d.bus) == d
    ensures WellFormed(d) && !d.inRepStart ==> Reachable(r)
  {
    d.(state := Available,
       bus := d.bus + [BitRate(TwiClock.BitRateRegister()),
                       Control(ControlInterruptsOn() | ControlEnable() | ControlAcknowledge())])
  }

  /** twi_WriteTo's result mapping of twi_LastError. */
  function ResultCode(lastError: bv8): (code: bv8)
    ensures code == 0 <==> lastError == NO_ERROR
    ensures code == 2 <==> lastError == TW_MT_SLA_NACK
    ensures code == 3 <==> lastError == TW_MT_DATA_NACK
    ensures code == 4 <==> lastError !in {NO_ERROR, TW_MT_SLA_NACK, TW_MT_DATA_NACK}
  {
    if lastError == NO_ERROR then 0
    else if lastError == TW_MT_SLA_NACK then 2
    else if lastError == TW_MT_DATA_NACK then 3
    else 4
  }

  /**
   * The part of twi_WriteTo between the wait for an idle bus and the wait for
   * completion: arm the transmitter, load the buffer, build SLA+W and trigger
   * the bus.
   */
  function Setup(d: Driver, address: bv8, data: seq<bv8>, sendStop: bool): (r: Driver)
    requires WellFormed(d) && |data| <= BUFFER_LENGTH
    ensures WellFormed(r)
    ensures r.state == MasterTx && r.sendStop == sendStop && r.lastError == NO_ERROR
    ensures r.index == 0 && r.length == |data|
    ensures r.buffer[..|data|] == data && r.buffer[|data|..] == d.buffer[|data|..]
    ensures r.slaRw == SlaW(address) && !r.inRepStart
    ensures d.inRepStart ==> r.bus == d.bus + [Data(SlaW(address)), Control(ReplyControl(true))]
    ensures !d.inRepStart ==> r.bus == d.bus + [Control(StartControl())]
    ensures Reachable(d) ==> Reachable(r)
  {
    var sla := SlaW(address);
    var armed := d.(state := MasterTx, sendStop := sendStop, lastError := NO_ERROR,
                    index := 0, length := |data|,
                    buffer := data + d.buffer[|data|..], slaRw := sla);
    if d.inRepStart then
      armed.(inRepStart := false,
             bus := d.bus + [Data(sla), Control(ControlHandled() | OnState())])
    else
      armed.(bus := d.bus + [Control(ControlHandled() | OnState() | ControlSendStart())])
  }

  /** handler_TWI_Stop: request a stop condition (which completes within the step) and go idle. */
  function Stop(d: Driver): (r: Driver)
    ensures r.state == Available && r.bus == d.bus + [Control(StopControl())]
    ensures r.(state := d.state, bus := d.bus) == d
  {
    d.(bus := d.bus + [Control(StopControl())], state := Available)
  }

  /**
   * The failure branch of the transmit handler as written: the error is read
   * from the status register after the stop has cleared TWINT, when the
   * register holds no state information any more.
   */
  function FailAsWritten(d: Driver, status: bv8): (r: Driver)
    ensures r.state == Available && r.lastError == TW_NO_INFO
    ensures r.bus == d.bus + [Control(StopControl())]
    ensures r.(state := d.state, lastError := d.lastError, bus := d.bus) == d
  {
    var stopped := Stop(d);
    stopped.(lastError := TW_NO_INFO)
  }

  /** The failure branch with the status that caused it recorded in twi_LastError. */
  function Fail(d: Driver, status: bv8): (r: Driver)
    ensures r.state == Available && r.lastError == status
    ensures r.bus == d.bus + [Control(StopControl())]
    ensures r.(state := d.state, lastError := d.lastError, bus := d.bus) == d
  {
    var stopped := Stop(d);
    stopped.(lastError := status)
  }

  /**
   * twi_Master_TX_Handler: one reaction to a bus status while transmitting.
   * A failure records its own status (Fail), not the re-read register value
   * (FailAsWritten).
   */
  function MasterTransmit(d: Driver, status: bv8): (r: Driver)
    requires WellFormed(d)
    ensures WellFormed(r)
    ensures SameRequest(d, r)
    ensures r.index == d.index
         || (r.index == d.index + 1
             && r.bus == d.bus + [Data(d.buffer[d.index]), Control(ReplyControl(true))])
    ensures r.state == d.state || r.state == Available
    ensures r.lastError == d.lastError || (r.state == Available && r.lastError == status)
    ensures d.bus <= r.bus
  {
    if status == TW_START || status == TW_REP_START then
      d.(bus := d.bus + [Data(d.slaRw), Control(ReplyControl(true))])
    else if status == TW_MT_SLA_ACK || status == TW_MT_DATA_ACK then
      if d.index < d.length then
        d.(index := d.index + 1, bus := d.bus + [Data(d.buffer[d.index]), Control(ReplyControl(true))])
      else if d.sendStop then
        Stop(d)
      else
        d  // hold the bus
    else if status == TW_MT_DATA_NACK || status == TW_MT_SLA_NACK || status == TW_MT_ARB_LOST then
      Fail(d, status)
    else
      d
  }

  /**
   * ISR(TWI_vect): dispatch on twi_State. The receive handler is a verbatim
   * copy of the transmit handler, so both master modes take the same
   * transition; the slave modes and the idle state ignore the interrupt.
   */
  function Step(d: Driver, status: bv8): (r: Driver)
    requires WellFormed(d)
    ensures WellFormed(r)
    ensures SameRequest(d, r)
    ensures r.index == d.index
         || (r.index == d.index + 1
             && r.bus == d.bus + [Data(d.buffer[d.index]), Control(ReplyControl(true))])
    ensures r.state == d.state || r.state == Available
    ensures r.lastError == d.lastError || (r.state == Available && r.lastError == status)
    ensures d.bus <= r.bus
    ensures Reachable(d) ==> Reachable(r)
  {
    match d.state
    case MasterTx => MasterTransmit(d, status)
    case MasterRx => MasterTransmit(d, status)
    case _ => d
  }

  /**
   * The wait for completion: while the call waits in master-transmit mode,
   * each bus event runs the interrupt handler once.
   */
  function Await(d: Driver, events: seq<bv8>): (r: Driver)
    requires WellFormed(d)
    ensures WellFormed(r)
    ensures SameRequest(d, r)
    ensures d.index <= r.index
    ensures d.bus <= r.bus
    ensures d.state != MasterTx ==> r == d
    ensures Reachable(d) ==> Reachable(r)
    decreases |events|
  {
    if events == [] || d.state != MasterTx then d
    else Await(Step(d, events[0]), events[1..])
  }

  /**
   * twi_WriteTo from an idle driver: reject an oversized request, otherwise
   * arm the transfer and, when asked to wait, let the bus events drive the
   * handler; then classify twi_LastError.
   */
  function WriteTo(d: Driver, address: bv8, data: seq<bv8>, wait: bool, sendStop: bool,
                   events: seq<bv8>): (r: (Driver, Outcome))
    requires WellFormed(d) && |data| < 256
    requires |data| <= BUFFER_LENGTH ==> d.state == Available
    ensures WellFormed(r.0)
    ensures r.1 == Returned(1) <==> |data| > BUFFER_LENGTH
    ensures |data| > BUFFER_LENGTH ==> r.0 == d
    ensures r.1 == StillWaiting <==> wait && |data| <= BUFFER_LENGTH && r.0.state == MasterTx
    ensures !wait && |data| <= BUFFER_LENGTH ==> r.1 == Returned(0)
    ensures |data| <= BUFFER_LENGTH
            ==> r.0 == (if wait then Await(Setup(d, address, data, sendStop), events)
                        else Setup(d, address, data, sendStop))
    ensures |data| <= BUFFER_LENGTH && r.1 != StillWaiting ==> r.1 == Returned(ResultCode(r.0.lastError))
    ensures Reachable(d) ==> Reachable(r.0)
  {
    if BUFFER_LENGTH < |data| then (d, Returned(1))
    else
      var armed := Setup(d, address, data, sendStop);
      var done := if wait then Await(armed, events) else armed;
      if wait && done.state == MasterTx then (done, StillWaiting)
      else (done, Returned(ResultCode(done.lastError)))
  }
}
