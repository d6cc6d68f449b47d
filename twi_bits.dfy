/**
 * Register-level vocabulary of the two-wire interface: the TWCR control bits,
 * the control words the driver composes from them, the master-transmit status
 * codes, and the SLA+W address byte.
 */
module TwiBits {

  // Bit positions in TWCR (ATmega two-wire interface).
  const TWIE: nat := 0
  const TWEN: nat := 2
  const TWSTO: nat := 4
  const TWSTA: nat := 5
  const TWEA: nat := 6
  const TWINT: nat := 7

  // Status codes (TWSR with the prescaler bits masked), as avr-libc's compat/twi.h names them.
  const TW_START: bv8 := 0x08
  const TW_REP_START: bv8 := 0x10
  const TW_MT_SLA_ACK: bv8 := 0x18
  const TW_MT_SLA_NACK: bv8 := 0x20
  const TW_MT_DATA_ACK: bv8 := 0x28
  const TW_MT_DATA_NACK: bv8 := 0x30
  const TW_MT_ARB_LOST: bv8 := 0x38
  /** The status register's value while TWINT is clear: no relevant state information. */
  const TW_NO_INFO: bv8 := 0xF8

  // Direction bit of the address byte for a write.
  const TW_WRITE: bv8 := 0

  /** The register value with only bit `n` set. */
  function Bit(n: nat): bv8
    requires n < 8
  {
    1 << n
  }

  /** Whether the bits set in `c` are exactly the positions in `bits`. */
  predicate ExactlyBits(c: bv8, bits: set<nat>)
  {
    && (c & 0x01 != 0 <==> 0 in bits) && (c & 0x02 != 0 <==> 1 in bits)
    && (c & 0x04 != 0 <==> 2 in bits) && (c & 0x08 != 0 <==> 3 in bits)
    && (c & 0x10 != 0 <==> 4 in bits) && (c & 0x20 != 0 <==> 5 in bits)
    && (c & 0x40 != 0 <==> 6 in bits) && (c & 0x80 != 0 <==> 7 in bits)
  }

  function ControlEnable(): (c: bv8)
    ensures ExactlyBits(c, {TWEN})
  {
    Bit(TWEN)
  }

  function ControlAcknowledge(): (c: bv8)
    ensures ExactlyBits(c, {TWEA})
  {
    Bit(TWEA)
  }

  function ControlInterruptsOn(): (c: bv8)
    ensures ExactlyBits(c, {TWIE})
  {
    Bit(TWIE)
  }

  /** Writing one to TWINT clears the flag: "software is done with this step". */
  function ControlHandled(): (c: bv8)
    ensures ExactlyBits(c, {TWINT})
  {
    Bit(TWINT)
  }

  function ControlSendStart(): (c: bv8)
    ensures ExactlyBits(c, {TWSTA})
  {
    Bit(TWSTA)
  }

  function ControlSendStop(): (c: bv8)
    ensures ExactlyBits(c, {TWSTO})
  {
    Bit(TWSTO)
  }

  /** mcontrol_TWI_On_State: enabled, interrupts on, auto-acknowledge on. */
  function OnState(): (c: bv8)
    ensures ExactlyBits(c, {TWEN, TWIE, TWEA})
  {
    ControlEnable() | ControlInterruptsOn() | ControlAcknowledge()
  }

  /** mcontrol_TWI_On_NoAck: enabled, interrupts on, acknowledge off. */
  function OnNoAck(): (c: bv8)
    ensures ExactlyBits(c, {TWEN, TWIE})
  {
    ControlEnable() | ControlInterruptsOn()
  }

  /**
   * The TWCR word handler_TWI_Reply writes: hand the step back to the hardware
   * (TWINT) with the acknowledge bit chosen by `ack`, and no start or stop.
   */
  function ReplyControl(ack: bool): (c: bv8)
    ensures ExactlyBits(c, {TWINT, TWEN, TWIE} + (if ack then {TWEA} else {}))
  {
    if ack then OnState() | ControlHandled() else OnNoAck() | ControlHandled()
  }

  /** The TWCR word handler_TWI_Stop writes: release the step and request a stop condition. */
  function StopControl(): (c: bv8)
    ensures ExactlyBits(c, {TWINT, TWEN, TWIE, TWEA, TWSTO})
  {
    OnState() | ControlHandled() | ControlSendStop()
  }

  /** The TWCR word twi_WriteTo writes to request a fresh start condition. */
  function StartControl(): (c: bv8)
    ensures ExactlyBits(c, {TWINT, TWEN, TWIE, TWEA, TWSTA})
  {
    ControlHandled() | OnState() | ControlSendStart()
  }

  /**
   * SLA+W: the address shifted into the upper seven bits, truncated to a byte,
   * with the write direction bit in bit 0.
   */
  function SlaW(address: bv8): (sla: bv8)
    ensures sla & 1 == TW_WRITE
    ensures sla as int == (address as int * 2) % 256
    ensures address < 0x80 ==> sla >> 1 == address
  {
    TW_WRITE | (address << 1)
  }
}
