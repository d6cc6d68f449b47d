# Master-transmit side of an AVR two-wire (I2C) bus driver, in Dafny

The driver in `two_wire.c` sends a buffer of bytes to a peripheral on the
two-wire bus. `twi_WriteTo` runs in the foreground. It checks the length
against the 32-byte buffer, arms the driver's static variables, copies the
caller's bytes into the buffer, builds the SLA+W address byte, and requests a
start condition. Everything after that happens in `ISR(TWI_vect)`, which
`twi_Master_TX_Handler` serves once for each bus event: load the address, load
the next byte, stop, hold the bus, or stop and record a failure. When asked to
wait, the foreground call spins until the handler leaves master-transmit mode.
It then maps `twi_LastError` to the return codes 0, 2, 3 and 4.

The model has five modules:

- `TwiBits` (`twi_bits.dfy`) holds the TWCR bit positions and the status codes
  that avr-libc's `compat/twi.h` assigns (0x08, 0x10, 0x18, 0x20, 0x28, 0x30,
  0x38, and 0xF8 for "no information"). It also holds the control words the
  driver composes from those bits, and SLA+W.
- `TwiClock` (`twi_clock.dfy`) holds the bit-rate divisor of `twi_Set_BR`, as
  written and as meant.
- `TwiSpec` (`twi_spec.dfy`) holds the driver's state as a value (`Driver`). It
  defines each operation as a function on that value: `Boot`, `Init`, `Setup`,
  `MasterTransmit`, `Step`, `Await`, `WriteTo` and `ResultCode`.
- `TwoWire` (`two_wire.dfy`) holds the driver's storage as the source keeps
  it. Class `Twi` has one field per static variable and a 32-byte `array` for
  `twi_Master_Buffer`. Its methods update the fields in place. Each method
  that has a counterpart in `TwiSpec` is proved to move the state exactly as
  that function.
- `TwiProperties` (`twi_properties.dfy`) holds one lemma per case of the
  handler, including the statuses its switch does not list, and lemmas about whole transfers: a peripheral that
  acknowledges everything, one that refuses its address, one that fails after
  some bytes, and a transfer that holds the bus.

TWBR, TWCR and TWDR are modelled as one append-only trace of register writes
(`bus`), oldest first. "What went on the bus" is a statement about that trace.
`DataWrites` picks out the bytes written to TWDR.

The interleaving of the foreground and the interrupt is modelled as a sequence
of steps. The caller's wait for an idle driver becomes a precondition. The wait
for completion becomes a sequence of bus statuses, and the interrupt handler
runs once per status while the driver is still in master-transmit mode. If the
statuses run out first, the call has not returned (`StillWaiting`).

Where the code does less than a complete I2C master would, the model follows
the code:

- The reply after a start and after each acknowledged byte sets TWEA, because
  `handler_TWI_Reply(1)` does.
- With `sendStop` false, the last acknowledgement does nothing at all. No
  repeated start is issued, the driver stays in master-transmit mode, and a
  waiting call never returns (`HoldingTheBusNeverReturns`). The driver never
  becomes idle again, so every later `twi_WriteTo` with an acceptable length
  would spin forever in its wait for an idle driver (two_wire.c:201-204); the
  model makes that wait a precondition and does not represent the hang.
- `twi_InRepStart` is never set to 1. The repeated-start branch of
  `twi_WriteTo` is modelled, but it cannot be reached (`Reachable`).

Two operations do not follow the code. They take the corrected behaviour of
the two rows under "## Findings", and the as-written behaviour is modelled
beside them:

- `twi_Init` programs TWBR = 92, the divisor the formula gives for the
  configured frequencies. The code programs 26.
- The failure branch of the handler records the status that caused the
  failure. The code records 0xF8.

## Model

| member | source | states |
|---|---|---|
| `TwiBits.ControlEnable` | two_wire.c:25-28 | the enable word has TWEN set and no other bit |
| `TwiBits.ControlAcknowledge` | two_wire.c:30-33 | the acknowledge word has TWEA set and no other bit |
| `TwiBits.ControlInterruptsOn` | two_wire.c:35-38 | the interrupt word has TWIE set and no other bit |
| `TwiBits.ControlHandled` | two_wire.c:40-44 | the "handled" word has TWINT set and no other bit |
| `TwiBits.ControlSendStart` | two_wire.c:46-49 | the start word has TWSTA set and no other bit |
| `TwiBits.ControlSendStop` | two_wire.c:51-54 | the stop-request word has TWSTO set and no other bit |
| `TwiBits.OnState` | two_wire.c:56-59 | the "on" control word has exactly TWEN, TWIE and TWEA set |
| `TwiBits.OnNoAck` | two_wire.c:61-64 | the no-acknowledge word has exactly TWEN and TWIE set |
| `TwiBits.ReplyControl` | two_wire.c:71-82 | the reply word has exactly TWINT, TWEN and TWIE set, plus TWEA when `ack` is true: it hands the step back and requests neither start nor stop |
| `TwiBits.StopControl` | two_wire.c:84-87 | the stop word has exactly TWINT, TWEN, TWIE, TWEA and TWSTO set |
| `TwiBits.StartControl` | two_wire.c:243-245 | the start word has exactly TWINT, TWEN, TWIE, TWEA and TWSTA set |
| `TwiBits.SlaW` | two_wire.c:221-223 | SLA+W has the write bit (0) in bit 0 and equals `(address * 2) mod 256`; a 7-bit address can be read back from bits 7..1 |
| `TwiClock.BitRateDivisor` | two_wire.c:66-69 | the formula's divisor, without the prescaler factor: the largest TWBR with `16 + 2*TWBR` not above `clock / scl` |
| `TwiClock.BitRateRegister` | two_wire.h:23-24 | the configured 20 MHz clock and 100 kHz bus give TWBR = 92 |
| `TwiClock.BitRateAsWritten` | two_wire.c:66-69 | as written, TWBR receives the formula's divisor for the frequency reduced modulo 2^16, itself reduced modulo 2^8; the quotient is at least 16 for every frequency the 16-bit parameter can carry |
| `TwiClock.BitRateAsWrittenAt100kHz` | two_wire.c:66-69 | as written, the 16-bit parameter receives 34464, so TWBR gets 26, not 92 |
| `TwiSpec.Boot` | two_wire.c:15-23 | the static initialisers leave an idle, reachable driver with nothing written to the bus |
| `TwiSpec.Init` | two_wire.c:176-188 | `twi_Init` makes the driver idle, appends the TWBR write (the divisor) and then the "on" word to the trace, and changes nothing else |
| `TwiSpec.ResultCode` | two_wire.c:253-260 | the return code is 0 exactly for 0xFF, 2 exactly for SLA_NACK, 3 exactly for DATA_NACK, and 4 for every other value |
| `TwiSpec.Setup` | two_wire.c:206-245 | an armed transfer has state MASTER_TX, the given sendStop, lastError 0xFF, index 0 and length = the data length; the buffer's prefix is the data and the rest of the buffer is untouched; slaRw is SLA+W; the trace gains a start request, or SLA+W and a reply on the repeated-start path |
| `TwiSpec.Stop` | two_wire.c:84-98 | the stop writes the stop word to TWCR and makes the driver idle, and changes nothing else |
| `TwiSpec.FailAsWritten` | two_wire.c:129-134 | the failure branch as written writes the stop word, makes the driver idle and leaves 0xF8 in lastError, and changes nothing else |
| `TwiSpec.Fail` | two_wire.c:129-134 | the corrected failure branch writes the stop word, leaves the driver idle with the failing status in lastError, and changes nothing else |
| `TwiSpec.MasterTransmit` | two_wire.c:100-136 | one handler run keeps the buffer, length, SLA+W and sendStop; the index either stays or advances by exactly one, sending `buffer[index]` then a reply; the mode stays or becomes idle; lastError stays, or becomes the status when the driver goes idle; the trace only grows |
| `TwiSpec.Step` | two_wire.c:263-277 | the interrupt dispatch has the same guarantees as one handler run, and keeps the driver in its reachable states |
| `TwiSpec.Await` | two_wire.c:247-251 | waiting through any events keeps the request, never decreases the index, only appends to the trace, changes nothing once the driver has left master-transmit mode, and stays reachable |
| `TwiSpec.WriteTo` | two_wire.c:190-261 | the call returns 1 exactly when the length exceeds 32, and then changes nothing and writes no register; otherwise the driver is the armed transfer, after the events when the call waits; it is still waiting exactly when it waits and the transfer is unfinished; a finished call returns the classification of lastError; a call that does not wait returns 0 |
| `TwoWire.Twi.constructor` | two_wire.c:15-23 | the fresh driver's fields are the static initialisers |
| `TwoWire.Twi.Init` | two_wire.c:176-188 | keeps the driver well formed; the fields move exactly as `TwiSpec.Init` |
| `TwoWire.Twi.Reply` | two_wire.c:71-82 | the only effect is one TWCR write of the reply word |
| `TwoWire.Twi.Stop` | two_wire.c:84-98 | the effects are the stop word on TWCR and the idle mode; the fields move exactly as `TwiSpec.Stop` |
| `TwoWire.Twi.MasterTxHandler` | two_wire.c:100-136 | the fields and the array move exactly as `TwiSpec.MasterTransmit` |
| `TwoWire.Twi.Isr` | two_wire.c:263-277 | the fields move exactly as `TwiSpec.Step` |
| `TwoWire.Twi.Load` | two_wire.c:215-219 | the copy loop leaves the data at the front of the array and the rest of the array unchanged |
| `TwoWire.Twi.Setup` | two_wire.c:206-245 | the fields and the array move exactly as `TwiSpec.Setup` |
| `TwoWire.Twi.WriteTo` | two_wire.c:190-261 | the loop that runs the handler once per event gives the new state and the outcome of `TwiSpec.WriteTo` |
| `TwiProperties.StartLoadsAddress` | two_wire.c:104-109 | on START or REP_START, the handler writes SLA+W to TWDR, then the acknowledging reply, and changes nothing else |
| `TwiProperties.AckSendsNextByte` | two_wire.c:110-118 | on an acknowledgement with data left, the handler writes `buffer[index]`, then a reply, and advances the index by one |
| `TwiProperties.AckAfterLastByteStops` | two_wire.c:119-123 | on an acknowledgement with no data left and sendStop set, the handler writes the stop word and goes idle; lastError 0xFF then classifies as 0 |
| `TwiProperties.AckAfterLastByteHoldsBus` | two_wire.c:124-127 | on an acknowledgement with no data left and sendStop clear, nothing changes and nothing is written |
| `TwiProperties.FailureStopsAndRecords` | two_wire.c:129-134 | on DATA_NACK, SLA_NACK or ARB_LOST, the handler writes the stop word, goes idle and records the status; the call's result is then 3, 2 or 4 |
| `TwiProperties.UnlistedStatusIgnored` | two_wire.c:102-135 | in master-transmit mode, a status the switch does not list changes nothing and writes no register |
| `TwiProperties.OtherModesIgnoreInterrupts` | two_wire.c:273-276 | in the idle and slave modes the interrupt changes nothing |
| `TwiProperties.FailAsWrittenLosesCause` | two_wire.c:132-133 | as written, a refused address or refused byte is reported as 4, where the corrected branch reports 2 or 3 |
| `TwiProperties.AwaitAppend` | two_wire.c:247-251 | waiting through `a + b` is waiting through `a`, then through `b` |
| `TwiProperties.AcksSendInOrder` | two_wire.c:110-118 | n acknowledgements while data remains send the next n buffer bytes in order, each followed by a reply, and advance the index by n |
| `TwiProperties.HeldBusIgnoresAcks` | two_wire.c:124-127 | once the buffer is drained and no stop is wanted, any number of acknowledgements change nothing |
| `TwiProperties.WaitingWriteTo` | two_wire.c:247-260 | a waiting call from an idle driver is setup, then the events, then classification of lastError |
| `TwiProperties.StartThenAcks` | two_wire.c:206-245 | after setup, the start's interrupt and k acknowledgements, the trace holds the start request, SLA+W and the first k data bytes, and the index is k |
| `TwiProperties.LastAckStops` | two_wire.c:119-123 | the acknowledgement of the last byte ends the transfer with a stop; later events are ignored |
| `TwiProperties.AckedTransferStops` | two_wire.c:100-136 | a transfer whose address and every byte are acknowledged ends idle, with the full frame sequence and a stop on the trace |
| `TwiProperties.AckingPeripheralReceivesAll` | two_wire.c:190-261 | against an acknowledging peripheral the call returns 0; TWDR receives exactly SLA+W, then the caller's bytes in order; the last write is a stop |
| `TwiProperties.FailureEndsTransfer` | two_wire.c:129-134 | a failure after k acknowledgements (the address's and k-1 data bytes') leaves SLA+W and the first k data bytes on the trace, then a stop at once; lastError holds the failing status and the call reports its code |
| `TwiProperties.AddressNackStopsAtOnce` | two_wire.c:129-134 | a refused address returns 2; SLA+W is the only byte written to TWDR and a stop follows it directly |
| `TwiProperties.HeldTransferStaysArmed` | two_wire.c:124-127 | without a stop, the driver after all the bytes and any further acknowledgements is the drained transfer, still in master-transmit mode |
| `TwiProperties.HoldingTheBusNeverReturns` | two_wire.c:247-251 | with sendStop clear, a waiting call is still waiting after every byte is acknowledged, whatever acknowledgements follow |
| `TwiProperties.OscillatorOnTransfer` | main.c:32-35 | `twi_WriteTo(0x70, [0x21], 1, 1)` after `twi_Init`, answered by START, SLA_ACK and DATA_ACK, writes 0xE5, 0xE0, 0xC5, 0x21, 0xC5 and 0xD5, sends 0xE0 then 0x21 through TWDR, and returns 0 |

## Left out

- `TwiSpec.Init` and `TwoWire.Twi.Init` do not model the TWBR value the code writes. They program the corrected divisor, 92, where the code writes 26 (first row of "## Findings"). `TwiClock.BitRateAsWritten` models the code's value.
- `TwiSpec.MasterTransmit` and `TwoWire.Twi.MasterTxHandler` do not model the lastError value the code stores on failure. They record the failing status, where the code re-reads the status register after the stop and stores 0xF8 (second row of "## Findings"). `TwiSpec.FailAsWritten` models the code's value.
- The busy-waits. The wait for an idle driver (two_wire.c:200-204) is a precondition. The wait for completion (two_wire.c:247-251) is a loop over a given sequence of bus statuses. The TWSTO poll (two_wire.c:89-94) is taken to end within the step. The TWWC write-collision retry (two_wire.c:237-240) is one TWDR write. All four depend on asynchronous hardware.
- Real concurrency between the foreground and the interrupt, and `volatile`. Each interrupt runs atomically, and only while the foreground waits.
- Register I/O details. The TWSR prescaler bits (two_wire.c:182-183) are not modelled, so the prescaler factor is absent from the divisor, as it is in the code. `TW_STATUS` masking is not modelled; the masked status is an input. The interrupt vector mechanics are not modelled.
- `twi_Master_RX_Handler` (two_wire.c:138-174) is a verbatim copy of the transmit handler. `TwiSpec.Step` therefore runs the same transition in master-receive mode. That mode is never entered.
- `twi_Read` and `twi_Write` (two_wire.h:27-32) are declared but not defined anywhere, so they are not part of this model. There is no receive acknowledge policy and no repeated-start issuing, because the code has neither.
- Slave modes: the interrupt ignores them (two_wire.c:273-276), and so does the model.
- The `wait` and `sendStop` bytes are modelled as booleans. The code only tests them for zero.
- The demo loop of main.c is not modelled. Its first transfer is the scenario in `TwiProperties.OscillatorOnTransfer`.

## Findings

| source | as written | input that shows it | evidently intended | confidence | as-written member | corrected member |
|---|---|---|---|---|---|---|
| two_wire.c:66-69 | `twi_Set_BR` takes an `unsigned int`, 16 bits on AVR, so 100000 arrives as 34464; TWBR becomes (580 - 16) / 2 = 282, truncated to 26 | `twi_Set_BR(SCL_FREQUENCY)` with 100000 (two_wire.c:184) | TWBR = (20000000 / 100000 - 16) / 2 = 92 | not executed; high (the width of `int` on AVR is 16 bits) | `TwiClock.BitRateAsWrittenAt100kHz` | `TwiClock.BitRateRegister` |
| two_wire.c:132-133 | `twi_LastError = TW_STATUS` reads the status register after `handler_TWI_Stop` has cleared TWINT, when the register holds 0xF8 (no information); every failure then classifies as 4 | SLA_NACK (0x20) during a transfer: the call returns 4 instead of 2 | record the status that caused the failure (the handler's `aiStatus`), so SLA_NACK gives 2 and DATA_NACK gives 3 | not executed; medium (relies on the status register reading 0xF8 once a stop has been issued) | `TwiProperties.FailAsWrittenLosesCause` | `TwiSpec.Fail` |

`TwiSpec.Init` programs `TwiClock.BitRateRegister`, and `TwiSpec.MasterTransmit`
uses `TwiSpec.Fail`. The as-written versions are `TwiClock.BitRateAsWritten`
and `TwiSpec.FailAsWritten`.
