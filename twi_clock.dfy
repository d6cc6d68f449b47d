/**
 * The bit-rate divisor twi_Set_BR stores into TWBR. The hardware divides the
 * CPU clock by 16 + 2 * TWBR * 4^TWPS to clock the bus; the formula leaves the
 * prescaler factor out.
 */
module TwiClock {

  const CLOCK_FREQUENCY: nat := 20000000
  const SCL_FREQUENCY: nat := 100000

  /**
   * twi_Set_BR as the AVR compiler evaluates it: the parameter is a 16-bit
   * `unsigned int`, so the frequency arrives reduced modulo 2^16; the division
   * is done in 32-bit `long`; the 8-bit TWBR keeps the result modulo 2^8.
   * The reduced frequency is below 2^16, so the quotient is at least 305 and
   * the subtraction stays positive: C's truncating division and Dafny's agree.
   */
  function BitRateAsWritten(frequency: nat): (twbr: nat)
    requires frequency % 0x1_0000 != 0
    ensures 16 <= CLOCK_FREQUENCY / (frequency % 0x1_0000)
    ensures twbr < 0x100
    ensures twbr == BitRateDivisor(CLOCK_FREQUENCY, frequency % 0x1_0000) % 0x100
  {
    var aiFreq := frequency % 0x1_0000;
    QuotientAtLeast(CLOCK_FREQUENCY, aiFreq, 305);
    var divisor := (CLOCK_FREQUENCY / aiFreq - 16) / 2;
    divisor % 0x100
  }

  /** A divisor that goes `q` times into `a` leaves a quotient of at least `q`. */
  lemma QuotientAtLeast(a: nat, b: nat, q: nat)
    requires 0 < b && q * b <= a
    ensures q <= a / b
  {
    var k := a / b;
    assert (k + 1) * b == k * b + b;
    assert q * b < (k + 1) * b;
    ProductOrder(q, k + 1, b);
  }

  /** Products with the same positive factor are ordered as the other factors. */
  lemma ProductOrder(x: nat, y: nat, b: nat)
    requires 0 < b && x * b < y * b
    ensures x < y
  {
  }

  /**
   * The divisor the formula means, without the prescaler factor: the largest
   * TWBR with 16 + 2 * TWBR not above clock / scl.
   */
  function BitRateDivisor(clock: nat, scl: nat): (twbr: nat)
    requires 0 < scl && 16 <= clock / scl
    ensures 16 + 2 * twbr <= clock / scl < 16 + 2 * twbr + 2
  {
    (clock / scl - 16) / 2
  }

  /** The TWBR value twi_Init programs for the configured clock and bus frequency. */
  function BitRateRegister(): (twbr: bv8)
    ensures twbr as nat == BitRateDivisor(CLOCK_FREQUENCY, SCL_FREQUENCY)
    ensures twbr == 92
  {
    BitRateDivisor(CLOCK_FREQUENCY, SCL_FREQUENCY) as bv8
  }

  /**
   * With the configured 100 kHz the 16-bit parameter receives 34464, the
   * quotient is 580, the divisor 282, and TWBR keeps 282 mod 256 = 26,
   * where the formula on the configured values gives 92.
   */
  lemma BitRateAsWrittenAt100kHz()
    ensures SCL_FREQUENCY % 0x1_0000 == 34464
    ensures BitRateAsWritten(SCL_FREQUENCY) == 26
    ensures BitRateAsWritten(SCL_FREQUENCY) != BitRateRegister() as nat
  {
    assert 580 * 34464 <= CLOCK_FREQUENCY < 581 * 34464;
    assert CLOCK_FREQUENCY / 34464 == 580;
  }
}
