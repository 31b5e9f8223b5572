/** The status register: busy and stopped flags, clearing the stopped flag, and the temperature reading. */
module Status {
  import opened Registers

  /** A temperature conversion is in progress. */
  predicate IsBusy(status: bv8) {
    status & BUSY != 0
  }

  /** The oscillator is stopped or has been stopped since the flag was last cleared. */
  predicate HasBeenStopped(status: bv8) {
    status & OSC_STOP != 0
  }

  /**
   * The byte `clear_has_been_stopped_flag` writes back for the status it read: the same byte
   * with OSC_STOP cleared, or nothing when OSC_STOP is already clear.
   */
  function ClearStoppedWrite(status: bv8): (w: Option<bv8>)
    ensures w.Some? <==> HasBeenStopped(status)
    ensures w.Some? ==> !HasBeenStopped(w.value) && w.value & !OSC_STOP == status & !OSC_STOP
  {
    if status & OSC_STOP != 0 then Some(status & !OSC_STOP) else None
  }

  /** The status register once the operation has run: written, or left as it was. */
  function AfterWriteOf(current: bv8, w: Option<bv8>): bv8 {
    if w.Some? then w.value else current
  }

  /**
   * Afterwards the flag is clear and every other bit, the alarm flags included, is as read; a
   * second run writes nothing.
   */
  lemma ClearStoppedSettles(status: bv8)
    ensures AfterWriteOf(status, ClearStoppedWrite(status)) == status & !OSC_STOP
    ensures ClearStoppedWrite(AfterWriteOf(status, ClearStoppedWrite(status))).None?
  {
  }

  /** The 10-bit reading `(msb << 2) | (lsb >> 6)`, assembled in a u16 as the source does. */
  function TemperatureBits(msb: bv8, lsb: bv8): (t: bv16)
    ensures t < 0x400
  {
    ((msb as bv16) << 2) | ((lsb >> 6) as bv16)
  }

  /** A u16 reinterpreted as an i16. */
  function AsI16(x: bv16): (v: int)
    ensures -0x8000 <= v < 0x8000
    ensures v % 0x1_0000 == x as int
  {
    if x & 0x8000 != 0 then x as int - 0x1_0000 else x as int
  }

  /**
   * The temperature in quarter degrees Celsius, as `get_temperature` computes it before scaling:
   * the 10-bit reading, sign-extended to 16 bits when bit 7 of the MSB register is set.
   */
  function TemperatureQuarters(msb: bv8, lsb: bv8): int {
    var temp := TemperatureBits(msb, lsb);
    if msb & 0x80 != 0 then AsI16(temp | 0xFC00) else temp as int
  }

  /** The MSB register as a signed byte. */
  function SignedByte(b: bv8): (v: int)
    ensures -0x80 <= v < 0x80
  {
    if b & 0x80 != 0 then b as int - 0x100 else b as int
  }

  /**
   * The reading is a two's-complement number of quarter degrees: the MSB register holds the
   * signed whole degrees, the top two bits of the LSB register the quarters. It lies in -512..511.
   */
  lemma TemperatureIsTwosComplement(msb: bv8, lsb: bv8)
    ensures TemperatureQuarters(msb, lsb) == SignedByte(msb) * 4 + lsb as int / 64
    ensures -512 <= TemperatureQuarters(msb, lsb) <= 511
  {
    TemperatureBitsValue(msb, lsb);
    if msb & 0x80 != 0 {
      SignExtension(TemperatureBits(msb, lsb));
    }
  }

  /** The 10-bit reading is the MSB register times four plus the top two bits of the LSB register. */
  lemma TemperatureBitsValue(msb: bv8, lsb: bv8)
    ensures TemperatureBits(msb, lsb) as int == msb as int * 4 + lsb as int / 64
  {
    var hi: bv16 := (msb as bv16) << 2;
    var lo: bv16 := (lsb >> 6) as bv16;
    ShiftedMsbValue(msb);
    ShiftedLsbValue(lsb);
    assert hi | lo == hi + lo;
    assert (hi + lo) as int == hi as int + lo as int;
  }

  /** The MSB register shifted into place is worth four times its value. */
  lemma ShiftedMsbValue(msb: bv8)
    ensures ((msb as bv16) << 2) as int == msb as int * 4
  {
  }

  /** The top two bits of the LSB register are worth its value divided by 64. */
  lemma ShiftedLsbValue(lsb: bv8)
    ensures ((lsb >> 6) as bv16) as int == lsb as int / 64
  {
  }

  /** Filling the top six bits of a 10-bit value adds 0xFC00. */
  lemma SignExtension(t: bv16)
    requires t < 0x400
    ensures (t | 0xFC00) as int == t as int + 0xFC00
  {
    assert t | 0xFC00 == t + 0xFC00;
  }

  /** The temperature test vectors: 0, -128.0 and 127.75 degrees. */
  lemma TemperatureVectors()
    ensures TemperatureQuarters(0x00, 0x00) == 0
    ensures TemperatureQuarters(0x80, 0x00) == -512
    ensures TemperatureQuarters(0x7F, 0xC0) == 511
  {
    TemperatureIsTwosComplement(0x00, 0x00);
    TemperatureIsTwosComplement(0x80, 0x00);
    TemperatureIsTwosComplement(0x7F, 0xC0);
  }
}
