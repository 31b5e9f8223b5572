/** The register map, bit flags and shared types of the DS3231/DS3232/DS3234 driver. */
module Registers {

  /** Register addresses (byte offsets in the chip's register file). */
  const REG_SECONDS: bv8 := 0x00
  const REG_MINUTES: bv8 := 0x01
  const REG_HOURS: bv8 := 0x02
  const REG_DOW: bv8 := 0x03
  const REG_DOM: bv8 := 0x04
  const REG_MONTH: bv8 := 0x05
  const REG_YEAR: bv8 := 0x06
  const REG_ALARM1_SECONDS: bv8 := 0x07
  const REG_ALARM2_MINUTES: bv8 := 0x0B
  const REG_CONTROL: bv8 := 0x0E
  const REG_STATUS: bv8 := 0x0F
  const REG_AGING_OFFSET: bv8 := 0x10
  const REG_TEMP_MSB: bv8 := 0x11
  const REG_TEMP_CONV: bv8 := 0x13

  /** Number of registers the chip has: addresses 0x00..0x13. */
  const REGISTER_COUNT: nat := 0x14

  /** Hours register. */
  const H24_H12: bv8 := 0x40
  const AM_PM: bv8 := 0x20
  /** Month register. */
  const CENTURY: bv8 := 0x80
  /** Control register. */
  const EOSC: bv8 := 0x80
  const BBSQW: bv8 := 0x40
  const TEMP_CONV: bv8 := 0x20
  const RS2: bv8 := 0x10
  const RS1: bv8 := 0x08
  const INTCN: bv8 := 0x04
  const ALARM2_INT_EN: bv8 := 0x02
  const ALARM1_INT_EN: bv8 := 0x01
  /** Status register. */
  const OSC_STOP: bv8 := 0x80
  const BB32KHZ: bv8 := 0x40
  const CRATE1: bv8 := 0x20
  const CRATE0: bv8 := 0x10
  const EN32KHZ: bv8 := 0x08
  const BUSY: bv8 := 0x04
  const ALARM2F: bv8 := 0x02
  const ALARM1F: bv8 := 0x01
  /** Temperature-conversion control register (DS3234). */
  const TEMP_CONV_BAT: bv8 := 0x01
  /** Alarm registers. */
  const ALARM_MATCH: bv8 := 0x80
  const WEEKDAY: bv8 := 0x40

  /** Fixed 7-bit I2C target address. */
  const DEVICE_ADDRESS: bv8 := 0x68
  /** Power-on value of the control register. */
  const CONTROL_POR_VALUE: bv8 := 0x1C

  /** Every flag of the driver, in declaration order. */
  const ALL_FLAGS: seq<bv8> := [H24_H12, AM_PM, CENTURY, EOSC, BBSQW, TEMP_CONV, RS2, RS1, INTCN,
                                ALARM2_INT_EN, ALARM1_INT_EN, OSC_STOP, BB32KHZ, CRATE1, CRATE0,
                                EN32KHZ, BUSY, ALARM2F, ALARM1F, TEMP_CONV_BAT, ALARM_MATCH, WEEKDAY]
  /** The control register's flags, most significant first. */
  const CONTROL_FLAGS: seq<bv8> := [EOSC, BBSQW, TEMP_CONV, RS2, RS1, INTCN, ALARM2_INT_EN, ALARM1_INT_EN]
  /** The status register's flags, most significant first. */
  const STATUS_FLAGS: seq<bv8> := [OSC_STOP, BB32KHZ, CRATE1, CRATE0, EN32KHZ, BUSY, ALARM2F, ALARM1F]
  /** Every register address the driver uses. */
  const ALL_REGISTERS: seq<bv8> := [REG_SECONDS, REG_MINUTES, REG_HOURS, REG_DOW, REG_DOM, REG_MONTH,
                                    REG_YEAR, REG_ALARM1_SECONDS, REG_ALARM2_MINUTES, REG_CONTROL,
                                    REG_STATUS, REG_AGING_OFFSET, REG_TEMP_MSB, REG_TEMP_CONV]

  /** Exactly one bit of `b` is set. */
  predicate SingleBit(b: bv8) {
    b != 0 && b & (b - 1) == 0
  }

  /** Bitwise or of every byte of `s`. */
  function OrAll(s: seq<bv8>): bv8 {
    if s == [] then 0 else s[0] | OrAll(s[1..])
  }

  /** One unfolding of `OrAll` at position `k`. */
  lemma OrAllFrom(s: seq<bv8>, k: nat)
    requires k < |s|
    ensures OrAll(s[k..]) == s[k] | OrAll(s[k + 1..])
  {
    assert s[k..][1..] == s[k + 1..];
  }

  /** The or of an eight-byte sequence, written out. */
  lemma OrAllEight(s: seq<bv8>)
    requires |s| == 8
    ensures OrAll(s) == s[0] | s[1] | s[2] | s[3] | s[4] | s[5] | s[6] | s[7]
  {
    assert s[0..] == s;
    OrAllFrom(s, 0); OrAllFrom(s, 1); OrAllFrom(s, 2); OrAllFrom(s, 3);
    OrAllFrom(s, 4); OrAllFrom(s, 5); OrAllFrom(s, 6); OrAllFrom(s, 7);
  }

  /** No two bytes of `s` share a bit. */
  predicate PairwiseDisjoint(s: seq<bv8>) {
    forall i, j :: 0 <= i < j < |s| ==> s[i] & s[j] == 0
  }

  /** The bus error a transfer reports; the driver passes it on unchanged. */
  datatype BusError = BusError(code: int)

  /** Driver errors. */
  datatype Error =
    | Comm(e: BusError)     // I2C/SPI bus error
    | InvalidInputData      // invalid input data provided
    | InvalidDeviceState    // the device state could not be read as a valid value

  datatype Result<T> = Ok(value: T) | Err(error: Error)

  datatype Option<T> = None | Some(value: T)

  /** Temperature conversion rate (DS3232 and DS3234 only). */
  datatype TempConvRate = Every64s | Every128s | Every256s | Every512s

  /** The three chip variants; each one is a separate marker type in the driver. */
  datatype Ic = DS3231 | DS3232 | DS3234

  /** The source's u16, for years. */
  type u16 = bv16

  lemma FlagsAreSingleBits()
    ensures forall i :: 0 <= i < |ALL_FLAGS| ==> SingleBit(ALL_FLAGS[i])
  {
  }

  lemma ControlFlagsPartitionByte()
    ensures |CONTROL_FLAGS| == 8 && PairwiseDisjoint(CONTROL_FLAGS)
    ensures OrAll(CONTROL_FLAGS) == 0xFF
  {
    OrAllEight(CONTROL_FLAGS);
  }

  lemma StatusFlagsPartitionByte()
    ensures |STATUS_FLAGS| == 8 && PairwiseDisjoint(STATUS_FLAGS)
    ensures OrAll(STATUS_FLAGS) == 0xFF
  {
    OrAllEight(STATUS_FLAGS);
  }

  lemma ControlPorValue()
    ensures CONTROL_POR_VALUE == RS2 | RS1 | INTCN
  {
  }

  lemma RegisterLayout()
    ensures REG_MINUTES == REG_SECONDS + 1 && REG_HOURS == REG_MINUTES + 1
    ensures REG_DOW == REG_HOURS + 1 && REG_DOM == REG_DOW + 1
    ensures REG_MONTH == REG_DOM + 1 && REG_YEAR == REG_MONTH + 1
    ensures REG_ALARM1_SECONDS == REG_YEAR + 1 && REG_ALARM1_SECONDS + 4 == REG_ALARM2_MINUTES
  {
  }

  lemma RegistersBelowWriteBit()
    ensures forall i :: 0 <= i < |ALL_REGISTERS| ==>
      ALL_REGISTERS[i] < 0x80 && ALL_REGISTERS[i] as int < REGISTER_COUNT
  {
  }

  lemma DeviceAddressIsSevenBits()
    ensures DEVICE_ADDRESS < 0x80 && DEVICE_ADDRESS == 0x68
  {
  }
}
