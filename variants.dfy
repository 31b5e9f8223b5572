/**
 * What differs between the DS3231, DS3232 and DS3234: the power-on values of the cached status
 * byte, and the status bits only the DS3232 and DS3234 have (32 kHz output on battery,
 * temperature conversion rate).
 */
module Variants {
  import opened Registers

  /** Power-on status cached for a DS3231: oscillator-stopped flag and 32 kHz output. */
  const DS3231_STATUS_POR_VALUE: bv8 := OSC_STOP | EN32KHZ
  /** Power-on status cached for a DS3234: as the DS3231, plus 32 kHz output on battery. */
  const DS3234_STATUS_POR_VALUE: bv8 := OSC_STOP | BB32KHZ | EN32KHZ

  lemma StatusPorValues()
    ensures DS3231_STATUS_POR_VALUE == 0x88 && DS3234_STATUS_POR_VALUE == 0xC8
    ensures DS3231_STATUS_POR_VALUE & BB32KHZ == 0 && DS3234_STATUS_POR_VALUE & BB32KHZ != 0
    ensures DS3234_STATUS_POR_VALUE == DS3231_STATUS_POR_VALUE | BB32KHZ
  {
  }

  /** The status byte `enable_32khz_output_on_battery` computes from the cached status. */
  function Enable32kHzOnBattery(status: bv8): (s: bv8)
    ensures s & BB32KHZ != 0
    ensures s & !BB32KHZ == status & !BB32KHZ
  {
    status | BB32KHZ
  }

  /** The status byte `disable_32khz_output_on_battery` computes from the cached status. */
  function Disable32kHzOnBattery(status: bv8): (s: bv8)
    ensures s & BB32KHZ == 0
    ensures s & !BB32KHZ == status & !BB32KHZ
  {
    status & !BB32KHZ
  }

  /** Enabling an already enabled output computes the cached byte unchanged, and likewise for disabling. */
  lemma Battery32kHzIdempotent(status: bv8)
    ensures status & BB32KHZ != 0 ==> Enable32kHzOnBattery(status) == status
    ensures status & BB32KHZ == 0 ==> Disable32kHzOnBattery(status) == status
    ensures Disable32kHzOnBattery(Enable32kHzOnBattery(status)) == Disable32kHzOnBattery(status)
    ensures Enable32kHzOnBattery(Disable32kHzOnBattery(status)) == Enable32kHzOnBattery(status)
  {
  }

  /**
   * The byte written to the status register for a computed status `status`: the alarm flags
   * are written as 1, which leaves them as they are on the chip, since writing 0 clears them.
   */
  function StatusWriteByte(status: bv8): (b: bv8)
    ensures b & ALARM2F != 0 && b & ALARM1F != 0
    ensures b & !(ALARM2F | ALARM1F) == status & !(ALARM2F | ALARM1F)
  {
    status | ALARM2F | ALARM1F
  }

  /** The two conversion-rate bits CRATE1:CRATE0 for each rate. */
  function RateBits(rate: TempConvRate): (b: bv8)
    ensures b & !(CRATE1 | CRATE0) == 0
  {
    match rate
    case Every64s => 0
    case Every128s => CRATE0
    case Every256s => CRATE1
    case Every512s => CRATE1 | CRATE0
  }

  /** Different rates have different bits. */
  lemma RateBitsInjective(a: TempConvRate, b: TempConvRate)
    ensures RateBits(a) == RateBits(b) <==> a == b
  {
  }

  /**
   * The status `set_temperature_conversion_rate` computes, with the source's operator
   * precedence made explicit: in the 256 s arm `&` binds tighter than `|`, so CRATE0 is
   * never cleared.
   */
  function ConversionRateStatusAsWritten(status: bv8, rate: TempConvRate): (s: bv8)
    ensures s & !(CRATE1 | CRATE0) == status & !(CRATE1 | CRATE0)
    ensures rate != Every256s ==> s & (CRATE1 | CRATE0) == RateBits(rate)
    ensures rate == Every256s ==> s & CRATE1 == CRATE1 && s & CRATE0 == status & CRATE0
  {
    match rate
    case Every64s => status & !CRATE1 & !CRATE0
    case Every128s => (status & !CRATE1) | CRATE0
    case Every256s => status | (CRATE1 & !CRATE0)
    case Every512s => status | CRATE1 | CRATE0
  }

  /** The 256 s arm leaves CRATE0 as cached, so from a 128 s setting it selects 512 s. */
  lemma ConversionRateAsWrittenKeepsCrate0(status: bv8)
    ensures ConversionRateStatusAsWritten(status, Every256s) & CRATE0 == status & CRATE0
    ensures ConversionRateStatusAsWritten(CRATE0, Every256s) == RateBits(Every512s)
    ensures ConversionRateStatusAsWritten(CRATE0, Every256s) != RateBits(Every256s)
  {
  }

  /** The intended status: CRATE1:CRATE0 hold the rate, every other bit as cached. */
  function ConversionRateStatus(status: bv8, rate: TempConvRate): (s: bv8)
    ensures s & (CRATE1 | CRATE0) == RateBits(rate)
    ensures s & !(CRATE1 | CRATE0) == status & !(CRATE1 | CRATE0)
  {
    (status & !(CRATE1 | CRATE0)) | RateBits(rate)
  }

  /** The source's arms agree with the intended status for every rate but 256 s, and there when CRATE0 was clear. */
  lemma ConversionRateAgreesOtherwise(status: bv8, rate: TempConvRate)
    ensures (rate != Every256s || status & CRATE0 == 0) ==>
      ConversionRateStatusAsWritten(status, rate) == ConversionRateStatus(status, rate)
  {
  }

  /** The value for the temperature-conversion control register: 0 keeps conversions on battery, TEMP_CONV_BAT stops them. */
  function TempConvOnBatteryValue(enable: bool): (v: bv8)
    ensures v == 0 <==> enable
    ensures v & !TEMP_CONV_BAT == 0
  {
    if enable then 0 else TEMP_CONV_BAT
  }
}
