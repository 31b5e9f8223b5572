/** Packed-BCD conversion and the hours-register encoding shared by the time and alarm code. */
module Codec {
  import opened Registers

  /** The two nibbles of `b` are decimal digits. */
  predicate IsPackedBcd(b: bv8) {
    b >> 4 <= 9 && b & 0x0F <= 9
  }

  /** Packs a decimal number (0..99 when in range) into one BCD byte, with u8 truncation of the shift. */
  function DecimalToPackedBcd(dec: bv8): (bcd: bv8)
    ensures dec <= 99 ==> IsPackedBcd(bcd) && bcd >> 4 == dec / 10 && bcd & 0x0F == dec % 10
  {
    ((dec / 10) << 4) | (dec % 10)
  }

  /** Unpacks a BCD byte; for a byte with a non-decimal nibble the result is the same arithmetic on the nibble values. */
  function PackedBcdToDecimal(bcd: bv8): (dec: bv8)
    ensures dec as int == (bcd >> 4) as int * 10 + (bcd & 0x0F) as int
    ensures IsPackedBcd(bcd) ==> dec <= 99
  {
    (bcd >> 4) * 10 + (bcd & 0x0F)
  }

  lemma BcdRoundTrip(n: bv8)
    requires n <= 99
    ensures PackedBcdToDecimal(DecimalToPackedBcd(n)) == n
  {
  }

  lemma BcdByteRoundTrip(b: bv8)
    requires IsPackedBcd(b)
    ensures DecimalToPackedBcd(PackedBcdToDecimal(b)) == b
  {
  }

  /** The conversion table the unit tests of the codec check, in both directions. */
  lemma BcdVectors()
    ensures DecimalToPackedBcd(0) == 0x00 && PackedBcdToDecimal(0x00) == 0
    ensures DecimalToPackedBcd(1) == 0x01 && PackedBcdToDecimal(0x01) == 1
    ensures DecimalToPackedBcd(9) == 0x09 && PackedBcdToDecimal(0x09) == 9
    ensures DecimalToPackedBcd(10) == 0x10 && PackedBcdToDecimal(0x10) == 10
    ensures DecimalToPackedBcd(11) == 0x11 && PackedBcdToDecimal(0x11) == 11
    ensures DecimalToPackedBcd(19) == 0x19 && PackedBcdToDecimal(0x19) == 19
    ensures DecimalToPackedBcd(20) == 0x20 && PackedBcdToDecimal(0x20) == 20
    ensures DecimalToPackedBcd(21) == 0x21 && PackedBcdToDecimal(0x21) == 21
    ensures DecimalToPackedBcd(59) == 0x59 && PackedBcdToDecimal(0x59) == 59
  {
  }

  /** Hours in either 12-hour (AM/PM, 1..12) or 24-hour (0..23) format. */
  datatype Hours = AM(h: bv8) | PM(h: bv8) | H24(h: bv8)

  /** The hour lies in its format's range. */
  predicate ValidHours(hours: Hours) {
    match hours
    case H24(h) => h <= 23
    case AM(h) => 1 <= h <= 12
    case PM(h) => 1 <= h <= 12
  }

  /**
   * The hours-register byte for `hours`: bit 6 selects 12-hour mode, bit 5 selects PM,
   * the low bits hold the hour in BCD. Out-of-range hours are rejected.
   */
  function HoursToRegister(hours: Hours): (r: Result<bv8>)
    ensures r.Err? <==> !ValidHours(hours)
    ensures r.Err? ==> r.error == InvalidInputData
    ensures r.Ok? && hours.H24? ==> r.value & H24_H12 == 0 && r.value & 0x3F == DecimalToPackedBcd(hours.h)
    ensures r.Ok? && hours.AM? ==>
      r.value & H24_H12 != 0 && r.value & AM_PM == 0 && r.value & 0x1F == DecimalToPackedBcd(hours.h)
    ensures r.Ok? && hours.PM? ==>
      r.value & H24_H12 != 0 && r.value & AM_PM != 0 && r.value & 0x1F == DecimalToPackedBcd(hours.h)
    ensures r.Ok? ==> r.value & 0x80 == 0
  {
    match hours
    case H24(h) => if h > 23 then Err(InvalidInputData) else Ok(DecimalToPackedBcd(h))
    case AM(h) => if !(1 <= h <= 12) then Err(InvalidInputData) else Ok(H24_H12 | DecimalToPackedBcd(h))
    case PM(h) => if !(1 <= h <= 12) then Err(InvalidInputData) else Ok(H24_H12 | AM_PM | DecimalToPackedBcd(h))
  }

  /** Unwraps an optional value read from the device, or reports an invalid device state. */
  function SomeOrInvalidError<T>(data: Option<T>): (r: Result<T>)
    ensures r.Ok? <==> data.Some?
    ensures data.Some? ==> r.value == data.value
    ensures data.None? ==> r.error == InvalidDeviceState
  {
    if data.Some? then Ok(data.value) else Err(InvalidDeviceState)
  }

  /** The two unit tests of `SomeOrInvalidError`. */
  lemma SomeOrInvalidErrorVectors()
    ensures SomeOrInvalidError(Some(1 as bv8)) == Ok(1)
    ensures SomeOrInvalidError<bv8>(None) == Err(InvalidDeviceState)
  {
  }
}
