/**
 * The register encodings of the time and date fields: what each setter writes (or why it
 * refuses) and how each getter reads a register back.
 */
module DateTime {
  import opened Registers
  import opened Codec

  /** The hours register is in 24-hour mode. */
  predicate IsH24Format(hoursData: bv8) {
    hoursData & H24_H12 == 0
  }

  /** In 12-hour mode, the hours register says AM. */
  predicate IsAm(hoursData: bv8) {
    hoursData & AM_PM == 0
  }

  /** Decodes the hours register; the source never reports an error here. */
  function HoursFromRegister(data: bv8): (r: Result<Hours>)
    ensures r.Ok?
    ensures r.value.H24? <==> data & H24_H12 == 0
    ensures r.value.AM? <==> data & H24_H12 != 0 && data & AM_PM == 0
  {
    if IsH24Format(data) then
      Ok(H24(PackedBcdToDecimal(data & !H24_H12)))
    else if IsAm(data) then
      Ok(AM(PackedBcdToDecimal(data & !(H24_H12 | AM_PM))))
    else
      Ok(PM(PackedBcdToDecimal(data & !(H24_H12 | AM_PM))))
  }

  /** The two mode tests choose the variant `HoursFromRegister` reads. */
  lemma HoursModeFlags(data: bv8)
    ensures IsH24Format(data) <==> HoursFromRegister(data).value.H24?
    ensures !IsH24Format(data) ==> (IsAm(data) <==> HoursFromRegister(data).value.AM?)
  {
  }

  /** The two mode tests recognise the variant `HoursToRegister` wrote. */
  lemma HoursModeFlagsWritten(hours: Hours)
    requires ValidHours(hours)
    ensures IsH24Format(HoursToRegister(hours).value) <==> hours.H24?
    ensures !hours.H24? ==> (IsAm(HoursToRegister(hours).value) <==> hours.AM?)
  {
  }

  /** A byte that `HoursToRegister` can produce. */
  predicate IsHoursRegister(b: bv8) {
    b & 0x80 == 0 &&
    if b & H24_H12 == 0 then
      IsPackedBcd(b) && PackedBcdToDecimal(b) <= 23
    else
      var low := b & 0x1F;
      IsPackedBcd(low) && 1 <= PackedBcdToDecimal(low) <= 12
  }

  lemma HoursRoundTrip(hours: Hours)
    requires ValidHours(hours)
    ensures HoursToRegister(hours).Ok?
    ensures IsHoursRegister(HoursToRegister(hours).value)
    ensures HoursFromRegister(HoursToRegister(hours).value) == Ok(hours)
  {
  }

  lemma HoursRegisterRoundTrip(b: bv8)
    requires IsHoursRegister(b)
    ensures ValidHours(HoursFromRegister(b).value)
    ensures HoursToRegister(HoursFromRegister(b).value) == Ok(b)
  {
  }

  /** The hours test vectors, in both directions. */
  lemma HoursVectors()
    ensures HoursToRegister(H24(21)) == Ok(0x21) && HoursFromRegister(0x21) == Ok(H24(21))
    ensures HoursToRegister(AM(12)) == Ok(0x52) && HoursFromRegister(0x52) == Ok(AM(12))
    ensures HoursToRegister(PM(12)) == Ok(0x72) && HoursFromRegister(0x72) == Ok(PM(12))
    ensures HoursToRegister(H24(24)).Err? && HoursToRegister(AM(0)).Err? && HoursToRegister(AM(13)).Err?
    ensures HoursToRegister(PM(0)).Err? && HoursToRegister(PM(13)).Err?
  {
  }

  /** The byte `set_seconds` and `set_minutes` write, or their refusal of a value above 59. */
  function EncodeSexagesimal(value: bv8): (r: Result<bv8>)
    ensures r.Err? <==> value > 59
    ensures r.Err? ==> r.error == InvalidInputData
    ensures r.Ok? ==> IsPackedBcd(r.value) && PackedBcdToDecimal(r.value) == value
  {
    if value > 59 then Err(InvalidInputData) else Ok(DecimalToPackedBcd(value))
  }

  /** The byte `set_weekday` writes: the weekday itself, unconverted, for 1..7. */
  function EncodeWeekday(weekday: bv8): (r: Result<bv8>)
    ensures r.Err? <==> weekday < 1 || weekday > 7
    ensures r.Err? ==> r.error == InvalidInputData
    ensures r.Ok? ==> r.value == DecimalToPackedBcd(weekday) && PackedBcdToDecimal(r.value) == weekday
  {
    if weekday < 1 || weekday > 7 then Err(InvalidInputData) else Ok(weekday)
  }

  /** The byte `set_day` writes as the source has it: the day unconverted, and only for 1..7. */
  function EncodeDayAsWritten(day: bv8): (r: Result<bv8>)
    ensures r.Err? <==> day < 1 || day > 7
    ensures r.Err? ==> r.error == InvalidInputData
    ensures r.Ok? ==> r.value == day
  {
    if day < 1 || day > 7 then Err(InvalidInputData) else Ok(day)
  }

  /** The source's `set_day` refuses days of month 8..31, and accepts only a week's worth. */
  lemma DayAsWrittenRejectsValidDays()
    ensures EncodeDayAsWritten(8).Err? && EncodeDayAsWritten(15).Err? && EncodeDayAsWritten(31).Err?
    ensures forall day: bv8 :: EncodeDayAsWritten(day).Ok? ==> day <= 7
  {
  }

  /** The byte `set_day` is evidently meant to write: the day of month 1..31 in BCD. */
  function EncodeDay(day: bv8): (r: Result<bv8>)
    ensures r.Err? <==> day < 1 || day > 31
    ensures r.Err? ==> r.error == InvalidInputData
    ensures r.Ok? ==> IsPackedBcd(r.value) && PackedBcdToDecimal(r.value) == day
  {
    if day < 1 || day > 31 then Err(InvalidInputData) else Ok(DecimalToPackedBcd(day))
  }

  /** Where the source accepts a day, the corrected encoding writes the same byte. */
  lemma EncodeDayExtendsAsWritten(day: bv8)
    requires EncodeDayAsWritten(day).Ok?
    ensures EncodeDay(day) == EncodeDayAsWritten(day)
  {
  }

  /** The month as `get_month` reads it: the century bit is ignored. */
  function DecodeMonth(data: bv8): (month: bv8)
    ensures IsPackedBcd(data & 0x7F) ==> month <= 99
  {
    PackedBcdToDecimal(data & !CENTURY)
  }

  lemma DecodeMonthIgnoresCentury(data: bv8)
    ensures DecodeMonth(data | CENTURY) == DecodeMonth(data & !CENTURY) == DecodeMonth(data)
  {
  }

  /** The byte `set_month` writes over the month register's current value `current`. */
  function EncodeMonth(current: bv8, month: bv8): (r: Result<bv8>)
    ensures r.Err? <==> month < 1 || month > 12
    ensures r.Err? ==> r.error == InvalidInputData
    ensures r.Ok? ==> r.value & CENTURY == current & CENTURY
    ensures r.Ok? ==> r.value & !CENTURY == DecimalToPackedBcd(month)
  {
    if month < 1 || month > 12 then Err(InvalidInputData)
    else Ok((current & CENTURY) | DecimalToPackedBcd(month))
  }

  lemma MonthRoundTrip(current: bv8, month: bv8)
    requires 1 <= month <= 12
    ensures DecodeMonth(EncodeMonth(current, month).value) == month
  {
  }

  /** The month test vectors: without and with the century bit. */
  lemma MonthVectors()
    ensures EncodeMonth(0x02, 12) == Ok(0x12) && EncodeMonth(0x82, 12) == Ok(0x92)
    ensures DecodeMonth(0x01) == 1 && DecodeMonth(0x92) == 12
    ensures EncodeMonth(0x00, 0).Err? && EncodeMonth(0x00, 13).Err?
  {
  }

  /** The year as `get_year` reads it from the month register and the year register. */
  function DecodeYear(monthData: bv8, yearData: bv8): (year: u16)
    ensures IsPackedBcd(yearData) ==> 2000 <= year <= 2199
  {
    var y := PackedBcdToDecimal(yearData);
    if monthData & CENTURY != 0 then 2100 + y as u16 else 2000 + y as u16
  }

  /**
   * The two bytes `set_year` writes at the month register, given the month register's current
   * value: the month with the century bit cleared (set for 2100), then the year within the century.
   */
  function EncodeYear(currentMonth: bv8, year: u16): (r: Result<(bv8, bv8)>)
    ensures r.Err? <==> year < 2000 || year > 2100
    ensures r.Err? ==> r.error == InvalidInputData
    ensures r.Ok? ==> r.value.0 & !CENTURY == currentMonth & !CENTURY
    ensures r.Ok? ==> (r.value.0 & CENTURY != 0 <==> year == 2100)
    ensures r.Ok? ==> IsPackedBcd(r.value.1)
  {
    if year < 2000 || year > 2100 then Err(InvalidInputData)
    else
      var monthBcd := currentMonth & !CENTURY;
      if year > 2099 then Ok((CENTURY | monthBcd, DecimalToPackedBcd((year - 2100) as bv8)))
      else Ok((monthBcd, DecimalToPackedBcd((year - 2000) as bv8)))
  }

  lemma YearRoundTrip(currentMonth: bv8, year: u16)
    requires 2000 <= year <= 2100
    ensures EncodeYear(currentMonth, year).Ok?
    ensures DecodeYear(EncodeYear(currentMonth, year).value.0, EncodeYear(currentMonth, year).value.1) == year
    ensures DecodeMonth(EncodeYear(currentMonth, year).value.0) == DecodeMonth(currentMonth)
  {
    var e := EncodeYear(currentMonth, year).value;
    assert DecodeMonth(e.0) == DecodeMonth(currentMonth) by {
      assert e.0 & !CENTURY == currentMonth & !CENTURY;
    }
    YearByteRoundTrip(currentMonth, year);
  }

  /** The second byte `EncodeYear` writes decodes to the year within its century. */
  lemma YearByteRoundTrip(currentMonth: bv8, year: u16)
    requires 2000 <= year <= 2100
    ensures PackedBcdToDecimal(EncodeYear(currentMonth, year).value.1) as u16 == (if year == 2100 then 0 else year - 2000)
  {
    var n: bv8 := if year == 2100 then 0 else (year - 2000) as bv8;
    BcdRoundTrip(n);
  }

  /** The century test vectors: 2099 keeps the bit clear, 2100 sets it and stores 0. */
  lemma YearVectors()
    ensures EncodeYear(0x92, 2099) == Ok((0x12, 0x99)) && DecodeYear(0x00, 0x99) == 2099
    ensures EncodeYear(0x12, 2100) == Ok((0x92, 0x00)) && DecodeYear(0x80, 0x00) == 2100
    ensures EncodeYear(0x00, 1999).Err? && EncodeYear(0x00, 2101).Err?
  {
  }
}
