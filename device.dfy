/**
 * The driver object: an interface to the chip plus cached copies of the control and status
 * registers, with the operations of the time, alarm, status and configuration code and the
 * variant-specific ones.
 */
module Device {
  import opened Registers
  import opened Codec
  import opened DateTime
  import opened Alarms
  import Status
  import opened Configuration
  import opened Variants
  import opened Bus
  import opened BusInterface

  /** A one-register read decoded from packed BCD. */
  function Decimal(r: Result<bv8>): (d: Result<bv8>)
    ensures d.Err? <==> r.Err?
    ensures d.Err? ==> d.error == r.error
    ensures r.Ok? && IsPackedBcd(r.value) ==> d.value <= 99 && DecimalToPackedBcd(d.value) == r.value
  {
    match r
    case Ok(b) => BcdByteRoundTripIfValid(b); Ok(PackedBcdToDecimal(b))
    case Err(e) => Err(e)
  }

  /** `BcdByteRoundTrip` for a byte that may or may not be valid BCD. */
  lemma BcdByteRoundTripIfValid(b: bv8)
    ensures IsPackedBcd(b) ==> DecimalToPackedBcd(PackedBcdToDecimal(b)) == b
  {
    if IsPackedBcd(b) {
      BcdByteRoundTrip(b);
    }
  }

  /**
   * The effect of a setter that validates and encodes its input, then writes one register:
   * rejected input leaves the bus untouched; otherwise exactly one write of the encoded byte.
   */
  ghost predicate SetterEffect(iface: Interface, s0: BusState, s1: BusState, register: bv8,
                               encoded: Result<bv8>, r: Result<()>) {
    if encoded.Err? then r == Err(encoded.error) && s1 == s0
    else s1 == iface.AfterWrite(s0, [register, encoded.value]) && r == iface.WriteResult(s0)
  }

  /**
   * The effect of reading `register`, then writing back what `next` makes of the byte read, if
   * anything: a failed read ends there; a write happens only when `next` asks for one.
   */
  ghost predicate ReadModifyWriteEffect(iface: Interface, s0: BusState, s1: BusState, register: bv8,
                                        next: Option<bv8>, r: Result<()>) {
    var read := iface.RegisterRead(s0, register);
    var s := iface.AfterRead(s0, [register, 0]);
    if read.Err? then r == Err(read.error) && s1 == s
    else if next.None? then r == Ok(()) && s1 == s
    else s1 == iface.AfterWrite(s, [register, next.value]) && r == iface.WriteResult(s)
  }

  /** The DS3231, DS3232 or DS3234 driver. */
  class Ds323x {
    const iface: Interface
    const ic: Ic
    /** Cached control register. */
    var control: bv8
    /** Cached status register. */
    var status: bv8

    ghost predicate Valid()
      reads this, iface.bus
    {
      iface.bus.Valid() && (ic == DS3234 <==> iface.SpiInterface?)
    }

    /** `new_ds3231`: the caches hold the power-on values; the bus is not touched. */
    constructor NewDs3231(i2c: Bus)
      requires i2c.Valid()
      ensures Valid()
      ensures iface == I2cInterface(i2c) && ic == DS3231
      ensures control == CONTROL_POR_VALUE && status == DS3231_STATUS_POR_VALUE
      ensures i2c.State() == old(i2c.State())
    {
      iface := I2cInterface(i2c);
      ic := DS3231;
      control := CONTROL_POR_VALUE;
      status := DS3231_STATUS_POR_VALUE;
    }

    /** `new_ds3234`: the caches hold the power-on values; the bus is not touched. */
    constructor NewDs3234(spi: Bus)
      requires spi.Valid()
      ensures Valid()
      ensures iface == SpiInterface(spi) && ic == DS3234
      ensures control == CONTROL_POR_VALUE && status == DS3234_STATUS_POR_VALUE
      ensures spi.State() == old(spi.State())
    {
      iface := SpiInterface(spi);
      ic := DS3234;
      control := CONTROL_POR_VALUE;
      status := DS3234_STATUS_POR_VALUE;
    }

    /** `destroy_ds3231`: hands back the I2C bus the driver was built on. */
    method DestroyDs3231() returns (i2c: Bus)
      requires Valid() && ic == DS3231
      ensures iface == I2cInterface(i2c)
    {
      i2c := iface.bus;
    }

    /** `destroy_ds3234`: hands back the SPI bus and chip-select line the driver was built on. */
    method DestroyDs3234() returns (spi: Bus)
      requires Valid() && ic == DS3234
      ensures iface == SpiInterface(spi)
    {
      spi := iface.bus;
    }

    /** `get_seconds`. */
    method GetSeconds() returns (r: Result<bv8>)
      requires Valid()
      modifies iface.bus
      ensures Valid()
      ensures iface.bus.State() == iface.AfterRead(old(iface.bus.State()), [REG_SECONDS, 0])
      ensures r == Decimal(iface.RegisterRead(old(iface.bus.State()), REG_SECONDS))
    {
      var data := iface.ReadRegister(REG_SECONDS);
      r := Decimal(data);
    }

    /** `get_minutes`. */
    method GetMinutes() returns (r: Result<bv8>)
      requires Valid()
      modifies iface.bus
      ensures Valid()
      ensures iface.bus.State() == iface.AfterRead(old(iface.bus.State()), [REG_MINUTES, 0])
      ensures r == Decimal(iface.RegisterRead(old(iface.bus.State()), REG_MINUTES))
    {
      var data := iface.ReadRegister(REG_MINUTES);
      r := Decimal(data);
    }

    /** `get_hours`. */
    method GetHours() returns (r: Result<Hours>)
      requires Valid()
      modifies iface.bus
      ensures Valid()
      ensures iface.bus.State() == iface.AfterRead(old(iface.bus.State()), [REG_HOURS, 0])
      ensures var read := iface.RegisterRead(old(iface.bus.State()), REG_HOURS);
        r == if read.Ok? then HoursFromRegister(read.value) else Err(read.error)
    {
      var data := iface.ReadRegister(REG_HOURS);
      if data.Err? {
        return Err(data.error);
      }
      r := HoursFromRegister(data.value);
    }

    /** `get_weekday`. */
    method GetWeekday() returns (r: Result<bv8>)
      requires Valid()
      modifies iface.bus
      ensures Valid()
      ensures iface.bus.State() == iface.AfterRead(old(iface.bus.State()), [REG_DOW, 0])
      ensures r == Decimal(iface.RegisterRead(old(iface.bus.State()), REG_DOW))
    {
      var data := iface.ReadRegister(REG_DOW);
      r := Decimal(data);
    }

    /** `get_day`. */
    method GetDay() returns (r: Result<bv8>)
      requires Valid()
      modifies iface.bus
      ensures Valid()
      ensures iface.bus.State() == iface.AfterRead(old(iface.bus.State()), [REG_DOM, 0])
      ensures r == Decimal(iface.RegisterRead(old(iface.bus.State()), REG_DOM))
    {
      var data := iface.ReadRegister(REG_DOM);
      r := Decimal(data);
    }

    /** `get_month`: the century bit is masked off. */
    method GetMonth() returns (r: Result<bv8>)
      requires Valid()
      modifies iface.bus
      ensures Valid()
      ensures iface.bus.State() == iface.AfterRead(old(iface.bus.State()), [REG_MONTH, 0])
      ensures var read := iface.RegisterRead(old(iface.bus.State()), REG_MONTH);
        r == if read.Ok? then Ok(DecodeMonth(read.value)) else Err(read.error)
    {
      var data := iface.ReadRegister(REG_MONTH);
      if data.Err? {
        return Err(data.error);
      }
      r := Ok(DecodeMonth(data.value));
    }

    /** `get_year`: one two-byte read of the month and year registers. */
    method GetYear() returns (r: Result<u16>)
      requires Valid()
      modifies iface.bus
      ensures Valid()
      ensures iface.bus.State() == iface.AfterRead(old(iface.bus.State()), [REG_MONTH, 0, 0])
      ensures var read := iface.ReadResult(old(iface.bus.State()), [REG_MONTH, 0, 0]);
        r == if read.Ok? then Ok(DecodeYear(read.value[0], read.value[1])) else Err(read.error)
    {
      var data := new bv8[3];
      data[0], data[1], data[2] := REG_MONTH, 0, 0;
      assert data[..] == [REG_MONTH, 0, 0];
      var read := iface.ReadData(data);
      if read.Err? {
        return Err(read.error);
      }
      r := Ok(DecodeYear(data[1], data[2]));
    }

    /** `set_seconds`: 0..59, written in BCD. */
    method SetSeconds(seconds: bv8) returns (r: Result<()>)
      requires Valid()
      modifies iface.bus
      ensures Valid()
      ensures SetterEffect(iface, old(iface.bus.State()), iface.bus.State(), REG_SECONDS, EncodeSexagesimal(seconds), r)
    {
      if seconds > 59 {
        return Err(InvalidInputData);
      }
      r := iface.WriteRegister(REG_SECONDS, DecimalToPackedBcd(seconds));
    }

    /** `set_minutes`: 0..59, written in BCD. */
    method SetMinutes(minutes: bv8) returns (r: Result<()>)
      requires Valid()
      modifies iface.bus
      ensures Valid()
      ensures SetterEffect(iface, old(iface.bus.State()), iface.bus.State(), REG_MINUTES, EncodeSexagesimal(minutes), r)
    {
      if minutes > 59 {
        return Err(InvalidInputData);
      }
      r := iface.WriteRegister(REG_MINUTES, DecimalToPackedBcd(minutes));
    }

    /** `set_hours`: also selects 12- or 24-hour mode. */
    method SetHours(hours: Hours) returns (r: Result<()>)
      requires Valid()
      modifies iface.bus
      ensures Valid()
      ensures SetterEffect(iface, old(iface.bus.State()), iface.bus.State(), REG_HOURS, HoursToRegister(hours), r)
    {
      var value := HoursToRegister(hours);
      if value.Err? {
        return Err(value.error);
      }
      r := iface.WriteRegister(REG_HOURS, value.value);
    }

    /** `set_weekday`: 1..7, written as is. */
    method SetWeekday(weekday: bv8) returns (r: Result<()>)
      requires Valid()
      modifies iface.bus
      ensures Valid()
      ensures SetterEffect(iface, old(iface.bus.State()), iface.bus.State(), REG_DOW, EncodeWeekday(weekday), r)
    {
      if weekday < 1 || weekday > 7 {
        return Err(InvalidInputData);
      }
      r := iface.WriteRegister(REG_DOW, weekday);
    }

    /** `set_day` as the source has it: only 1..7 is accepted, and the day is written unconverted. */
    method SetDay(day: bv8) returns (r: Result<()>)
      requires Valid()
      modifies iface.bus
      ensures Valid()
      ensures SetterEffect(iface, old(iface.bus.State()), iface.bus.State(), REG_DOM, EncodeDayAsWritten(day), r)
    {
      if day < 1 || day > 7 {
        return Err(InvalidInputData);
      }
      r := iface.WriteRegister(REG_DOM, day);
    }

    /** `set_month`: validates before any bus access, then rewrites the month keeping the century bit. */
    method SetMonth(month: bv8) returns (r: Result<()>)
      requires Valid()
      modifies iface.bus
      ensures Valid()
      ensures month < 1 || month > 12 ==> r == Err(InvalidInputData) && iface.bus.State() == old(iface.bus.State())
      ensures 1 <= month <= 12 ==>
        var read := iface.RegisterRead(old(iface.bus.State()), REG_MONTH);
        ReadModifyWriteEffect(iface, old(iface.bus.State()), iface.bus.State(), REG_MONTH,
          if read.Ok? then Some(EncodeMonth(read.value, month).value) else None, r)
    {
      if month < 1 || month > 12 {
        return Err(InvalidInputData);
      }
      var data := iface.ReadRegister(REG_MONTH);
      if data.Err? {
        return Err(data.error);
      }
      var value := (data.value & CENTURY) | DecimalToPackedBcd(month);
      assert value == EncodeMonth(data.value, month).value;
      r := iface.WriteRegister(REG_MONTH, value);
    }

    /**
     * `set_year`: validates before any bus access, reads the month register, then writes the
     * month (century bit set only for 2100) and the year in one two-byte burst.
     */
    method SetYear(year: u16) returns (r: Result<()>)
      requires Valid()
      modifies iface.bus
      ensures Valid()
      ensures year < 2000 || year > 2100 ==> r == Err(InvalidInputData) && iface.bus.State() == old(iface.bus.State())
      ensures 2000 <= year <= 2100 ==>
        var read := iface.RegisterRead(old(iface.bus.State()), REG_MONTH);
        var s := iface.AfterRead(old(iface.bus.State()), [REG_MONTH, 0]);
        if read.Err? then r == Err(read.error) && iface.bus.State() == s
        else
          var bytes := EncodeYear(read.value, year).value;
          iface.bus.State() == iface.AfterWrite(s, [REG_MONTH, bytes.0, bytes.1]) && r == iface.WriteResult(s)
    {
      if year < 2000 || year > 2100 {
        return Err(InvalidInputData);
      }
      var data := iface.ReadRegister(REG_MONTH);
      if data.Err? {
        return Err(data.error);
      }
      var monthBcd := data.value & !CENTURY;
      if year > 2099 {
        r := iface.WriteData([REG_MONTH, CENTURY | monthBcd, DecimalToPackedBcd((year - 2100) as bv8)]);
      } else {
        r := iface.WriteData([REG_MONTH, monthBcd, DecimalToPackedBcd((year - 2000) as bv8)]);
      }
    }

    /** `set_alarm1_date`: validates every field, then writes the four alarm registers in one burst. */
    method SetAlarm1Date(when: DateAlarm1, matching: Alarm1Matching) returns (r: Result<()>)
      requires Valid()
      modifies iface.bus
      ensures Valid()
      ensures Alarm1Payload(when, matching).Err? ==>
        r == Err(InvalidInputData) && iface.bus.State() == old(iface.bus.State())
      ensures Alarm1Payload(when, matching).Ok? ==>
        iface.bus.State() == iface.AfterWrite(old(iface.bus.State()), Alarm1Payload(when, matching).value) &&
        r == iface.WriteResult(old(iface.bus.State()))
    {
      var data := Alarm1Payload(when, matching);
      if data.Err? {
        return Err(data.error);
      }
      r := iface.WriteData(data.value);
    }

    /** `is_busy`: reads the status register, writes nothing. */
    method IsBusy() returns (r: Result<bool>)
      requires Valid()
      modifies iface.bus
      ensures Valid()
      ensures iface.bus.State() == iface.AfterRead(old(iface.bus.State()), [REG_STATUS, 0])
      ensures var read := iface.RegisterRead(old(iface.bus.State()), REG_STATUS);
        r == if read.Ok? then Ok(Status.IsBusy(read.value)) else Err(read.error)
    {
      var data := iface.ReadRegister(REG_STATUS);
      if data.Err? {
        return Err(data.error);
      }
      r := Ok(data.value & BUSY != 0);
    }

    /** `has_been_stopped`: reads the status register, writes nothing. */
    method HasBeenStopped() returns (r: Result<bool>)
      requires Valid()
      modifies iface.bus
      ensures Valid()
      ensures iface.bus.State() == iface.AfterRead(old(iface.bus.State()), [REG_STATUS, 0])
      ensures var read := iface.RegisterRead(old(iface.bus.State()), REG_STATUS);
        r == if read.Ok? then Ok(Status.HasBeenStopped(read.value)) else Err(read.error)
    {
      var data := iface.ReadRegister(REG_STATUS);
      if data.Err? {
        return Err(data.error);
      }
      r := Ok(data.value & OSC_STOP != 0);
    }

    /** `clear_has_been_stopped_flag`: writes the status register back only when OSC_STOP is set. */
    method ClearHasBeenStoppedFlag() returns (r: Result<()>)
      requires Valid()
      modifies iface.bus
      ensures Valid()
      ensures var read := iface.RegisterRead(old(iface.bus.State()), REG_STATUS);
        ReadModifyWriteEffect(iface, old(iface.bus.State()), iface.bus.State(), REG_STATUS,
          if read.Ok? then Status.ClearStoppedWrite(read.value) else None, r)
    {
      var data := iface.ReadRegister(REG_STATUS);
      if data.Err? {
        return Err(data.error);
      }
      if data.value & OSC_STOP != 0 {
        r := iface.WriteRegister(REG_STATUS, data.value & !OSC_STOP);
        if r.Err? {
          return;
        }
      }
      r := Ok(());
    }

    /** `get_temperature`, in quarter degrees Celsius: one two-byte read from TEMP_MSB. */
    method GetTemperature() returns (r: Result<int>)
      requires Valid()
      modifies iface.bus
      ensures Valid()
      ensures iface.bus.State() == iface.AfterRead(old(iface.bus.State()), [REG_TEMP_MSB, 0, 0])
      ensures var read := iface.ReadResult(old(iface.bus.State()), [REG_TEMP_MSB, 0, 0]);
        r == if read.Ok? then Ok(Status.TemperatureQuarters(read.value[0], read.value[1])) else Err(read.error)
    {
      var data := new bv8[3];
      data[0], data[1], data[2] := REG_TEMP_MSB, 0, 0;
      assert data[..] == [REG_TEMP_MSB, 0, 0];
      var read := iface.ReadData(data);
      if read.Err? {
        return Err(read.error);
      }
      r := Ok(Status.TemperatureQuarters(data[1], data[2]));
    }

    /** `enable`: clears EOSC in the control register, writing only when it was set. */
    method Enable() returns (r: Result<()>)
      requires Valid()
      modifies iface.bus
      ensures Valid()
      ensures var read := iface.RegisterRead(old(iface.bus.State()), REG_CONTROL);
        ReadModifyWriteEffect(iface, old(iface.bus.State()), iface.bus.State(), REG_CONTROL,
          if read.Ok? then EnableWrite(read.value) else None, r)
    {
      var control := iface.ReadRegister(REG_CONTROL);
      if control.Err? {
        return Err(control.error);
      }
      if control.value & EOSC != 0 {
        r := iface.WriteRegister(REG_CONTROL, control.value & !EOSC);
        if r.Err? {
          return;
        }
      }
      r := Ok(());
    }

    /** `disable`: sets EOSC in the control register, writing only when it was clear. */
    method Disable() returns (r: Result<()>)
      requires Valid()
      modifies iface.bus
      ensures Valid()
      ensures var read := iface.RegisterRead(old(iface.bus.State()), REG_CONTROL);
        ReadModifyWriteEffect(iface, old(iface.bus.State()), iface.bus.State(), REG_CONTROL,
          if read.Ok? then DisableWrite(read.value) else None, r)
    {
      var control := iface.ReadRegister(REG_CONTROL);
      if control.Err? {
        return Err(control.error);
      }
      if control.value & EOSC == 0 {
        r := iface.WriteRegister(REG_CONTROL, control.value | EOSC);
        if r.Err? {
          return;
        }
      }
      r := Ok(());
    }

    /**
     * Writes a computed status byte to the chip without clearing the alarm flags. What this does
     * to the cached status is not part of the model, so the contract leaves `status` open.
     */
    method WriteStatusWithoutClearingAlarm(newStatus: bv8) returns (r: Result<()>)
      requires Valid()
      modifies iface.bus, this`status
      ensures Valid()
      ensures iface.bus.State() == iface.AfterWrite(old(iface.bus.State()), [REG_STATUS, StatusWriteByte(newStatus)])
      ensures r == iface.WriteResult(old(iface.bus.State()))
    {
      r := iface.WriteRegister(REG_STATUS, newStatus | ALARM2F | ALARM1F);
    }

    /** `enable_32khz_output_on_battery` (DS3232, DS3234): writes the cached status with BB32KHZ set. */
    method Enable32kHzOutputOnBattery() returns (r: Result<()>)
      requires Valid() && ic != DS3231
      modifies iface.bus, this`status
      ensures Valid()
      ensures iface.bus.State() ==
        iface.AfterWrite(old(iface.bus.State()), [REG_STATUS, StatusWriteByte(Enable32kHzOnBattery(old(status)))])
      ensures r == iface.WriteResult(old(iface.bus.State()))
    {
      var newStatus := status | BB32KHZ;
      r := WriteStatusWithoutClearingAlarm(newStatus);
    }

    /** `disable_32khz_output_on_battery` (DS3232, DS3234): writes the cached status with BB32KHZ cleared. */
    method Disable32kHzOutputOnBattery() returns (r: Result<()>)
      requires Valid() && ic != DS3231
      modifies iface.bus, this`status
      ensures Valid()
      ensures iface.bus.State() ==
        iface.AfterWrite(old(iface.bus.State()), [REG_STATUS, StatusWriteByte(Disable32kHzOnBattery(old(status)))])
      ensures r == iface.WriteResult(old(iface.bus.State()))
    {
      var newStatus := status & !BB32KHZ;
      r := WriteStatusWithoutClearingAlarm(newStatus);
    }

    /**
     * `set_temperature_conversion_rate` (DS3234) as the source has it: the 256 s arm sets CRATE1
     * but leaves CRATE0 as cached.
     */
    method SetTemperatureConversionRate(rate: TempConvRate) returns (r: Result<()>)
      requires Valid() && ic == DS3234
      modifies iface.bus, this`status
      ensures Valid()
      ensures iface.bus.State() ==
        iface.AfterWrite(old(iface.bus.State()), [REG_STATUS, StatusWriteByte(ConversionRateStatusAsWritten(old(status), rate))])
      ensures r == iface.WriteResult(old(iface.bus.State()))
    {
      var newStatus: bv8;
      match rate {
        case Every64s => newStatus := status & !CRATE1 & !CRATE0;
        case Every128s => newStatus := (status & !CRATE1) | CRATE0;
        case Every256s => newStatus := status | (CRATE1 & !CRATE0);
        case Every512s => newStatus := status | CRATE1 | CRATE0;
      }
      r := WriteStatusWithoutClearingAlarm(newStatus);
    }

    /** `enable_temperature_conversions_on_battery` (DS3234): writes 0 to the conversion control register. */
    method EnableTemperatureConversionsOnBattery() returns (r: Result<()>)
      requires Valid() && ic == DS3234
      modifies iface.bus
      ensures Valid()
      ensures iface.bus.State() == iface.AfterWrite(old(iface.bus.State()), [REG_TEMP_CONV, TempConvOnBatteryValue(true)])
      ensures r == iface.WriteResult(old(iface.bus.State()))
    {
      r := iface.WriteRegister(REG_TEMP_CONV, 0);
    }

    /** `disable_temperature_conversions_on_battery` (DS3234): writes TEMP_CONV_BAT to the conversion control register. */
    method DisableTemperatureConversionsOnBattery() returns (r: Result<()>)
      requires Valid() && ic == DS3234
      modifies iface.bus
      ensures Valid()
      ensures iface.bus.State() == iface.AfterWrite(old(iface.bus.State()), [REG_TEMP_CONV, TempConvOnBatteryValue(false)])
      ensures r == iface.WriteResult(old(iface.bus.State()))
    {
      r := iface.WriteRegister(REG_TEMP_CONV, TEMP_CONV_BAT);
    }
  }
}
