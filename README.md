# ds323x register layer, modelled in Dafny

This project models the register encode/decode layer of the `ds323x` driver for the Maxim
DS3231, DS3232 and DS3234 real-time clocks. That layer covers:

- the packed-BCD codec and the hours-register layout (12/24-hour mode, AM/PM bit);
- the time and date getters and setters, including the read-modify-write of the month register
  that keeps its century bit, and the two-byte month/year burst of `set_year`;
- the alarm-1 "on a date" burst, with its matching-mode mask table;
- the status and control bit logic. This covers busy and oscillator-stopped flags, clearing
  the stopped flag, oscillator enable/disable, and the 10-bit two's-complement temperature;
- the per-variant power-on values of the cached control and status bytes;
- the status toggles computed from the cache on the DS3232/DS3234: 32 kHz output on battery,
  and the temperature conversion rate;
- the I2C and SPI framing: I2C target address 0x68; SPI writes address `register + 0x80`; SPI
  reads drop the echo byte; chip select is driven low and high around every SPI transfer.

Modules, in dependency order:

- `Registers`: register addresses, bit flags, the error and option types, and lemmas about the
  flag and address layout.
- `Codec`: packed BCD and `hours_to_register`.
- `DateTime`: the encodings behind each time and date accessor.
- `Bus`: the chip as seen through the bus. Class `Bus` holds a register file of 0x14 bytes,
  the chip-select level, a transaction counter, a fixed map of which data transactions fail,
  and a ghost log of every transaction on the wire. A deterministic `Step`/`Run` semantics
  states what each transaction does.
- `BusInterface`: the I2C and SPI interfaces over a `Bus`, and the frames each operation puts
  on the wire.
- `Alarms`, `Status`, `Configuration`, `Variants`: the pure bit logic of those parts of the
  driver.
- `Device`: class `Ds323x` with the cached `control` and `status` bytes. Every public operation
  is a method, stated against the bus semantics.
- `Scenarios`: properties seen from the caller of several operations. They cover a setter
  touching only its own register, a set followed by a get returning the value, and a second
  `enable` writing nothing.

Bus errors are an opaque `BusError` that reaches the caller unchanged as `Comm(e)`. Temperatures
are integers in quarter degrees Celsius.

In two places the code does not do what its documentation or its own structure says. The driver
methods `Device.Ds323x.SetDay` and `Device.Ds323x.SetTemperatureConversionRate` model the code
as written. Each discrepancy is shown by a lemma under "## Findings", next to a corrected
definition with its intended property proved:

- `set_day` is documented for days 1..31 but accepts only 1..7;
- the 256 s arm of `set_temperature_conversion_rate` does not clear CRATE0.

## Model

| member | source | states |
|---|---|---|
| Registers.FlagsAreSingleBits | src/lib.rs:444-467 | every bit-flag constant has exactly one bit set |
| Registers.ControlFlagsPartitionByte | src/lib.rs:448-455 | the eight control flags are pairwise disjoint and together cover the byte |
| Registers.StatusFlagsPartitionByte | src/lib.rs:456-463 | the eight status flags are pairwise disjoint and together cover the byte |
| Registers.ControlPorValue | src/lib.rs:470 | the control power-on value is RS2, RS1 and INTCN, nothing else |
| Registers.RegisterLayout | src/lib.rs:426-434 | seconds to year are consecutive, and the four alarm-1 registers end right before ALARM2_MINUTES |
| Registers.RegistersBelowWriteBit | src/lib.rs:425-440 | every register address is below 0x80 and inside the 0x14-byte register file, so the SPI write address fits a byte |
| Registers.DeviceAddressIsSevenBits | src/lib.rs:469 | the I2C address is 0x68 and fits in seven bits |
| Registers.OrAllEight | src/lib.rs:444-467 | the or of eight flags is their explicit eight-way or |
| Codec.DecimalToPackedBcd | src/ds323x/mod.rs:11-13 | for 0..99 the result is valid BCD, with high nibble n/10 and low nibble n%10 |
| Codec.PackedBcdToDecimal | src/ds323x/mod.rs:16-18 | the result is 10 × high nibble + low nibble, and at most 99 for a valid BCD byte |
| Codec.BcdRoundTrip | src/ds323x/mod.rs:11-18 | decoding the encoding of any 0..99 gives it back |
| Codec.BcdByteRoundTrip | src/ds323x/mod.rs:59-70 | encoding the decoding of any valid BCD byte gives it back |
| Codec.BcdVectors | src/ds323x/mod.rs:72-83 | the table of the codec tests, in both directions |
| Codec.HoursToRegister | src/ds323x/mod.rs:20-29 | Err(InvalidInputData) exactly for out-of-range hours; H24 has bit 6 clear, AM has bit 6 set and bit 5 clear, PM has both set; the low bits are BCD(h); bit 7 is clear |
| Codec.SomeOrInvalidError | src/ds323x/mod.rs:31-37 | Ok(x) exactly for Some(x); None gives InvalidDeviceState |
| Codec.SomeOrInvalidErrorVectors | src/ds323x/mod.rs:43-57 | the two unit tests |
| DateTime.IsH24Format | src/ds323x/datetime.rs:188-190 | true exactly when H24_H12 is clear; its meaning is fixed by HoursFromRegister's ensures, HoursModeFlags, HoursModeFlagsWritten and the two hours round-trip lemmas |
| DateTime.IsAm | src/ds323x/datetime.rs:192-194 | true exactly when AM_PM is clear; its meaning is fixed by HoursFromRegister's ensures, HoursModeFlags, HoursModeFlagsWritten and the two hours round-trip lemmas |
| DateTime.HoursModeFlags | src/ds323x/datetime.rs:188-194 | the 24-hour test holds exactly when the register decodes to H24, and in 12-hour mode the AM test holds exactly when it decodes to AM |
| DateTime.HoursModeFlagsWritten | src/ds323x/datetime.rs:188-194 | for every valid hour, the 24-hour test recognises exactly the H24 bytes written, and the AM test exactly the AM bytes (written by src/ds323x/mod.rs:20-29) |
| DateTime.HoursFromRegister | src/ds323x/datetime.rs:38-48 | never fails; H24 exactly when bit 6 is clear, AM exactly when bit 6 is set and bit 5 clear |
| DateTime.HoursRoundTrip | src/ds323x/datetime.rs:117-126 | every valid hour encodes to a legal hours byte that decodes back to it (also decoded by src/ds323x/datetime.rs:38-48) |
| DateTime.HoursRegisterRoundTrip | src/ds323x/datetime.rs:38-48 | every legal hours byte decodes to a valid hour that encodes back to the same byte (also encoded by src/ds323x/datetime.rs:117-126) |
| DateTime.HoursVectors | tests/datetime.rs:118-137 | H24(21)↔0x21, AM(12)↔0x52, PM(12)↔0x72, and the rejected hours of the tests |
| DateTime.EncodeSexagesimal | src/ds323x/datetime.rs:90-105 | seconds and minutes above 59 give InvalidInputData; otherwise the byte is BCD and decodes back to the value |
| DateTime.EncodeWeekday | src/ds323x/datetime.rs:131-136 | weekdays outside 1..7 give InvalidInputData; otherwise the raw weekday is written, which equals its BCD form |
| DateTime.EncodeDayAsWritten | src/ds323x/datetime.rs:141-146 | as written: days outside 1..7 are rejected with InvalidInputData, and accepted days are written unconverted |
| DateTime.DayAsWrittenRejectsValidDays | src/ds323x/datetime.rs:138-146 | the as-written check refuses days 8, 15 and 31 and accepts nothing above 7 |
| DateTime.EncodeDay | src/ds323x/datetime.rs:138-146 | corrected: days outside 1..31 give InvalidInputData; otherwise the byte is BCD and decodes back to the day |
| DateTime.EncodeDayExtendsAsWritten | src/ds323x/datetime.rs:141-146 | wherever the as-written code accepts a day, the corrected encoding writes the same byte |
| DateTime.DecodeMonth | src/ds323x/datetime.rs:61-65 | a month byte that is valid BCD once the century bit is masked decodes to at most 99; its meaning is given by DecodeMonthIgnoresCentury and MonthRoundTrip |
| DateTime.DecodeMonthIgnoresCentury | src/ds323x/datetime.rs:61-65 | the century bit does not affect the month read |
| DateTime.EncodeMonth | src/ds323x/datetime.rs:151-159 | months outside 1..12 give InvalidInputData; otherwise the century bit is as read and the rest is BCD(month) |
| DateTime.MonthRoundTrip | src/ds323x/datetime.rs:151-159 | reading back a written month gives the month, whatever the century bit (read back by src/ds323x/datetime.rs:61-65) |
| DateTime.MonthVectors | tests/datetime.rs:153-164 | the month tests, with and without the century bit |
| DateTime.DecodeYear | src/ds323x/datetime.rs:68-80 | a valid BCD year byte decodes to a year in 2000..2199; its meaning is given by YearRoundTrip and YearVectors |
| DateTime.EncodeYear | src/ds323x/datetime.rs:164-181 | years outside 2000..2100 give InvalidInputData; the month byte keeps its month bits, with the century bit set exactly for 2100; the year byte is BCD |
| DateTime.YearRoundTrip | src/ds323x/datetime.rs:164-181 | every year 2000..2100 written decodes back to itself, and the month read is unchanged (read back by src/ds323x/datetime.rs:68-80) |
| DateTime.YearByteRoundTrip | src/ds323x/datetime.rs:170-180 | the year byte decodes to the year within its century (0 for 2100) |
| DateTime.YearVectors | tests/datetime.rs:166-179 | 2099 and 2100 as in the tests, and the rejection of 1999 and 2101 |
| Bus.Store | src/interface.rs:37-49 | models the chip's register file behind the HAL write calls: a register write keeps the file's size |
| Bus.StoreThenLoad | src/interface.rs:37-49 | reading back stored bytes gives them; every register outside the stored range is unchanged (read back as in src/interface.rs:99-111) |
| Bus.Fault | src/interface.rs:37-49 | models the bus behind the HAL calls: a data transaction fails exactly when its number is in the fault map |
| Bus.SpiResponse | src/interface.rs:120-147 | a transfer returns as many bytes as it sent |
| Bus.Step | src/interface.rs:37-147 | models the bus and chip behind the HAL calls: one transaction keeps the register file's size and appends itself to the wire log |
| Bus.RunLog | src/interface.rs:37-147 | a sequence of transactions appends exactly itself to the log, in order, and keeps the register file's size |
| Bus.RunOne | src/interface.rs:37-49 | running one transaction is one step |
| Bus.RunThree | src/interface.rs:58-80 | running three transactions is three steps in order (and the reads of src/interface.rs:120-147) |
| Bus.Bus.constructor | src/interface.rs:37-147 | a fresh bus holds the given registers, chip select high, no transactions |
| Bus.Bus.Write | src/interface.rs:39-41 | an I2C write moves the bus by its step and reports its fault, if any |
| Bus.Bus.WriteRead | src/interface.rs:99-111 | an I2C write-read moves the bus by its step; on success the buffer holds the registers read, on failure it is untouched |
| Bus.Bus.SpiWrite | src/interface.rs:58-80 | an SPI write moves the bus by its step |
| Bus.Bus.Transfer | src/interface.rs:120-147 | an SPI transfer replaces the buffer with the chip's response in place on success, and leaves it untouched on failure |
| Bus.Bus.SetLow | src/interface.rs:58-68 | chip select goes low; no data transaction is counted (and every other SPI operation of src/interface.rs) |
| Bus.Bus.SetHigh | src/interface.rs:58-68 | chip select goes high; no data transaction is counted (and every other SPI operation of src/interface.rs) |
| BusInterface.CommResult | src/interface.rs:37-49 | a bus failure becomes Comm(e) with the same error; success becomes Ok (likewise for every operation of src/interface.rs) |
| BusInterface.Interface.ReadResult | src/interface.rs:99-147 | a successful read returns one byte per requested register |
| BusInterface.Interface.WriteData | src/interface.rs:37-80 | the generalised burst write: the bus goes through exactly the write frames of the payload |
| BusInterface.Interface.WriteRegister | src/interface.rs:37-68 | the bus goes through the write frames of [register, data]: one I2C write to 0x68, or CS low, SPI write of [register+0x80, data], CS high |
| BusInterface.Interface.WriteTwoRegisters | src/interface.rs:44-80 | the bus goes through the write frames of [first, d0, d1] |
| BusInterface.Interface.ReadRegister | src/interface.rs:99-131 | the bus goes through the read frames of [register, 0]; the result is the register's value or Comm(e) |
| BusInterface.Interface.ReadTwoRegisters | src/interface.rs:107-147 | the data buffer receives response bytes 1 and 2 on success and stays untouched on failure |
| BusInterface.Interface.ReadData | src/interface.rs:107-147 | the generalised burst read: the buffer keeps its first byte and receives the registers read after it on success, and stays untouched on failure |
| BusInterface.WriteEffect | src/interface.rs:37-80 | a write below 0x80 over either bus stores the payload from its first register on success, and changes no register on failure; the log grows by exactly its frames; one data transaction is counted |
| BusInterface.ReadEffect | src/interface.rs:99-147 | a read changes no register, grows the log by exactly its frames, counts one data transaction, and returns the registers from the requested one on success, over I2C and SPI alike |
| BusInterface.SpiWriteAddress | src/interface.rs:58-80 | for a register below 0x80, register+0x80 sets the write bit and keeps the address in the low seven bits, with no wrap-around |
| BusInterface.FramesAreBracketed | src/interface.rs:58-147 | every SPI operation is CS low, one transfer, CS high; every I2C operation is one transaction at 0x68 |
| Alarms.Strictness | src/ds323x/alarms.rs:23-34 | a mode compares at most four fields |
| Alarms.MatchingMaskAlarm1 | src/ds323x/alarms.rs:37-46 | four mask bytes, each 0 or ALARM_MATCH; a field is compared exactly when it lies inside the mode's prefix, seconds first |
| Alarms.Stricter | src/ds323x/alarms.rs:23-34 | the next mode compares exactly one more field |
| Alarms.StricterClearsOneMore | src/ds323x/alarms.rs:37-46 | each stricter mode clears exactly one more mask bit, the next field in order, and keeps the others |
| Alarms.MatchingMaskExtremes | src/ds323x/alarms.rs:37-46 | once per second masks all four fields; all-match masks none |
| Alarms.Alarm1Payload | src/ds323x/alarms.rs:56-69 | Err(InvalidInputData) exactly when date, minute, second or hour is out of range; otherwise five bytes from the alarm-1 seconds address |
| Alarms.FieldsLeaveMaskBit | src/ds323x/alarms.rs:63-67 | for valid input no field encoding uses bit 7 |
| Alarms.MaskedField | src/ds323x/alarms.rs:63-67 | a field with bit 7 clear, ored with a mask of 0 or bit 7, can be split back into both |
| Alarms.BcdLeavesMaskBit | src/ds323x/alarms.rs:64-67 | BCD of a value up to 79 leaves bit 7 clear |
| Alarms.MaskedBurstSeparates | src/ds323x/alarms.rs:63-67 | four fields with bit 7 clear, ored with mask bytes of 0 or bit 7, can each be split back into field and mask bit |
| Alarms.Alarm1MaskSeparation | src/ds323x/alarms.rs:63-67 | bit 7 of every written field byte is its mask bit, and the low seven bits are the unmasked encoding |
| Alarms.Alarm1PayloadRoundTrip | src/ds323x/alarms.rs:63-67 | in every mode the written bytes decode back to the alarm's second, minute, hour and date |
| Alarms.Alarm1Vectors | tests/alarms.rs:96-110 | the bytes of the alarm tests in every mode, AM(2) as 0x42 and PM(2) as 0x62, and two rejected inputs |
| Status.ClearStoppedWrite | src/ds323x/status.rs:27-33 | a write is due exactly when OSC_STOP is set; the byte written has OSC_STOP clear and every other bit as read |
| Status.ClearStoppedSettles | src/ds323x/status.rs:27-33 | afterwards only OSC_STOP has changed, to clear, and a second run writes nothing |
| Status.TemperatureBits | src/ds323x/status.rs:40 | the assembled reading fits in ten bits |
| Status.AsI16 | src/ds323x/status.rs:43 | the i16 reinterpretation lies in the i16 range and agrees with the u16 modulo 2^16 |
| Status.SignedByte | src/ds323x/status.rs:39 | a byte read as signed lies in -128..127 |
| Status.TemperatureQuarters | src/ds323x/status.rs:39-47 | the source's sign test, ten-bit assembly and 0xFC00 sign extension in quarter degrees; its value is fixed by TemperatureIsTwosComplement |
| Status.TemperatureIsTwosComplement | src/ds323x/status.rs:36-49 | the reading is the signed MSB times four plus the top two LSB bits, in -512..511 quarter degrees |
| Status.TemperatureBitsValue | src/ds323x/status.rs:40 | the ten-bit reading is MSB × 4 + LSB / 64 |
| Status.ShiftedMsbValue | src/ds323x/status.rs:40 | the MSB widened to u16 and shifted left by two is worth four times its value |
| Status.ShiftedLsbValue | src/ds323x/status.rs:40 | the LSB shifted right by six and widened is worth its value divided by 64 |
| Status.SignExtension | src/ds323x/status.rs:42 | filling the top six bits of a 10-bit value adds 0xFC00 |
| Status.TemperatureVectors | tests/status.rs:17-19 | 0, -128.0 and 127.75 degrees as 0, -512 and 511 quarters |
| Configuration.EnableWrite | src/ds323x/configuration.rs:14-20 | a write is due exactly when EOSC is set; the byte written has EOSC clear and every other bit as read |
| Configuration.DisableWrite | src/ds323x/configuration.rs:25-31 | a write is due exactly when EOSC is clear; the byte written has EOSC set and every other bit as read |
| Configuration.EnableSettles | src/ds323x/configuration.rs:14-20 | after `enable` the oscillator runs, no other control bit has changed, and a second `enable` writes nothing |
| Configuration.DisableSettles | src/ds323x/configuration.rs:25-31 | after `disable` the oscillator is stopped, no other control bit has changed, and a second `disable` writes nothing |
| Configuration.DisableThenEnable | src/ds323x/configuration.rs:14-31 | disabling then enabling restores the control byte exactly when the oscillator was running |
| Variants.StatusPorValues | src/ds3231.rs:13 | DS3231 status powers on as 0x88 without BB32KHZ; DS3234 as 0xC8, the same plus BB32KHZ (src/ds3234.rs:16) |
| Variants.Enable32kHzOnBattery | src/ds3232.rs:18-21 | the computed status has BB32KHZ set and every other bit as cached |
| Variants.Disable32kHzOnBattery | src/ds3232.rs:29-32 | the computed status has BB32KHZ clear and every other bit as cached |
| Variants.Battery32kHzIdempotent | src/ds3232.rs:18-32 | enabling when already enabled computes the cached byte unchanged, likewise disabling; the toggles undo each other on BB32KHZ |
| Variants.StatusWriteByte | tests/ds3232_4.rs:37-42 | the byte written to STATUS has ALARM2F and ALARM1F set and every other bit as computed |
| Variants.RateBits | src/ds3234.rs:65-68 | each rate's bits lie inside CRATE1:CRATE0 |
| Variants.RateBitsInjective | src/ds3234.rs:65-68 | different rates have different CRATE bits |
| Variants.ConversionRateStatusAsWritten | src/ds3234.rs:64-69 | as written: every bit outside CRATE1:CRATE0 is kept; the 64 s, 128 s and 512 s arms set the rate's bits; the 256 s arm sets CRATE1 and keeps the cached CRATE0 |
| Variants.ConversionRateAsWrittenKeepsCrate0 | src/ds3234.rs:67 | as written, the 256 s arm keeps CRATE0 as cached, so from the 128 s setting it selects 512 s |
| Variants.ConversionRateStatus | src/ds3234.rs:62-71 | corrected: CRATE1:CRATE0 hold the rate and every other status bit is as cached |
| Variants.ConversionRateAgreesOtherwise | src/ds3234.rs:65-68 | the source's arms equal the corrected status for 64, 128 and 512 s, and for 256 s whenever CRATE0 was clear |
| Variants.TempConvOnBatteryValue | src/ds3234.rs:76-85 | 0 keeps conversions on battery, TEMP_CONV_BAT (0x01) stops them; no other bit is ever set |
| Device.Ds323x.NewDs3231 | src/ds3231.rs:12-20 | the caches hold CONTROL_POR_VALUE and 0x88 over an I2C interface, and the bus is untouched |
| Device.Ds323x.NewDs3234 | src/ds3234.rs:15-26 | the caches hold CONTROL_POR_VALUE and 0xC8 over an SPI interface, and the bus is untouched |
| Device.Ds323x.DestroyDs3231 | src/ds3231.rs:23-25 | hands back the very bus the driver was built on |
| Device.Ds323x.DestroyDs3234 | src/ds3234.rs:29-31 | hands back the very SPI bus and chip select the driver was built on |
| Device.Decimal | src/ds323x/datetime.rs:82-85 | a failed read passes its error through unchanged; a successful read of a valid BCD byte gives a value up to 99 that encodes back to the byte |
| Device.Ds323x.GetSeconds | src/ds323x/datetime.rs:23-25 | one read of SECONDS, decoded from BCD, or the bus error (through src/ds323x/datetime.rs:82-85) |
| Device.Ds323x.GetMinutes | src/ds323x/datetime.rs:28-30 | one read of MINUTES, decoded from BCD, or the bus error (through src/ds323x/datetime.rs:82-85) |
| Device.Ds323x.GetHours | src/ds323x/datetime.rs:33-36 | one read of HOURS, decoded by the hours layout, or the bus error |
| Device.Ds323x.GetWeekday | src/ds323x/datetime.rs:51-53 | one read of DOW, decoded from BCD, or the bus error |
| Device.Ds323x.GetDay | src/ds323x/datetime.rs:56-58 | one read of DOM, decoded from BCD, or the bus error |
| Device.Ds323x.GetMonth | src/ds323x/datetime.rs:61-65 | one read of MONTH with the century bit ignored, or the bus error |
| Device.Ds323x.GetYear | src/ds323x/datetime.rs:68-80 | one two-byte read from MONTH, decoded with the century bit, or the bus error |
| Device.Ds323x.SetSeconds | src/ds323x/datetime.rs:90-95 | above 59: InvalidInputData and no bus access; otherwise exactly one write of BCD(seconds) to SECONDS |
| Device.Ds323x.SetMinutes | src/ds323x/datetime.rs:100-105 | above 59: InvalidInputData and no bus access; otherwise exactly one write of BCD(minutes) to MINUTES |
| Device.Ds323x.SetHours | src/ds323x/datetime.rs:112-115 | an invalid hour: InvalidInputData and no bus access; otherwise exactly one write of the hours byte |
| Device.Ds323x.SetWeekday | src/ds323x/datetime.rs:131-136 | outside 1..7: InvalidInputData and no bus access; otherwise exactly one write to DOW |
| Device.Ds323x.SetDay | src/ds323x/datetime.rs:141-146 | as written: outside 1..7, InvalidInputData and no bus access; otherwise exactly one write of the unconverted day to DOM |
| Device.Ds323x.SetMonth | src/ds323x/datetime.rs:151-159 | rejects before any bus access; otherwise reads MONTH and writes once, keeping the century bit |
| Device.Ds323x.SetYear | src/ds323x/datetime.rs:164-181 | rejects before any bus access; otherwise reads MONTH, then writes the month and year bytes in one burst at MONTH |
| Device.Ds323x.SetAlarm1Date | src/ds323x/alarms.rs:56-69 | invalid fields: InvalidInputData and no bus access; otherwise exactly one burst write of the alarm payload |
| Device.Ds323x.IsBusy | src/ds323x/status.rs:12-15 | one read of STATUS and no write; true exactly when BUSY is set |
| Device.Ds323x.HasBeenStopped | src/ds323x/status.rs:19-22 | one read of STATUS and no write; true exactly when OSC_STOP is set |
| Device.Ds323x.ClearHasBeenStoppedFlag | src/ds323x/status.rs:27-33 | reads STATUS; writes it back with OSC_STOP cleared only when it was set |
| Device.Ds323x.GetTemperature | src/ds323x/status.rs:36-49 | one two-byte read from TEMP_MSB, decoded as the sign-extended ten-bit reading in quarter degrees |
| Device.Ds323x.Enable | src/ds323x/configuration.rs:14-20 | reads CONTROL; writes it with EOSC cleared only when EOSC was set |
| Device.Ds323x.Disable | src/ds323x/configuration.rs:25-31 | reads CONTROL; writes it with EOSC set only when EOSC was clear |
| Device.Ds323x.WriteStatusWithoutClearingAlarm | tests/ds3232_4.rs:37-42 | one write of the computed status with ALARM2F and ALARM1F set |
| Device.Ds323x.Enable32kHzOutputOnBattery | src/ds3232.rs:18-21 | one write to STATUS of the cached status with BB32KHZ set and the alarm flags set (also src/ds3234.rs:39-42) |
| Device.Ds323x.Disable32kHzOutputOnBattery | src/ds3232.rs:29-32 | one write to STATUS of the cached status with BB32KHZ clear and the alarm flags set (also src/ds3234.rs:50-53) |
| Device.Ds323x.SetTemperatureConversionRate | src/ds3234.rs:62-71 | as written: one write to STATUS of the cached status with the arm's CRATE bits and the alarm flags set; the 256 s arm keeps the cached CRATE0 |
| Device.Ds323x.EnableTemperatureConversionsOnBattery | src/ds3234.rs:76-78 | one write of 0 to TEMP_CONV (0x13) |
| Device.Ds323x.DisableTemperatureConversionsOnBattery | src/ds3234.rs:83-85 | one write of 0x01 to TEMP_CONV (0x13) |
| Scenarios.StoreOne | src/interface.rs:37-42 | a one-byte register write is an update of that register alone |
| Scenarios.SetterTouchesOnlyItsRegister | src/ds323x/datetime.rs:90-146 | a setter that rejects its input leaves the bus as it was; one that accepts it puts exactly one write on the wire, and on success changes its own register to the encoded byte and no other |
| Scenarios.ReadModifyWriteTouchesOnlyItsRegister | src/ds323x/configuration.rs:14-31 | a conditional read-modify-write changes no register but its own, and that one only when it decided to write and the write succeeded (also src/ds323x/status.rs:27-33) |
| Scenarios.Alarm1WriteTouchesOnlyAlarm1 | src/ds323x/alarms.rs:63-68 | a successful alarm-1 burst fills registers 0x07..0x0A with the payload and changes nothing else |
| Scenarios.SetThenGetYear | src/ds323x/datetime.rs:164-181 | `set_year` followed by `get_year`, if both succeed, returns the year set (read back by src/ds323x/datetime.rs:68-80) |
| Scenarios.SetThenGetHours | src/ds323x/datetime.rs:112-126 | `set_hours` followed by `get_hours`, if both succeed, returns the hours set (read back by src/ds323x/datetime.rs:33-48) |
| Scenarios.SetDayRefusesDaysAboveSeven | src/ds323x/datetime.rs:141-146 | as written, `set_day` refuses every day 8..31 with InvalidInputData and leaves the bus untouched |
| Scenarios.ConversionRate256From128Writes512 | src/ds3234.rs:67 | from the 128 s setting, the 256 s arm as written writes the 512 s bits: 0x33 from status 0x10, where the corrected byte is 0x23 |
| Scenarios.EnableTwice | src/ds323x/configuration.rs:13-20 | after a successful `enable` the oscillator runs, and a second `enable` only reads CONTROL |

## Left out

- `src/embedded_time.rs` is not part of this model. It borrows through a `RefCell` and converts to epoch milliseconds with an external calendar library.
- The programs under `examples/` are not part of this model. They only open Linux devices and print.
- Device.Ds323x.GetTemperature: returns the integer count of quarter degrees. The source's multiplication by 0.25 as `f32` is floating point and is not modelled.
- Code called from the files above but not defined in them is not part of this model:
  - `get_datetime`/`set_datetime`;
  - alarm 2, weekday alarms and `set_alarm1_hms`;
  - square-wave frequency, `enable_32khz_output` and the aging offset.
- Device.Ds323x.WriteStatusWithoutClearingAlarm: its body is not part of the files modelled. The model keeps only its effect on the wire, which is the computed byte with ALARM2F | ALARM1F ored in. Its contract says nothing about the cached status byte after the call.
- BusInterface.Interface.WriteData / BusInterface.Interface.ReadData: `write_data` and `read_data` are not among the interface functions modelled. They are taken to frame an n-byte payload exactly as `write_two_registers`/`read_two_registers` frame three bytes.
- `new_ds3232` and `destroy_ds3232` are not part of this model, so there is no DS3232 constructor. The DS3232/DS3234 status toggles require a driver that is not a DS3231; in this model that is always a DS3234.
- The chip behind the bus is a plain register file of 0x14 bytes. It has no address wrap-around and no clock ticking between transactions. Registers past 0x13 read as 0, and writes past 0x13 are dropped.
- A bus failure changes no register and leaves the caller's buffer untouched. Partial transfers are not modelled. Which transactions fail is fixed in advance by a map from transaction number to error.
- The SPI bus and the chip-select pin are one `Bus` object. Chip-select changes never fail; the source ignores their results.
- `register + 0x80` on a `u8` would overflow for a register of 0x80 or more. Every register the driver uses is below 0x80 (`Registers.RegistersBelowWriteBit`), so this is not modelled further.
- The embedded-hal traits, the SPI mode constants, the `Sealed` marker, `PhantomData` and Rust's move semantics on `destroy_*` are not modelled. The variant is a datatype tag `Ic` checked by the `Ds323x` invariant.
- The tests in `tests/configuration.rs` that expect cached writes belong to another generation of the driver. The model follows `configuration.rs` and `status.rs` as written, which read CONTROL/STATUS, compare, then write.
- The private copies of `decimal_to_packed_bcd`, `packed_bcd_to_decimal` and the hours encoding in `src/ds323x/datetime.rs` are modelled once, by the `Codec` functions, since they compute the same thing.
- The cached `control` byte is only initialised. No modelled operation reads or writes it.

## Findings

| source | as written | input that shows it | evidently intended | confidence | as-written member | corrected member |
|---|---|---|---|---|---|---|
| src/ds323x/datetime.rs:141-146 | `set_day` accepts only days 1..7 and writes the day unconverted | day 15 is refused with InvalidInputData, yet the doc comment promises 1..31; the missing BCD conversion is latent: every accepted day 1..7 has the same raw and BCD byte, so it would only show once the range check is widened to 31 (day 10 would then be written as 0x0A rather than 0x10) | accept days of month 1..31 and write them in packed BCD, like the other setters | medium, not executed; the tests also expect 8 to be refused, which suggests the day check was copied from `set_weekday` | DateTime.DayAsWrittenRejectsValidDays | DateTime.EncodeDay |
| src/ds3234.rs:67 | the 256 s arm parses as `status \| (CRATE1 & !CRATE0)`, which is `status \| CRATE1`, so CRATE0 is never cleared | with the cached status at the 128 s setting (CRATE0 = 0x10), choosing 256 s computes 0x30, the 512 s setting | CRATE1 set and CRATE0 cleared, as the 128 s arm does for the opposite bits | high, not executed | Variants.ConversionRateAsWrittenKeepsCrate0 | Variants.ConversionRateStatus |
