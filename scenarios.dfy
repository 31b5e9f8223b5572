/**
 * Properties of the driver seen from its caller: each write lands in its own registers and
 * nowhere else, a value set can be read back, and the conditional writes settle.
 */
module Scenarios {
  import opened Registers
  import opened Codec
  import opened DateTime
  import opened Alarms
  import opened Configuration
  import opened Variants
  import opened Bus
  import opened BusInterface
  import opened Device

  /** A one-byte store is an update of that register. */
  lemma StoreOne(regs: seq<bv8>, register: bv8, value: bv8)
    requires register as int < |regs|
    ensures Store(regs, register as int, [value]) == regs[register as int := value]
  {
    var stored := Store(regs, register as int, [value]);
    forall i | 0 <= i < |regs|
      ensures stored[i] == regs[register as int := value][i]
    {
    }
  }

  /**
   * A setter that accepts its input changes exactly its own register, and only if the write
   * succeeded, with one write's frames on the wire; one that rejects it changes nothing.
   */
  lemma SetterTouchesOnlyItsRegister(iface: Interface, s0: BusState, s1: BusState, register: bv8,
                                     encoded: Result<bv8>, r: Result<()>)
    requires SetterEffect(iface, s0, s1, register, encoded, r)
    requires register as int < REGISTER_COUNT && |s0.regs| == REGISTER_COUNT
    ensures encoded.Err? ==> s1 == s0 && r.Err?
    ensures encoded.Ok? ==> s1.log == s0.log + iface.WriteFrames([register, encoded.value])
    ensures encoded.Ok? && r.Ok? ==> s1.regs == s0.regs[register as int := encoded.value]
    ensures r.Err? ==> s1.regs == s0.regs
  {
    if encoded.Ok? {
      WriteEffect(iface, s0, [register, encoded.value]);
      assert [register, encoded.value][1..] == [encoded.value];
      StoreOne(s0.regs, register, encoded.value);
    }
  }

  /**
   * A read-modify-write leaves every register but its own as it was, and its own one too
   * unless it decided to write and the write succeeded.
   */
  lemma ReadModifyWriteTouchesOnlyItsRegister(iface: Interface, s0: BusState, s1: BusState, register: bv8,
                                              next: Option<bv8>, r: Result<()>)
    requires ReadModifyWriteEffect(iface, s0, s1, register, next, r)
    requires register as int < REGISTER_COUNT && |s0.regs| == REGISTER_COUNT
    ensures iface.RegisterRead(s0, register).Ok? ==> iface.RegisterRead(s0, register).value == s0.regs[register]
    ensures r.Ok? && iface.RegisterRead(s0, register).Ok? && next.Some? ==> s1.regs == s0.regs[register as int := next.value]
    ensures !(r.Ok? && iface.RegisterRead(s0, register).Ok? && next.Some?) ==> s1.regs == s0.regs
  {
    ReadEffect(iface, s0, [register, 0]);
    var s := iface.AfterRead(s0, [register, 0]);
    if iface.RegisterRead(s0, register).Ok? && next.Some? {
      WriteEffect(iface, s, [register, next.value]);
      assert [register, next.value][1..] == [next.value];
      StoreOne(s.regs, register, next.value);
    }
  }

  /** The alarm-1 burst lands in the four alarm-1 registers and nowhere else. */
  lemma Alarm1WriteTouchesOnlyAlarm1(iface: Interface, s0: BusState, when: DateAlarm1, matching: Alarm1Matching)
    requires Alarm1Payload(when, matching).Ok? && |s0.regs| == REGISTER_COUNT
    ensures var s1 := iface.AfterWrite(s0, Alarm1Payload(when, matching).value);
      iface.WriteResult(s0).Ok? ==>
        |s1.regs| == REGISTER_COUNT &&
        s1.regs[7..11] == Alarm1Payload(when, matching).value[1..] &&
        s1.regs[..7] == s0.regs[..7] && s1.regs[11..] == s0.regs[11..]
  {
    var p := Alarm1Payload(when, matching).value;
    WriteEffect(iface, s0, p);
    StoreThenLoad(s0.regs, 7, p[1..]);
    var s1 := iface.AfterWrite(s0, p);
    if iface.WriteResult(s0).Ok? {
      assert Load(s1.regs, 7, 4) == s1.regs[7..11];
    }
  }

  /** Setting a year and reading it back gives the same year when both calls succeed. */
  method SetThenGetYear(dev: Ds323x, year: u16) returns (written: Result<()>, got: Result<u16>)
    requires dev.Valid() && 2000 <= year <= 2100
    modifies dev.iface.bus
    ensures dev.Valid()
    ensures written.Ok? && got.Ok? ==> got.value == year
  {
    ghost var s0 := dev.iface.bus.State();
    written := dev.SetYear(year);
    ghost var s1 := dev.iface.bus.State();
    got := dev.GetYear();
    if written.Ok? && got.Ok? {
      var iface := dev.iface;
      var month := iface.RegisterRead(s0, REG_MONTH).value;
      var bytes := EncodeYear(month, year).value;
      var s := iface.AfterRead(s0, [REG_MONTH, 0]);
      ReadEffect(iface, s0, [REG_MONTH, 0]);
      WriteEffect(iface, s, [REG_MONTH, bytes.0, bytes.1]);
      assert s1.regs == Store(s0.regs, 5, [bytes.0, bytes.1]);
      StoreThenLoad(s0.regs, 5, [bytes.0, bytes.1]);
      ReadEffect(iface, s1, [REG_MONTH, 0, 0]);
      assert iface.ReadResult(s1, [REG_MONTH, 0, 0]).value == [bytes.0, bytes.1];
      YearRoundTrip(month, year);
    }
  }

  /** Setting the hours and reading them back gives the same hours when both calls succeed. */
  method SetThenGetHours(dev: Ds323x, hours: Hours) returns (written: Result<()>, got: Result<Hours>)
    requires dev.Valid() && ValidHours(hours)
    modifies dev.iface.bus
    ensures dev.Valid()
    ensures written.Ok? && got.Ok? ==> got.value == hours
  {
    ghost var s0 := dev.iface.bus.State();
    written := dev.SetHours(hours);
    ghost var s1 := dev.iface.bus.State();
    got := dev.GetHours();
    if written.Ok? && got.Ok? {
      var iface := dev.iface;
      SetterTouchesOnlyItsRegister(iface, s0, s1, REG_HOURS, HoursToRegister(hours), written);
      ReadEffect(iface, s1, [REG_HOURS, 0]);
      HoursRoundTrip(hours);
    }
  }

  /**
   * Two `enable` calls in a row: after the first succeeds the oscillator bit is clear, and the
   * second one only reads the control register.
   */
  method EnableTwice(dev: Ds323x) returns (first: Result<()>, second: Result<()>, ghost between: BusState)
    requires dev.Valid()
    modifies dev.iface.bus
    ensures dev.Valid()
    ensures first.Ok? ==> OscillatorEnabled(dev.iface.bus.regs[REG_CONTROL])
    ensures first.Ok? ==> dev.iface.bus.State() == dev.iface.AfterRead(between, [REG_CONTROL, 0])
  {
    ghost var s0 := dev.iface.bus.State();
    first := dev.Enable();
    between := dev.iface.bus.State();
    second := dev.Enable();
    var iface := dev.iface;
    if first.Ok? {
      var read0 := iface.RegisterRead(s0, REG_CONTROL);
      ReadModifyWriteTouchesOnlyItsRegister(iface, s0, between, REG_CONTROL, EnableWrite(read0.value), first);
      EnableSettles(read0.value);
      assert OscillatorEnabled(between.regs[REG_CONTROL]);
      var read1 := iface.RegisterRead(between, REG_CONTROL);
      ReadModifyWriteTouchesOnlyItsRegister(iface, between, dev.iface.bus.State(), REG_CONTROL,
        if read1.Ok? then EnableWrite(read1.value) else None, second);
    }
  }

  /**
   * `set_day` as written refuses every day of month from 8 to 31 with InvalidInputData and
   * leaves the bus untouched.
   */
  lemma SetDayRefusesDaysAboveSeven(iface: Interface, s0: BusState, s1: BusState, day: bv8, r: Result<()>)
    requires SetterEffect(iface, s0, s1, REG_DOM, EncodeDayAsWritten(day), r)
    requires 8 <= day <= 31
    ensures r == Err(InvalidInputData) && s1 == s0
  {
  }

  /**
   * From the 128 s setting, `set_temperature_conversion_rate(_256s)` as written puts 0x33 on
   * the wire: the 512 s bits plus the two alarm flags, rather than the 256 s byte 0x23.
   */
  lemma ConversionRate256From128Writes512(status: bv8)
    requires status & (CRATE1 | CRATE0) == RateBits(Every128s)
    ensures StatusWriteByte(ConversionRateStatusAsWritten(status, Every256s)) & (CRATE1 | CRATE0) == RateBits(Every512s)
    ensures StatusWriteByte(ConversionRateStatusAsWritten(0x10, Every256s)) == 0x33
    ensures StatusWriteByte(ConversionRateStatus(0x10, Every256s)) == 0x23
  {
  }
}
