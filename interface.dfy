/**
 * The I2C and SPI interfaces: how a register write or read is framed on each bus, and what the
 * driver gets back. Bus failures come back as `Comm` with the bus's own error.
 */
module BusInterface {
  import opened Registers
  import opened Bus

  /** `map_err(Error::Comm)` of a bus outcome. */
  function CommResult(o: Outcome): (r: Result<()>)
    ensures r.Ok? <==> o.Done?
    ensures o.Failed? ==> r.error == Comm(o.error)
  {
    match o
    case Done => Ok(())
    case Failed(e) => Err(Comm(e))
  }

  /**
   * The device interface: I2C, or SPI with its chip-select line. The SPI bus and its chip-select
   * pin are one `Bus` object here.
   */
  datatype Interface = I2cInterface(bus: Bus) | SpiInterface(bus: Bus)
  {
    /** The transactions that write `payload` (register address first, then data). */
    function WriteFrames(payload: seq<bv8>): seq<Transaction>
      requires |payload| > 0
    {
      if I2cInterface? then [I2cWrite(DEVICE_ADDRESS, payload)]
      else [ChipSelectLow, SpiWrite([payload[0] + 0x80] + payload[1..]), ChipSelectHigh]
    }

    /** The transactions that read `|payload| - 1` registers from `payload[0]`, sending `payload` on SPI. */
    function ReadFrames(payload: seq<bv8>): seq<Transaction>
      requires |payload| > 0
    {
      if I2cInterface? then [I2cWriteRead(DEVICE_ADDRESS, [payload[0]], |payload| - 1)]
      else [ChipSelectLow, SpiTransfer(payload), ChipSelectHigh]
    }

    ghost function AfterWrite(s: BusState, payload: seq<bv8>): BusState
      requires |payload| > 0
    {
      Run(bus.faults, s, WriteFrames(payload))
    }

    ghost function AfterRead(s: BusState, payload: seq<bv8>): BusState
      requires |payload| > 0
    {
      Run(bus.faults, s, ReadFrames(payload))
    }

    /** What a write reports, from the state it starts in. */
    function WriteResult(s: BusState): Result<()> {
      CommResult(Fault(bus.faults, s.count))
    }

    /**
     * The bytes a read returns: the addressed registers, except over SPI with bit 7 of the first
     * byte set, where the chip takes the frame for a write and the sent bytes come back.
     */
    function ReadResult(s: BusState, payload: seq<bv8>): (r: Result<seq<bv8>>)
      requires |payload| > 0
      ensures r.Ok? ==> |r.value| == |payload| - 1
    {
      match Fault(bus.faults, s.count)
      case Failed(e) => Err(Comm(e))
      case Done =>
        if SpiInterface? && payload[0] & 0x80 != 0 then Ok(payload[1..])
        else Ok(Load(s.regs, payload[0] as int, |payload| - 1))
    }

    /** The byte a one-register read returns, or its error. */
    function RegisterRead(s: BusState, register: bv8): Result<bv8> {
      match ReadResult(s, [register, 0])
      case Ok(bytes) => Ok(bytes[0])
      case Err(e) => Err(e)
    }

    /** Writes `payload[1..]` to consecutive registers from `payload[0]`. */
    method WriteData(payload: seq<bv8>) returns (r: Result<()>)
      requires bus.Valid() && |payload| > 0
      modifies bus
      ensures bus.Valid()
      ensures bus.State() == AfterWrite(old(bus.State()), payload)
      ensures r == WriteResult(old(bus.State()))
    {
      match this
      case I2cInterface(i2c) =>
        RunOne(i2c.faults, i2c.State(), I2cWrite(DEVICE_ADDRESS, payload));
        var o := i2c.Write(DEVICE_ADDRESS, payload);
        r := CommResult(o);
      case SpiInterface(spi) =>
        var words := [payload[0] + 0x80] + payload[1..];
        RunThree(spi.faults, spi.State(), ChipSelectLow, SpiWrite(words), ChipSelectHigh);
        spi.SetLow();
        var o := spi.SpiWrite(words);
        spi.SetHigh();
        r := CommResult(o);
    }

    /** `write_register`: one data byte. */
    method WriteRegister(register: bv8, data: bv8) returns (r: Result<()>)
      requires bus.Valid()
      modifies bus
      ensures bus.Valid()
      ensures bus.State() == AfterWrite(old(bus.State()), [register, data])
      ensures r == WriteResult(old(bus.State()))
    {
      match this
      case I2cInterface(i2c) =>
        var payload := [register, data];
        RunOne(i2c.faults, i2c.State(), I2cWrite(DEVICE_ADDRESS, payload));
        var o := i2c.Write(DEVICE_ADDRESS, payload);
        r := CommResult(o);
      case SpiInterface(spi) =>
        var payload := [register + 0x80, data];
        assert payload == [[register, data][0] + 0x80] + [register, data][1..];
        RunThree(spi.faults, spi.State(), ChipSelectLow, SpiWrite(payload), ChipSelectHigh);
        spi.SetLow();
        var o := spi.SpiWrite(payload);
        spi.SetHigh();
        r := CommResult(o);
    }

    /** `write_two_registers`: two data bytes from `firstRegister` on. */
    method WriteTwoRegisters(firstRegister: bv8, data: seq<bv8>) returns (r: Result<()>)
      requires bus.Valid() && |data| == 2
      modifies bus
      ensures bus.Valid()
      ensures bus.State() == AfterWrite(old(bus.State()), [firstRegister, data[0], data[1]])
      ensures r == WriteResult(old(bus.State()))
    {
      match this
      case I2cInterface(i2c) =>
        var payload := [firstRegister, data[0], data[1]];
        RunOne(i2c.faults, i2c.State(), I2cWrite(DEVICE_ADDRESS, payload));
        var o := i2c.Write(DEVICE_ADDRESS, payload);
        r := CommResult(o);
      case SpiInterface(spi) =>
        var payload := [firstRegister + 0x80, data[0], data[1]];
        assert payload == [[firstRegister, data[0], data[1]][0] + 0x80] + [firstRegister, data[0], data[1]][1..];
        RunThree(spi.faults, spi.State(), ChipSelectLow, SpiWrite(payload), ChipSelectHigh);
        spi.SetLow();
        var o := spi.SpiWrite(payload);
        spi.SetHigh();
        r := CommResult(o);
    }

    /** `read_register`: one register. */
    method ReadRegister(register: bv8) returns (r: Result<bv8>)
      requires bus.Valid()
      modifies bus
      ensures bus.Valid()
      ensures bus.State() == AfterRead(old(bus.State()), [register, 0])
      ensures r == RegisterRead(old(bus.State()), register)
    {
      match this
      case I2cInterface(i2c) =>
        RunOne(i2c.faults, i2c.State(), I2cWriteRead(DEVICE_ADDRESS, [register], 1));
        var data := new bv8[1];
        data[0] := 0;
        var o := i2c.WriteRead(DEVICE_ADDRESS, [register], data);
        r := if o.Done? then Ok(data[0]) else Err(Comm(o.error));
      case SpiInterface(spi) =>
        RunThree(spi.faults, spi.State(), ChipSelectLow, SpiTransfer([register, 0]), ChipSelectHigh);
        spi.SetLow();
        var data := new bv8[2];
        data[0], data[1] := register, 0;
        assert data[..] == [register, 0];
        var o := spi.Transfer(data);
        spi.SetHigh();
        r := if o.Done? then Ok(data[1]) else Err(Comm(o.error));
    }

    /** `read_two_registers`: fills `data` from `register` on; on a bus failure `data` is untouched. */
    method ReadTwoRegisters(register: bv8, data: array<bv8>) returns (r: Result<()>)
      requires bus.Valid() && data.Length == 2
      modifies bus, data
      ensures bus.Valid()
      ensures bus.State() == AfterRead(old(bus.State()), [register, 0, 0])
      ensures r.Ok? <==> ReadResult(old(bus.State()), [register, 0, 0]).Ok?
      ensures r.Err? ==> r.error == ReadResult(old(bus.State()), [register, 0, 0]).error && data[..] == old(data[..])
      ensures r.Ok? ==> data[..] == ReadResult(old(bus.State()), [register, 0, 0]).value
    {
      match this
      case I2cInterface(i2c) =>
        RunOne(i2c.faults, i2c.State(), I2cWriteRead(DEVICE_ADDRESS, [register], 2));
        var o := i2c.WriteRead(DEVICE_ADDRESS, [register], data);
        r := CommResult(o);
      case SpiInterface(spi) =>
        var payload := new bv8[3];
        payload[0], payload[1], payload[2] := register, 0, 0;
        assert payload[..] == [register, 0, 0];
        r := ReadData(payload);
        if r.Ok? {
          data[0] := payload[1];
          data[1] := payload[2];
          assert data[..] == payload[..][1..];
        }
    }

    /**
     * Reads `payload.Length - 1` registers from `payload[0]` into `payload[1..]`; on a bus failure
     * `payload` is untouched.
     */
    method ReadData(payload: array<bv8>) returns (r: Result<()>)
      requires bus.Valid() && payload.Length > 0
      modifies bus, payload
      ensures bus.Valid()
      ensures bus.State() == AfterRead(old(bus.State()), old(payload[..]))
      ensures r.Ok? <==> ReadResult(old(bus.State()), old(payload[..])).Ok?
      ensures r.Err? ==> r.error == ReadResult(old(bus.State()), old(payload[..])).error && payload[..] == old(payload[..])
      ensures r.Ok? ==> payload[..] == [old(payload[0])] + ReadResult(old(bus.State()), old(payload[..])).value
    {
      match this
      case I2cInterface(i2c) =>
        RunOne(i2c.faults, i2c.State(), I2cWriteRead(DEVICE_ADDRESS, [payload[0]], payload.Length - 1));
        var buffer := new bv8[payload.Length - 1];
        var o := i2c.WriteRead(DEVICE_ADDRESS, [payload[0]], buffer);
        if o.Done? {
          forall i | 1 <= i < payload.Length {
            payload[i] := buffer[i - 1];
          }
          assert payload[..] == [payload[0]] + buffer[..];
          r := Ok(());
        } else {
          r := Err(Comm(o.error));
        }
      case SpiInterface(spi) =>
        RunThree(spi.faults, spi.State(), ChipSelectLow, SpiTransfer(payload[..]), ChipSelectHigh);
        spi.SetLow();
        var o := spi.Transfer(payload);
        spi.SetHigh();
        r := CommResult(o);
    }
  }

  /**
   * Both framings have the same effect on the chip for a register below 0x80: on success the data
   * lands at the addressed registers, on failure nothing changes. The log grows by the frames.
   */
  lemma WriteEffect(iface: Interface, s: BusState, payload: seq<bv8>)
    requires |payload| > 0 && payload[0] < 0x80
    ensures iface.AfterWrite(s, payload).regs ==
      if iface.WriteResult(s).Ok? then Store(s.regs, payload[0] as int, payload[1..]) else s.regs
    ensures iface.AfterWrite(s, payload).log == s.log + iface.WriteFrames(payload)
    ensures iface.AfterWrite(s, payload).count == s.count + 1
  {
    var f := iface.bus.faults;
    RunLog(f, s, iface.WriteFrames(payload));
    if iface.I2cInterface? {
      RunOne(f, s, I2cWrite(DEVICE_ADDRESS, payload));
    } else {
      var words := [payload[0] + 0x80] + payload[1..];
      assert words[0] & 0x80 != 0 && words[0] & 0x7F == payload[0];
      assert words[1..] == payload[1..];
      RunThree(f, s, ChipSelectLow, SpiWrite(words), ChipSelectHigh);
    }
  }

  /**
   * A read of a register below 0x80 leaves the chip's registers as they were, returns them on
   * success over either bus, and grows the log by its frames.
   */
  lemma ReadEffect(iface: Interface, s: BusState, payload: seq<bv8>)
    requires |payload| > 0 && payload[0] < 0x80
    ensures iface.AfterRead(s, payload).regs == s.regs
    ensures iface.AfterRead(s, payload).log == s.log + iface.ReadFrames(payload)
    ensures iface.AfterRead(s, payload).count == s.count + 1
    ensures iface.ReadResult(s, payload).Ok? ==>
      iface.ReadResult(s, payload).value == Load(s.regs, payload[0] as int, |payload| - 1)
  {
    var f := iface.bus.faults;
    RunLog(f, s, iface.ReadFrames(payload));
    if iface.I2cInterface? {
      RunOne(f, s, I2cWriteRead(DEVICE_ADDRESS, [payload[0]], |payload| - 1));
    } else {
      RunThree(f, s, ChipSelectLow, SpiTransfer(payload), ChipSelectHigh);
    }
  }

  /** The SPI write address keeps the register in its low seven bits and sets the write bit. */
  lemma SpiWriteAddress(register: bv8)
    requires register < 0x80
    ensures (register + 0x80) & 0x80 != 0 && (register + 0x80) & 0x7F == register
    ensures (register + 0x80) as int == register as int + 0x80
  {
  }

  /**
   * Every SPI exchange is bracketed by chip-select low and high, and the I2C frames all go to
   * the device address.
   */
  lemma FramesAreBracketed(iface: Interface, payload: seq<bv8>)
    requires |payload| > 0
    ensures iface.SpiInterface? ==>
      |iface.WriteFrames(payload)| == 3 && iface.WriteFrames(payload)[0] == ChipSelectLow && iface.WriteFrames(payload)[2] == ChipSelectHigh &&
      |iface.ReadFrames(payload)| == 3 && iface.ReadFrames(payload)[0] == ChipSelectLow && iface.ReadFrames(payload)[2] == ChipSelectHigh
    ensures iface.I2cInterface? ==>
      iface.WriteFrames(payload) == [I2cWrite(DEVICE_ADDRESS, payload)] &&
      iface.ReadFrames(payload) == [I2cWriteRead(DEVICE_ADDRESS, [payload[0]], |payload| - 1)]
  {
  }
}
