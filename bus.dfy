/**
 * The environment the driver runs in: an I2C or SPI bus with the clock chip at its far end.
 * The chip is a plain register file; the bus records every transaction in a ghost log and
 * fails the transactions a fixed fault map names.
 */
module Bus {
  import opened Registers

  /** One transaction on the wire, as the driver issues it. */
  datatype Transaction =
    | I2cWrite(address: bv8, bytes: seq<bv8>)
    | I2cWriteRead(address: bv8, bytes: seq<bv8>, readCount: nat)
    | SpiWrite(words: seq<bv8>)
    | SpiTransfer(words: seq<bv8>)
    | ChipSelectLow
    | ChipSelectHigh

  /** What a data transaction reports back: success, or the bus's own error. */
  datatype Outcome = Done | Failed(error: BusError)

  /** A snapshot of the bus: the chip's registers, the chip-select level, data transactions so far, the wire log. */
  datatype BusState = BusState(regs: seq<bv8>, csLow: bool, count: nat, log: seq<Transaction>)

  /** `data` stored at consecutive registers from `start`; bytes past the last register are dropped. */
  function Store(regs: seq<bv8>, start: int, data: seq<bv8>): (r: seq<bv8>)
    ensures |r| == |regs|
  {
    seq(|regs|, i requires 0 <= i < |regs| => if start <= i < start + |data| then data[i - start] else regs[i])
  }

  /** `n` consecutive registers from `start`; positions past the last register read as 0. */
  function Load(regs: seq<bv8>, start: int, n: nat): (r: seq<bv8>)
    ensures |r| == n
  {
    seq(n, i requires 0 <= i < n => if 0 <= start + i < |regs| then regs[start + i] else 0)
  }

  /** Reading back what was stored gives the stored bytes, and no other register changes. */
  lemma StoreThenLoad(regs: seq<bv8>, start: nat, data: seq<bv8>)
    requires start + |data| <= |regs|
    ensures Load(Store(regs, start, data), start, |data|) == data
    ensures forall i :: 0 <= i < |regs| && !(start <= i < start + |data|) ==> Store(regs, start, data)[i] == regs[i]
  {
  }

  /** Whether the data transaction numbered `count` fails, and with which error. */
  function Fault(faults: map<nat, BusError>, count: nat): (o: Outcome)
    ensures o.Failed? <==> count in faults
  {
    if count in faults then Failed(faults[count]) else Done
  }

  /** An SPI frame of `words` seen by the chip: a first word with bit 7 set is a write command. */
  predicate IsSpiWriteCommand(csLow: bool, words: seq<bv8>) {
    csLow && |words| > 0 && words[0] & 0x80 != 0
  }

  /** The chip's registers after it takes part in transaction `t`, which succeeded. */
  function ChipStore(regs: seq<bv8>, csLow: bool, t: Transaction): seq<bv8> {
    match t
    case I2cWrite(address, bytes) =>
      if address == DEVICE_ADDRESS && |bytes| > 0 then Store(regs, bytes[0] as int, bytes[1..]) else regs
    case SpiWrite(words) =>
      if IsSpiWriteCommand(csLow, words) then Store(regs, (words[0] & 0x7F) as int, words[1..]) else regs
    case SpiTransfer(words) =>
      if IsSpiWriteCommand(csLow, words) then Store(regs, (words[0] & 0x7F) as int, words[1..]) else regs
    case _ => regs
  }

  /**
   * What the chip shifts back during an SPI transfer of `words`: on a read command the first word
   * comes back as sent and the rest are the registers from the addressed one on; otherwise the
   * words come back unchanged.
   */
  function SpiResponse(regs: seq<bv8>, csLow: bool, words: seq<bv8>): (r: seq<bv8>)
    ensures |r| == |words|
  {
    if !csLow || |words| == 0 || IsSpiWriteCommand(csLow, words) then words
    else [words[0]] + Load(regs, words[0] as int, |words| - 1)
  }

  /** The bus state after transaction `t`. Chip-select changes never fail and are not counted. */
  function Step(faults: map<nat, BusError>, s: BusState, t: Transaction): (s': BusState)
    ensures |s'.regs| == |s.regs|
    ensures s'.log == s.log + [t]
  {
    match t
    case ChipSelectLow => s.(csLow := true, log := s.log + [t])
    case ChipSelectHigh => s.(csLow := false, log := s.log + [t])
    case _ =>
      var regs := if Fault(faults, s.count).Done? then ChipStore(s.regs, s.csLow, t) else s.regs;
      s.(regs := regs, count := s.count + 1, log := s.log + [t])
  }

  /** The bus state after the transactions `ts`, in order. */
  function Run(faults: map<nat, BusError>, s: BusState, ts: seq<Transaction>): BusState
    decreases |ts|
  {
    if ts == [] then s else Run(faults, Step(faults, s, ts[0]), ts[1..])
  }

  /** Running a sequence of transactions appends exactly that sequence to the log. */
  lemma {:induction false} RunLog(faults: map<nat, BusError>, s: BusState, ts: seq<Transaction>)
    ensures Run(faults, s, ts).log == s.log + ts
    ensures |Run(faults, s, ts).regs| == |s.regs|
    decreases |ts|
  {
    if ts != [] {
      RunLog(faults, Step(faults, s, ts[0]), ts[1..]);
      assert [ts[0]] + ts[1..] == ts;
    }
  }

  lemma RunOne(faults: map<nat, BusError>, s: BusState, t: Transaction)
    ensures Run(faults, s, [t]) == Step(faults, s, t)
  {
    assert [t][1..] == [];
  }

  lemma RunThree(faults: map<nat, BusError>, s: BusState, a: Transaction, b: Transaction, c: Transaction)
    ensures Run(faults, s, [a, b, c]) == Step(faults, Step(faults, Step(faults, s, a), b), c)
  {
    assert [a, b, c][1..] == [b, c];
    assert [b, c][1..] == [c];
    RunOne(faults, Step(faults, Step(faults, s, a), b), c);
  }

  /** The bus, its chip and its chip-select line. */
  class Bus {
    var regs: seq<bv8>
    var csLow: bool
    var count: nat
    ghost var log: seq<Transaction>
    const faults: map<nat, BusError>

    ghost predicate Valid()
      reads this
    {
      |regs| == REGISTER_COUNT
    }

    ghost function State(): BusState
      reads this
    {
      BusState(regs, csLow, count, log)
    }

    /** A bus whose chip holds `initial`, chip-select high, that fails the transactions `faults` names. */
    constructor (initial: seq<bv8>, faults: map<nat, BusError>)
      requires |initial| == REGISTER_COUNT
      ensures Valid()
      ensures State() == BusState(initial, false, 0, [])
      ensures this.faults == faults
    {
      regs := initial;
      csLow := false;
      count := 0;
      log := [];
      this.faults := faults;
    }

    /** An I2C write of `bytes` to `address`. */
    method Write(address: bv8, bytes: seq<bv8>) returns (r: Outcome)
      requires Valid()
      modifies this
      ensures Valid()
      ensures r == Fault(faults, old(count))
      ensures State() == Step(faults, old(State()), I2cWrite(address, bytes))
    {
      r := Fault(faults, count);
      if r.Done? {
        regs := ChipStore(regs, csLow, I2cWrite(address, bytes));
      }
      count := count + 1;
      log := log + [I2cWrite(address, bytes)];
    }

    /** An I2C write of `bytes` to `address` followed by a read into `buffer`; on failure `buffer` is untouched. */
    method WriteRead(address: bv8, bytes: seq<bv8>, buffer: array<bv8>) returns (r: Outcome)
      requires Valid()
      modifies this, buffer
      ensures Valid()
      ensures r == Fault(faults, old(count))
      ensures State() == Step(faults, old(State()), I2cWriteRead(address, bytes, buffer.Length))
      ensures buffer[..] ==
        if r.Done? && address == DEVICE_ADDRESS && |bytes| > 0 then Load(old(regs), bytes[0] as int, buffer.Length)
        else old(buffer[..])
    {
      r := Fault(faults, count);
      if r.Done? && address == DEVICE_ADDRESS && |bytes| > 0 {
        var data := Load(regs, bytes[0] as int, buffer.Length);
        forall i | 0 <= i < buffer.Length {
          buffer[i] := data[i];
        }
      }
      count := count + 1;
      log := log + [I2cWriteRead(address, bytes, buffer.Length)];
    }

    /** An SPI write of `words`; whatever the chip shifts back is discarded. */
    method SpiWrite(words: seq<bv8>) returns (r: Outcome)
      requires Valid()
      modifies this
      ensures Valid()
      ensures r == Fault(faults, old(count))
      ensures State() == Step(faults, old(State()), Transaction.SpiWrite(words))
    {
      r := Fault(faults, count);
      if r.Done? {
        regs := ChipStore(regs, csLow, Transaction.SpiWrite(words));
      }
      count := count + 1;
      log := log + [Transaction.SpiWrite(words)];
    }

    /** An SPI transfer in place: `words` is sent and replaced by the response; on failure it is untouched. */
    method Transfer(words: array<bv8>) returns (r: Outcome)
      requires Valid()
      modifies this, words
      ensures Valid()
      ensures r == Fault(faults, old(count))
      ensures State() == Step(faults, old(State()), SpiTransfer(old(words[..])))
      ensures words[..] == if r.Done? then SpiResponse(old(regs), old(csLow), old(words[..])) else old(words[..])
    {
      r := Fault(faults, count);
      var sent := words[..];
      if r.Done? {
        var response := SpiResponse(regs, csLow, sent);
        regs := ChipStore(regs, csLow, SpiTransfer(sent));
        forall i | 0 <= i < words.Length {
          words[i] := response[i];
        }
      }
      count := count + 1;
      log := log + [SpiTransfer(sent)];
    }

    /** Drives chip-select low (selects the chip). */
    method SetLow()
      requires Valid()
      modifies this
      ensures Valid()
      ensures State() == Step(faults, old(State()), ChipSelectLow)
    {
      csLow := true;
      log := log + [ChipSelectLow];
    }

    /** Drives chip-select high (releases the chip). */
    method SetHigh()
      requires Valid()
      modifies this
      ensures Valid()
      ensures State() == Step(faults, old(State()), ChipSelectHigh)
    {
      csLow := false;
      log := log + [ChipSelectHigh];
    }
  }
}
