/** Oscillator enable and disable: a conditional read-modify-write of the control register. */
module Configuration {
  import opened Registers

  /** The oscillator is running: EOSC, which is active-low on the chip, is clear. */
  predicate OscillatorEnabled(control: bv8) {
    control & EOSC == 0
  }

  /** The byte `enable` writes for the control byte it read, or nothing when EOSC is already clear. */
  function EnableWrite(control: bv8): (w: Option<bv8>)
    ensures w.Some? <==> !OscillatorEnabled(control)
    ensures w.Some? ==> OscillatorEnabled(w.value) && w.value & !EOSC == control & !EOSC
  {
    if control & EOSC != 0 then Some(control & !EOSC) else None
  }

  /** The byte `disable` writes for the control byte it read, or nothing when EOSC is already set. */
  function DisableWrite(control: bv8): (w: Option<bv8>)
    ensures w.Some? <==> OscillatorEnabled(control)
    ensures w.Some? ==> !OscillatorEnabled(w.value) && w.value & !EOSC == control & !EOSC
  {
    if control & EOSC == 0 then Some(control | EOSC) else None
  }

  /** The control register once the operation has run: written, or left as it was. */
  function ControlAfter(control: bv8, w: Option<bv8>): bv8 {
    if w.Some? then w.value else control
  }

  /**
   * After `enable` the oscillator runs and every other control bit is as read; a second
   * `enable` writes nothing.
   */
  lemma EnableSettles(control: bv8)
    ensures OscillatorEnabled(ControlAfter(control, EnableWrite(control)))
    ensures ControlAfter(control, EnableWrite(control)) & !EOSC == control & !EOSC
    ensures EnableWrite(ControlAfter(control, EnableWrite(control))).None?
  {
  }

  /**
   * After `disable` the oscillator is stopped and every other control bit is as read; a second
   * `disable` writes nothing.
   */
  lemma DisableSettles(control: bv8)
    ensures !OscillatorEnabled(ControlAfter(control, DisableWrite(control)))
    ensures ControlAfter(control, DisableWrite(control)) & !EOSC == control & !EOSC
    ensures DisableWrite(ControlAfter(control, DisableWrite(control))).None?
  {
  }

  /** Disabling then enabling restores the control byte exactly when the oscillator was running. */
  lemma DisableThenEnable(control: bv8)
    ensures var off := ControlAfter(control, DisableWrite(control));
      ControlAfter(off, EnableWrite(off)) == control <==> OscillatorEnabled(control)
  {
  }
}
