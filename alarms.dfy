/** Alarm 1 on a day of the month: the matching-mode table and the bytes written for it. */
module Alarms {
  import opened Registers
  import opened Codec
  import opened DateTime

  /** Alarm 1 date settings: day of month 1..31, hour, minute 0..59, second 0..59. */
  datatype DateAlarm1 = DateAlarm1(date: bv8, hour: Hours, minute: bv8, second: bv8)

  /** How many fields alarm 1 has to match, from none to all four. */
  datatype Alarm1Matching =
    | OncePerSecond
    | SecondsMatch
    | MinutesAndSecondsMatch
    | HoursMinutesAndSecondsMatch
    | AllMatch

  /** The number of fields (seconds, minutes, hours, day, in that order) a mode compares. */
  function Strictness(matching: Alarm1Matching): (n: nat)
    ensures n <= 4
  {
    match matching
    case OncePerSecond => 0
    case SecondsMatch => 1
    case MinutesAndSecondsMatch => 2
    case HoursMinutesAndSecondsMatch => 3
    case AllMatch => 4
  }

  /**
   * The mask bits for the seconds, minutes, hours and day registers: a set mask bit tells the
   * chip to ignore that field. The compared fields form a prefix, seconds first.
   */
  function MatchingMaskAlarm1(matching: Alarm1Matching): (mask: seq<bv8>)
    ensures |mask| == 4
    ensures forall i :: 0 <= i < 4 ==> (mask[i] == 0 <==> i < Strictness(matching))
    ensures forall i :: 0 <= i < 4 ==> mask[i] == 0 || mask[i] == ALARM_MATCH
  {
    match matching
    case OncePerSecond => [ALARM_MATCH, ALARM_MATCH, ALARM_MATCH, ALARM_MATCH]
    case SecondsMatch => [0, ALARM_MATCH, ALARM_MATCH, ALARM_MATCH]
    case MinutesAndSecondsMatch => [0, 0, ALARM_MATCH, ALARM_MATCH]
    case HoursMinutesAndSecondsMatch => [0, 0, 0, ALARM_MATCH]
    case AllMatch => [0, 0, 0, 0]
  }

  /** The next stricter mode. */
  function Stricter(matching: Alarm1Matching): (next: Alarm1Matching)
    requires !matching.AllMatch?
    ensures Strictness(next) == Strictness(matching) + 1
  {
    match matching
    case OncePerSecond => SecondsMatch
    case SecondsMatch => MinutesAndSecondsMatch
    case MinutesAndSecondsMatch => HoursMinutesAndSecondsMatch
    case HoursMinutesAndSecondsMatch => AllMatch
  }

  /** Each stricter mode clears exactly one more mask bit, at the next field in order. */
  lemma StricterClearsOneMore(matching: Alarm1Matching)
    requires !matching.AllMatch?
    ensures var a := MatchingMaskAlarm1(matching); var b := MatchingMaskAlarm1(Stricter(matching));
      a[Strictness(matching)] == ALARM_MATCH && b[Strictness(matching)] == 0 &&
      forall i :: 0 <= i < 4 && i != Strictness(matching) ==> a[i] == b[i]
  {
  }

  /** The extremes of the table: every field ignored, or none. */
  lemma MatchingMaskExtremes()
    ensures MatchingMaskAlarm1(OncePerSecond) == [ALARM_MATCH, ALARM_MATCH, ALARM_MATCH, ALARM_MATCH]
    ensures MatchingMaskAlarm1(AllMatch) == [0, 0, 0, 0]
  {
  }

  /** The date, minute and second lie in range; the hour is checked by its own encoding. */
  predicate ValidDateAlarm1(when: DateAlarm1) {
    1 <= when.date <= 31 && when.minute <= 59 && when.second <= 59
  }

  /** The four field encodings, before masking: seconds, minutes, hours register, day of month. */
  function Alarm1Fields(when: DateAlarm1, hours: bv8): seq<bv8> {
    [DecimalToPackedBcd(when.second), DecimalToPackedBcd(when.minute), hours, DecimalToPackedBcd(when.date)]
  }

  /**
   * The burst `set_alarm1_date` writes: the alarm-1 seconds address, then each field ORed with
   * its mask bit. Out-of-range fields, the hour included, give `InvalidInputData`.
   */
  function Alarm1Payload(when: DateAlarm1, matching: Alarm1Matching): (r: Result<seq<bv8>>)
    ensures r.Err? <==> !ValidDateAlarm1(when) || !ValidHours(when.hour)
    ensures r.Err? ==> r.error == InvalidInputData
    ensures r.Ok? ==> |r.value| == 5 && r.value[0] == REG_ALARM1_SECONDS
  {
    if !ValidDateAlarm1(when) then Err(InvalidInputData)
    else
      var mask := MatchingMaskAlarm1(matching);
      var hours := HoursToRegister(when.hour);
      if hours.Err? then Err(hours.error)
      else
        Ok(MaskedBurst(Alarm1Fields(when, hours.value), mask))
  }

  /** The alarm-1 seconds address followed by each field ORed with its mask byte. */
  function MaskedBurst(fields: seq<bv8>, mask: seq<bv8>): (p: seq<bv8>)
    requires |fields| == 4 && |mask| == 4
    ensures |p| == 5 && p[0] == REG_ALARM1_SECONDS
  {
    [REG_ALARM1_SECONDS, fields[0] | mask[0], fields[1] | mask[1], fields[2] | mask[2], fields[3] | mask[3]]
  }

  /** Fields that leave bit 7 free, under mask bytes that are 0 or bit 7, can be split out of the burst again. */
  lemma MaskedBurstSeparates(fields: seq<bv8>, mask: seq<bv8>)
    requires |fields| == 4 && |mask| == 4
    requires forall i :: 0 <= i < 4 ==> fields[i] & 0x80 == 0
    requires forall i :: 0 <= i < 4 ==> mask[i] == 0 || mask[i] == ALARM_MATCH
    ensures var p := MaskedBurst(fields, mask);
      p[1] & 0x80 == mask[0] && p[1] & 0x7F == fields[0] &&
      p[2] & 0x80 == mask[1] && p[2] & 0x7F == fields[1] &&
      p[3] & 0x80 == mask[2] && p[3] & 0x7F == fields[2] &&
      p[4] & 0x80 == mask[3] && p[4] & 0x7F == fields[3]
  {
    var p := MaskedBurst(fields, mask);
    assert p[1] == fields[0] | mask[0] && p[2] == fields[1] | mask[1];
    assert p[3] == fields[2] | mask[2] && p[4] == fields[3] | mask[3];
    MaskedField(fields[0], mask[0]);
    MaskedField(fields[1], mask[1]);
    MaskedField(fields[2], mask[2]);
    MaskedField(fields[3], mask[3]);
  }

  /** For valid input no field encoding uses bit 7. */
  lemma FieldsLeaveMaskBit(when: DateAlarm1)
    requires ValidDateAlarm1(when) && ValidHours(when.hour)
    ensures forall i :: 0 <= i < 4 ==> Alarm1Fields(when, HoursToRegister(when.hour).value)[i] & 0x80 == 0
  {
    BcdLeavesMaskBit(when.second);
    BcdLeavesMaskBit(when.minute);
    BcdLeavesMaskBit(when.date);
  }

  /** A field with bit 7 clear and a mask that is 0 or bit 7 can be separated again after the or. */
  lemma MaskedField(field: bv8, mask: bv8)
    requires field & 0x80 == 0 && (mask == 0 || mask == ALARM_MATCH)
    ensures (field | mask) & 0x80 == mask && (field | mask) & 0x7F == field
  {
  }

  /** A BCD field of at most 79 leaves bit 7 free for the mask. */
  lemma BcdLeavesMaskBit(n: bv8)
    requires n <= 79
    ensures DecimalToPackedBcd(n) & 0x80 == 0
  {
  }

  /**
   * For valid input, bit 7 of each written field byte is exactly its mask bit and the low seven
   * bits are the field's own encoding, so the mask never corrupts a field.
   */
  lemma Alarm1MaskSeparation(when: DateAlarm1, matching: Alarm1Matching)
    requires ValidDateAlarm1(when) && ValidHours(when.hour)
    ensures Alarm1Payload(when, matching).Ok?
    ensures var p := Alarm1Payload(when, matching).value;
      var mask := MatchingMaskAlarm1(matching);
      var fields := Alarm1Fields(when, HoursToRegister(when.hour).value);
      p[1] & 0x80 == mask[0] && p[1] & 0x7F == fields[0] &&
      p[2] & 0x80 == mask[1] && p[2] & 0x7F == fields[1] &&
      p[3] & 0x80 == mask[2] && p[3] & 0x7F == fields[2] &&
      p[4] & 0x80 == mask[3] && p[4] & 0x7F == fields[3]
  {
    FieldsLeaveMaskBit(when);
    MaskedBurstSeparates(Alarm1Fields(when, HoursToRegister(when.hour).value), MatchingMaskAlarm1(matching));
  }

  /** The written bytes decode back to the alarm's fields, whatever the matching mode. */
  lemma Alarm1PayloadRoundTrip(when: DateAlarm1, matching: Alarm1Matching)
    requires ValidDateAlarm1(when) && ValidHours(when.hour)
    ensures Alarm1Payload(when, matching).Ok?
    ensures var p := Alarm1Payload(when, matching).value;
      PackedBcdToDecimal(p[1] & 0x7F) == when.second &&
      PackedBcdToDecimal(p[2] & 0x7F) == when.minute &&
      HoursFromRegister(p[3] & 0x7F) == Ok(when.hour) &&
      PackedBcdToDecimal(p[4] & 0x7F) == when.date
  {
    Alarm1MaskSeparation(when, matching);
    var p := Alarm1Payload(when, matching).value;
    var fields := Alarm1Fields(when, HoursToRegister(when.hour).value);
    assert p[1] & 0x7F == fields[0] && p[2] & 0x7F == fields[1];
    assert p[3] & 0x7F == fields[2] && p[4] & 0x7F == fields[3];
    BcdRoundTrip(when.second);
    BcdRoundTrip(when.minute);
    BcdRoundTrip(when.date);
    HoursRoundTrip(when.hour);
  }

  /** The alarm test vectors: date 1, 02:03:04, in each matching mode and with AM/PM hours. */
  lemma Alarm1Vectors()
    ensures Alarm1Payload(DateAlarm1(1, H24(2), 3, 4), AllMatch) == Ok([0x07, 4, 3, 2, 1])
    ensures Alarm1Payload(DateAlarm1(1, AM(2), 3, 4), AllMatch) == Ok([0x07, 4, 3, 0x42, 1])
    ensures Alarm1Payload(DateAlarm1(1, PM(2), 3, 4), AllMatch) == Ok([0x07, 4, 3, 0x62, 1])
    ensures Alarm1Payload(DateAlarm1(1, H24(2), 3, 4), HoursMinutesAndSecondsMatch) == Ok([0x07, 4, 3, 2, 0x81])
    ensures Alarm1Payload(DateAlarm1(1, H24(2), 3, 4), MinutesAndSecondsMatch) == Ok([0x07, 4, 3, 0x82, 0x81])
    ensures Alarm1Payload(DateAlarm1(1, H24(2), 3, 4), SecondsMatch) == Ok([0x07, 4, 0x83, 0x82, 0x81])
    ensures Alarm1Payload(DateAlarm1(1, H24(2), 3, 4), OncePerSecond) == Ok([0x07, 0x84, 0x83, 0x82, 0x81])
    ensures Alarm1Payload(DateAlarm1(32, H24(2), 3, 4), AllMatch) == Err(InvalidInputData)
    ensures Alarm1Payload(DateAlarm1(1, H24(24), 3, 4), AllMatch) == Err(InvalidInputData)
  {
  }
}
