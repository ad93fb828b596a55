/**
 * The browser-side reading of a date: the fields a JavaScript `Date` (or a
 * dayjs object) reports in the local time zone, and the 12-hour clock
 * arithmetic that the todo form and the todo card share.
 */
module WallClock {
  datatype Meridiem = AM | PM

  /**
   * `getFullYear()`, `getMonth()` (zero-based), `getDate()`, `getHours()` and
   * `getMinutes()` of one instant in the local zone.
   */
  datatype LocalTime = LocalTime(year: nat, month: nat, date: nat, hour: nat, minute: nat)

  /** The ranges a real `Date` keeps its fields in. */
  predicate InRange(t: LocalTime) {
    t.month < 12 && 1 <= t.date <= 31 && t.hour < 24 && t.minute < 60
  }

  /** `hour24 >= 12 ? 'PM' : 'AM'`. */
  function MeridiemOf(hour24: nat): Meridiem {
    if hour24 >= 12 then PM else AM
  }

  /** `hour24 % 12`, with 0 shown as 12: the hour a 12-hour clock face shows. */
  function Hour12(hour24: nat): (h: nat)
    ensures 1 <= h <= 12
    ensures h % 12 == hour24 % 12
  {
    var h := hour24 % 12;
    if h == 0 then 12 else h
  }

  /**
   * The 12-hour to 24-hour conversion: PM adds 12 except to 12, and 12 AM is
   * midnight. On a clock-face hour the result is a day's hour on the same
   * clock face and in the given half of the day.
   */
  function To24(hour: nat, m: Meridiem): (h: nat)
    ensures h % 12 == hour % 12
    ensures 1 <= hour <= 12 ==> h < 24 && MeridiemOf(h) == m
  {
    match m
    case PM => if hour != 12 then hour + 12 else hour
    case AM => if hour == 12 then 0 else hour
  }

  /** Every hour of the day survives the trip to the 12-hour clock and back. */
  lemma {:induction false} To24OfHour12(hour24: nat)
    requires hour24 < 24
    ensures To24(Hour12(hour24), MeridiemOf(hour24)) == hour24
  {
  }

  /** Every clock-face reading survives the trip to a 24-hour hour and back. */
  lemma {:induction false} Hour12OfTo24(hour: nat, m: Meridiem)
    requires 1 <= hour <= 12
    ensures Hour12(To24(hour, m)) == hour && MeridiemOf(To24(hour, m)) == m
  {
  }
}
