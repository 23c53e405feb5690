/** The two ways the code turns a duration into time: a number of milliseconds, and
    stepping a field of a date.  Times are milliseconds since the epoch, in UTC;
    `addYears` stands for the calendar step of `Date.setFullYear`. */
module Durations {
  import opened Schema

  function CalculateDelayMs(value: Option<int>, unit: Option<DurationUnit>): Option<int> {
    if value.None? || value.value == 0 || unit.None? then None
    else match unit.value
      case Seconds => Some(value.value * 1000)
      case Minutes => Some(value.value * 60 * 1000)
      case Hours => Some(value.value * 60 * 60 * 1000)
      case Days => Some(value.value * 24 * 60 * 60 * 1000)
      case Years => Some(value.value * 365 * 24 * 60 * 60 * 1000)
      case UnknownUnit => None
  }

  /** A date by its fields; `day` counts days from the epoch. */
  datatype Fields = Fields(day: int, hour: int, minute: int, second: int, ms: int)

  function FieldsOf(t: int): Fields {
    Fields(t / 86400000, t / 3600000 % 24, t / 60000 % 60, t / 1000 % 60, t % 1000)
  }

  /** Fields out of range carry into the next larger one. */
  function TimeOf(f: Fields): int {
    f.ms + 1000 * (f.second + 60 * (f.minute + 60 * (f.hour + 24 * f.day)))
  }

  function Stepped(t: int, value: int, unit: DurationUnit, addYears: (int, int) -> int): Option<int> {
    var f := FieldsOf(t);
    match unit
    case Seconds => Some(TimeOf(f.(second := f.second + value)))
    case Minutes => Some(TimeOf(f.(minute := f.minute + value)))
    case Hours => Some(TimeOf(f.(hour := f.hour + value)))
    case Days => Some(TimeOf(f.(day := f.day + value)))
    case Years => Some(addYears(t, value))
    case UnknownUnit => None
  }

  /** The end of a duration that starts at `start`. */
  function AddDuration(
    start: Option<int>, value: Option<int>, unit: Option<DurationUnit>, addYears: (int, int) -> int): Option<int>
  {
    if start.None? || value.None? || value.value == 0 || unit.None? then None
    else Stepped(start.value, value.value, unit.value, addYears)
  }

  lemma TimeOfFields(t: int)
    ensures TimeOf(FieldsOf(t)) == t
  {
    var seconds := t / 1000;
    var minutes := t / 60000;
    var hours := t / 3600000;
    assert minutes == seconds / 60;
    assert hours == minutes / 60;
    assert t / 86400000 == hours / 24;
  }

  /** A delay needs a value and a known unit, and each unit has its number of milliseconds. */
  lemma DelayInMilliseconds(value: Option<int>, unit: Option<DurationUnit>)
    ensures CalculateDelayMs(value, unit).Some? <==>
      value.Some? && value.value != 0 && unit.Some? && !unit.value.UnknownUnit?
    ensures CalculateDelayMs(value, unit).Some? ==>
      var d, n := CalculateDelayMs(value, unit).value, value.value;
      match unit.value
      case Seconds => d == 1000 * n
      case Minutes => d == 60000 * n
      case Hours => d == 3600000 * n
      case Days => d == 86400000 * n
      case Years => d == 31536000000 * n
      case UnknownUnit => false
  {
  }

  /** Stepping a field and adding milliseconds agree for every unit of fixed length,
      and are undefined for the same inputs. */
  lemma DelayIsEndMinusStart(
    start: int, value: Option<int>, unit: Option<DurationUnit>, addYears: (int, int) -> int)
    ensures var t, d := AddDuration(Some(start), value, unit, addYears), CalculateDelayMs(value, unit);
      && (t.Some? <==> d.Some?)
      && (t.Some? && unit != Some(Years) ==> t.value - start == d.value)
  {
    TimeOfFields(start);
  }

  /** A later start never has an earlier anniversary. */
  ghost predicate MonotoneYears(addYears: (int, int) -> int) {
    forall a, b, n :: a <= b ==> addYears(a, n) <= addYears(b, n)
  }

  lemma EndIsMonotone(
    a: int, b: int, value: Option<int>, unit: Option<DurationUnit>, addYears: (int, int) -> int)
    requires a <= b && MonotoneYears(addYears)
    ensures var s, t := AddDuration(Some(a), value, unit, addYears), AddDuration(Some(b), value, unit, addYears);
      (s.Some? <==> t.Some?) && (s.Some? ==> s.value <= t.value)
  {
    DelayIsEndMinusStart(a, value, unit, addYears);
    DelayIsEndMinusStart(b, value, unit, addYears);
  }
}
