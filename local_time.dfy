/** Local time as the app sees it through `Date` and date-fns: an instant is a count of
    milliseconds on the local wall clock (the time-zone offset already applied, no daylight
    saving), a day is a fixed 86 400 000 ms, and months follow the proleptic Gregorian
    calendar. */
module LocalTime {

  type Instant = int

  const DayMs: int := 86_400_000

  /** The local day an instant falls on, counted from 1970-01-01. */
  function DayNumber(t: Instant): int
  {
    t / DayMs
  }

  /** `startOfDay` / `setHours(0, 0, 0, 0)`: local midnight of the same day. */
  function StartOfDay(t: Instant): (r: Instant)
    ensures r <= t < r + DayMs
    ensures r % DayMs == 0 && DayNumber(r) == DayNumber(t)
  {
    DayNumber(t) * DayMs
  }

  /** `endOfDay`: the last millisecond of the same local day. */
  function EndOfDay(t: Instant): (r: Instant)
    ensures t <= r && DayNumber(r) == DayNumber(t)
  {
    StartOfDay(t) + DayMs - 1
  }

  /** date-fns `isSameDay`. */
  predicate SameDay(a: Instant, b: Instant)
  {
    DayNumber(a) == DayNumber(b)
  }

  /** Two instants share a day exactly when their midnights coincide. */
  lemma SameDayIffSameMidnight(a: Instant, b: Instant)
    ensures SameDay(a, b) <==> StartOfDay(a) == StartOfDay(b)
  {
    if StartOfDay(a) == StartOfDay(b) {
      assert DayNumber(StartOfDay(a)) == DayNumber(StartOfDay(b));
    }
  }

  /** A date in the proleptic Gregorian calendar; `month` is 1..12, `day` is 1..31. */
  datatype CivilDate = CivilDate(year: int, month: int, day: int)

  /** The civil date of a day number (H. Hinnant's `civil_from_days`). */
  function CivilFromDays(days: int): CivilDate
  {
    var z := days + 719468;
    var era := z / 146097;
    var doe := z - era * 146097;
    var yoe := (doe - doe / 1460 + doe / 36524 - doe / 146096) / 365;
    var doy := doe - (365 * yoe + yoe / 4 - yoe / 100);
    var mp := (5 * doy + 2) / 153;
    var d := doy - (153 * mp + 2) / 5 + 1;
    var m := if mp < 10 then mp + 3 else mp - 9;
    CivilDate(yoe + era * 400 + (if m <= 2 then 1 else 0), m, d)
  }

  /** The day number of a civil date (H. Hinnant's `days_from_civil`). */
  function DaysFromCivil(date: CivilDate): int
  {
    var y := if date.month <= 2 then date.year - 1 else date.year;
    var era := y / 400;
    var yoe := y - era * 400;
    var mp := if date.month > 2 then date.month - 3 else date.month + 9;
    var doy := (153 * mp + 2) / 5 + date.day - 1;
    var doe := yoe * 365 + yoe / 4 - yoe / 100 + doy;
    era * 146097 + doe - 719468
  }

  function CivilDateOf(t: Instant): CivilDate
  {
    CivilFromDays(DayNumber(t))
  }

  /** `Date.prototype.getDate`: the day of the month. */
  function DayOfMonth(t: Instant): int
  {
    CivilDateOf(t).day
  }

  /** date-fns `isSameMonth`: same year and same month. */
  predicate SameMonth(a: Instant, b: Instant)
  {
    CivilDateOf(a).year == CivilDateOf(b).year && CivilDateOf(a).month == CivilDateOf(b).month
  }

  /** date-fns `startOfMonth`, and `new Date(y, m, 1)` for the month of `t`. */
  function StartOfMonth(t: Instant): Instant
  {
    var c := CivilDateOf(t);
    DaysFromCivil(CivilDate(c.year, c.month, 1)) * DayMs
  }

  /** date-fns `endOfMonth`: the last millisecond before the next month starts. */
  function EndOfMonth(t: Instant): Instant
  {
    var c := CivilDateOf(t);
    var next := if c.month == 12 then CivilDate(c.year + 1, 1, 1) else CivilDate(c.year, c.month + 1, 1);
    DaysFromCivil(next) * DayMs - 1
  }

  /** The earliest of a non-empty list of instants (date-fns `min`, `Math.min`). */
  function Earliest(ts: seq<Instant>): (r: Instant)
    requires |ts| > 0
    ensures r in ts
    ensures forall i :: 0 <= i < |ts| ==> r <= ts[i]
  {
    if |ts| == 1 then ts[0]
    else
      var rest := Earliest(ts[1..]);
      assert forall i :: 1 <= i < |ts| ==> ts[i] == ts[1..][i - 1];
      if ts[0] <= rest then ts[0] else rest
  }

  /** A JavaScript `Date` object: one mutable timestamp. */
  class JsDate {
    var time: Instant

    constructor (t: Instant)
      ensures time == t
    {
      time := t;
    }

    /** `setHours(0, 0, 0, 0)`: moves this date to local midnight and returns the new timestamp. */
    method SetToMidnight() returns (r: Instant)
      modifies this
      ensures time == StartOfDay(old(time)) && r == time
    {
      time := StartOfDay(time);
      r := time;
    }
  }

  /** Midnight is a fixed point of `setHours(0, 0, 0, 0)`. */
  lemma StartOfDayIdempotent(t: Instant)
    ensures StartOfDay(StartOfDay(t)) == StartOfDay(t)
  {
    var k := DayNumber(t);
    assert StartOfDay(t) == k * DayMs;
    assert (k * DayMs) / DayMs == k;
  }
}
