/** Date helpers (src/date-helpers.ts; src/lib/utils.ts holds the same `datesAreEqual`):
    the same-day test, which moves both of its `Date` arguments to midnight, and the first
    tracked day of the current month. */
module DateHelpers {
  import opened LocalTime
  import opened Models

  /** `datesAreEqual(date1, date2)`: `setHours(0, 0, 0, 0)` on each, then compare. The
      answer is whether the two dates were on the same local day, and both dates are left
      at the midnight of their day (one date passed twice is moved once). */
  method DatesAreEqual(date1: JsDate, date2: JsDate) returns (r: bool)
    modifies date1, date2
    ensures r <==> SameDay(old(date1.time), old(date2.time))
    ensures date1.time == StartOfDay(old(date1.time))
    ensures date2.time == StartOfDay(old(date2.time))
  {
    StartOfDayIdempotent(date2.time);
    var t1 := date1.SetToMidnight();
    var t2 := date2.SetToMidnight();
    SameDayIffSameMidnight(old(date1.time), old(date2.time));
    r := t1 == t2;
  }

  /** `getFirstTrackedDayOfMonth` without its guard: the later of the earliest entry and the
      first day of the current month. With no entries `Math.min()` is `Infinity`; callers
      must pass at least one entry. */
  function GetFirstTrackedDayOfMonth(entries: seq<HabitEntry>, now: Instant): (r: Instant)
    requires |entries| > 0
    ensures r >= StartOfMonth(now)
    ensures exists i :: 0 <= i < |entries| && r >= entries[i].date
    ensures r == StartOfMonth(now) || exists i :: 0 <= i < |entries| && r == entries[i].date
    ensures r == StartOfMonth(now) || forall i :: 0 <= i < |entries| ==> r <= entries[i].date
  {
    var earliest := Earliest(EntryDates(entries));
    var monthStart := StartOfMonth(now);
    assert exists i :: 0 <= i < |entries| && earliest == entries[i].date by {
      var i :| 0 <= i < |EntryDates(entries)| && EntryDates(entries)[i] == earliest;
    }
    if earliest >= monthStart then earliest else monthStart
  }
}
