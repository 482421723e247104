/** The guarded first tracked day of the month (src/lib/utils.ts). Its `datesAreEqual` is
    the same code as `DateHelpers.DatesAreEqual`. */
module Utils {
  import opened Wrappers
  import opened LocalTime
  import opened Models
  import DateHelpers

  /** `getFirstTrackedDayOfMonth`: `undefined` without entries, otherwise the later of the
      earliest entry and the first day of the current month. */
  function GetFirstTrackedDayOfMonth(entries: seq<HabitEntry>, now: Instant): (r: Option<Instant>)
    ensures r.None? <==> entries == []
    ensures r.Some? ==> r.value >= StartOfMonth(now)
    ensures r.Some? ==> (r.value == StartOfMonth(now) || exists i :: 0 <= i < |entries| && r.value == entries[i].date)
    ensures r.Some? ==> (r.value == StartOfMonth(now) || forall i :: 0 <= i < |entries| ==> r.value <= entries[i].date)
    ensures r.Some? ==> exists i :: 0 <= i < |entries| && r.value >= entries[i].date
  {
    if entries == [] then None else Some(DateHelpers.GetFirstTrackedDayOfMonth(entries, now))
  }
}
