/** The month calendar of a habit (src/components/HabitTrackerCalendar.tsx): the look of each
    day tile, the visibility of the month arrows and the forwarding of month changes. */
module HabitTrackerCalendar {
  import opened Wrappers
  import opened LocalTime
  import opened Seqs
  import opened Models

  /** A day tile's background. */
  datatype Fill = Primary | Secondary | Accent | White

  /** A blank tile (a day of another month) or a numbered day. */
  datatype Tile = Blank | Day(dayOfMonth: int, outlined: bool, fill: Fill)

  /** `tileContent({ date, activeStartDate })`. */
  function TileContent(date: Instant, activeStartDate: Instant, entries: seq<HabitEntry>, interval: seq<Instant>, now: Instant): (r: Tile)
    ensures !SameMonth(date, activeStartDate) <==> r == Blank
    ensures r.Day? ==> r.dayOfMonth == DayOfMonth(date) && (r.outlined <==> SameDay(date, now))
  {
    if !SameMonth(date, activeStartDate) then Blank
    else
      var entry := Find(entries, (e: HabitEntry) => SameDay(e.date, date));
      var fill :=
        if entry.Some? then (if entry.value.completed then Primary else Secondary)
        else if exists d :: d in interval && SameDay(d, date) then Accent
        else White;
      Day(DayOfMonth(date), SameDay(date, now), fill)
  }

  /** The fill of a day of the viewed month: the first entry on that day decides, completed
      entries are primary and others secondary; a day without entries is accent when it is
      in the interval and white otherwise. */
  lemma TileFillSpec(date: Instant, activeStartDate: Instant, entries: seq<HabitEntry>, interval: seq<Instant>, now: Instant)
    requires SameMonth(date, activeStartDate)
    ensures var fill := TileContent(date, activeStartDate, entries, interval, now).fill;
      (fill == Primary || fill == Secondary <==> exists i :: 0 <= i < |entries| && SameDay(entries[i].date, date)) &&
      (forall i ::
         (0 <= i < |entries| && SameDay(entries[i].date, date) &&
          forall j :: 0 <= j < i ==> !SameDay(entries[j].date, date)) ==>
         (fill == Primary <==> entries[i].completed)) &&
      ((forall i :: 0 <= i < |entries| ==> !SameDay(entries[i].date, date)) ==>
         (fill == Accent <==> exists k :: 0 <= k < |interval| && SameDay(interval[k], date)))
  {
    var p := (e: HabitEntry) => SameDay(e.date, date);
    var entry := Find(entries, p);
    assert forall i :: 0 <= i < |entries| ==> entries[i] in entries;
    assert forall k :: 0 <= k < |interval| ==> interval[k] in interval;
    if entry.Some? {
      var i :| 0 <= i < |entries| && entries[i] == entry.value && forall j :: 0 <= j < i ==> !p(entries[j]);
    }
  }

  /** Several entries on one day: the first in list order decides. */
  lemma FirstEntryDecides(date: Instant, activeStartDate: Instant, e1: HabitEntry, e2: HabitEntry, interval: seq<Instant>, now: Instant)
    requires SameMonth(date, activeStartDate) && SameDay(e1.date, date) && SameDay(e2.date, date)
    ensures TileContent(date, activeStartDate, [e1, e2], interval, now).fill == if e1.completed then Primary else Secondary
  {
  }

  /** The previous-month arrow shows when the viewed month is not that of the first
      tracked day. */
  predicate ShowPrevArrow(activeStartDate: Instant, firstTrackedDay: Instant)
  {
    !SameMonth(activeStartDate, firstTrackedDay)
  }

  /** The next-month arrow shows when the viewed month is not the current one. */
  predicate ShowNextArrow(activeStartDate: Instant, now: Instant)
  {
    !SameMonth(activeStartDate, now)
  }

  /** Navigation stops at both ends: no previous arrow on the first tracked month, no next
      arrow on the current month, and none at all when both are the viewed month. */
  lemma ArrowsStopAtEnds(activeStartDate: Instant, firstTrackedDay: Instant, now: Instant)
    ensures SameMonth(activeStartDate, firstTrackedDay) ==> !ShowPrevArrow(activeStartDate, firstTrackedDay)
    ensures SameMonth(activeStartDate, now) ==> !ShowNextArrow(activeStartDate, now)
    ensures ShowPrevArrow(activeStartDate, firstTrackedDay) || ShowNextArrow(activeStartDate, now) ||
      SameMonth(firstTrackedDay, now)
  {
  }

  /** `onActiveStartDateChange`: the new start date goes to `onMonthChange` only when it is
      set and a handler was given. */
  function ForwardMonthChange(activeStartDate: Option<Instant>, hasHandler: bool): (r: Option<Instant>)
    ensures r.Some? <==> activeStartDate.Some? && hasHandler
    ensures r.Some? ==> r == activeStartDate
  {
    if activeStartDate.Some? && hasHandler then activeStartDate else None
  }
}
