/** The plain calendar's day marks (src/components/Calendar.tsx, and the identical
    src/components/ui/Calendar.tsx): a day shows ✓ or ✗ after the first entry on that day,
    and nothing without one. The entry search calls `datesAreEqual`, which moves every
    date it compares to midnight. */
module CalendarTile {
  import opened Wrappers
  import opened LocalTime
  import opened Seqs
  import opened Models
  import DateHelpers

  datatype Mark = NoMark | Check | Cross

  /** The mark of a day for a list of entries. */
  function MarkFor(entries: seq<HabitEntry>, day: Instant): (r: Mark)
    ensures r == NoMark <==> forall i :: 0 <= i < |entries| ==> !SameDay(entries[i].date, day)
    ensures r != NoMark ==>
      exists i :: 0 <= i < |entries| && SameDay(entries[i].date, day) &&
        (forall j :: 0 <= j < i ==> !SameDay(entries[j].date, day)) && (r == Check <==> entries[i].completed)
  {
    match FindIndex(entries, (e: HabitEntry) => SameDay(e.date, day))
    case None => NoMark
    case Some(i) => if entries[i].completed then Check else Cross
  }

  /** Entries as the component holds them: each date is a mutable `Date` object. */
  datatype EntryObject = EntryObject(id: int, habitId: int, completed: bool, date: JsDate)

  function Dates(entries: seq<EntryObject>): set<JsDate>
  {
    set k | 0 <= k < |entries| :: entries[k].date
  }

  /** The entries' current values. */
  function Values(entries: seq<EntryObject>): (r: seq<HabitEntry>)
    reads Dates(entries)
    ensures |r| == |entries|
    ensures forall i :: 0 <= i < |entries| ==>
      r[i] == HabitEntry(entries[i].id, entries[i].habitId, entries[i].completed, entries[i].date.time)
  {
    seq(|entries|, i reads Dates(entries) requires 0 <= i < |entries| =>
      HabitEntry(entries[i].id, entries[i].habitId, entries[i].completed, entries[i].date.time))
  }

  /** The dates the first `n` comparisons moved to midnight. */
  function Touched(entries: seq<EntryObject>, tile: JsDate, n: nat): set<JsDate>
    requires n <= |entries|
  {
    (set k | 0 <= k < n :: entries[k].date) + (if n > 0 then {tile} else {})
  }

  /** `tileContent({ date })`: compares the entries in order with the tile's date until one
      falls on the same day. The mark is that of the day for the entries as they were; each
      compared entry date and the tile date are left at midnight, and every other date is
      unchanged. `calls` is the number of comparisons made. */
  method TileContent(entries: seq<EntryObject>, tile: JsDate) returns (mark: Mark, calls: nat)
    modifies Dates(entries), tile
    ensures mark == MarkFor(old(Values(entries)), old(tile.time))
    ensures calls <= |entries|
    ensures mark == NoMark ==> calls == |entries|
    ensures mark != NoMark ==> calls > 0 && SameDay(old(entries[calls - 1].date.time), old(tile.time))
    ensures forall o :: o in Dates(entries) || o == tile ==>
      o.time == if o in Touched(entries, tile, calls) then StartOfDay(old(o.time)) else old(o.time)
  {
    ghost var before := Values(entries);
    var i := 0;
    while i < |entries|
      invariant 0 <= i <= |entries|
      invariant forall o :: o in Dates(entries) || o == tile ==>
        o.time == if o in Touched(entries, tile, i) then StartOfDay(old(o.time)) else old(o.time)
      invariant forall k :: 0 <= k < i ==> !SameDay(before[k].date, old(tile.time))
    {
      var d := entries[i].date;
      StartOfDayIdempotent(old(d.time));
      StartOfDayIdempotent(old(tile.time));
      ghost var dBefore := d.time;
      ghost var tileBefore := tile.time;
      assert DayNumber(dBefore) == DayNumber(old(d.time)) && DayNumber(tileBefore) == DayNumber(old(tile.time));
      var same := DateHelpers.DatesAreEqual(d, tile);
      assert Touched(entries, tile, i + 1) == Touched(entries, tile, i) + {d, tile};
      if same {
        assert FindIndex(before, (e: HabitEntry) => SameDay(e.date, old(tile.time))) == Some(i) by {
          FirstMatch(before, old(tile.time), i);
        }
        mark := if entries[i].completed then Check else Cross;
        calls := i + 1;
        return;
      }
      i := i + 1;
    }
    NoMatch(before, old(tile.time));
    mark := NoMark;
    calls := |entries|;
  }

  lemma FirstMatch(entries: seq<HabitEntry>, day: Instant, i: nat)
    requires i < |entries| && SameDay(entries[i].date, day)
    requires forall k :: 0 <= k < i ==> !SameDay(entries[k].date, day)
    ensures FindIndex(entries, (e: HabitEntry) => SameDay(e.date, day)) == Some(i)
  {
    var r := FindIndex(entries, (e: HabitEntry) => SameDay(e.date, day));
    assert r.Some?;
  }

  lemma NoMatch(entries: seq<HabitEntry>, day: Instant)
    requires forall k :: 0 <= k < |entries| ==> !SameDay(entries[k].date, day)
    ensures FindIndex(entries, (e: HabitEntry) => SameDay(e.date, day)) == None
  {
  }

  /** Every tile of the calendar is disabled: it only displays entries. */
  function TileDisabled(day: Instant): bool
  {
    true
  }
}
