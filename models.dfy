/** The front end's record types (`@/models`): a habit, a tracked entry, a calendar event
    whose recurrence rule is reduced to the `until` bound the app reads. */
module Models {
  import opened Wrappers
  import opened LocalTime

  /** The two kinds of habit. The Rust enum has the same two variants and serde names them
      `"Daily"` and `"AppleCalendar"`, which are also the front end's string literals. */
  datatype HabitType = Daily | AppleCalendar

  datatype Habit = Habit(id: int, habitType: HabitType, eventIds: seq<string>, title: string, question: string)

  datatype HabitEntry = HabitEntry(id: int, habitId: int, completed: bool, date: Instant)

  /** A calendar event; `until` is `rule.options.until` (None for `null`: the rule never ends). */
  datatype AppleCalendarEvent = AppleCalendarEvent(id: string, name: string, start: Instant, until: Option<Instant>)

  /** `entries.map((entry) => entry.date)`. */
  function EntryDates(entries: seq<HabitEntry>): (r: seq<Instant>)
    ensures |r| == |entries| && forall i :: 0 <= i < |entries| ==> r[i] == entries[i].date
  {
    seq(|entries|, i requires 0 <= i < |entries| => entries[i].date)
  }

  /** The string literal of a habit type on the front end. */
  function HabitTypeName(t: HabitType): string
  {
    match t
    case Daily => "Daily"
    case AppleCalendar => "AppleCalendar"
  }
}
