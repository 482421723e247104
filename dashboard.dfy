/** The dashboard (src/Dashboard.tsx): which calendar events are active, the context of the
    selected habit (its entries, its first tracked day, its events), the missing-event
    warning, the monthly entry filter and interval bound, and the two pieces of view state.
    The recurrence-rule set is not modelled; the interval it yields is an input. */
module Dashboard {
  import opened Wrappers
  import opened LocalTime
  import opened Seqs
  import opened Models
  import HabitFormDialog

  /** An event is active when its rule never ends or ends after now. */
  predicate IsActive(event: AppleCalendarEvent, now: Instant)
  {
    event.until.None? || event.until.value > now
  }

  /** `activeCalendarEvents`. */
  function ActiveCalendarEvents(events: seq<AppleCalendarEvent>, now: Instant): seq<AppleCalendarEvent>
  {
    Filter(events, (e: AppleCalendarEvent) => IsActive(e, now))
  }

  /** The active events are exactly the events whose rule has no end or ends after now,
      each as often as it occurs, in their original order. */
  lemma ActiveCalendarEventsSpec(events: seq<AppleCalendarEvent>, now: Instant)
    ensures forall e :: e in ActiveCalendarEvents(events, now) <==>
      e in events && (e.until.None? || e.until.value > now)
    ensures forall e ::
      multiset(ActiveCalendarEvents(events, now))[e] == if e.until.None? || e.until.value > now then multiset(events)[e] else 0
    ensures IsSubsequence(ActiveCalendarEvents(events, now), events)
  {
    FilterSpec(events, (e: AppleCalendarEvent) => IsActive(e, now));
  }

  /** `HabitContext` without its rule set; `habit` is `undefined` when there is no habit. */
  datatype HabitContext = HabitContext(habit: Option<Habit>, habitEntries: seq<HabitEntry>, firstTrackedDay: Instant, habitEvents: seq<AppleCalendarEvent>)

  /** Reading a field of `undefined`. */
  datatype TypeError = TypeError

  /** `firstTrackedDay`: midnight of the earliest entry, or of today without entries. */
  function FirstTrackedDay(entries: seq<HabitEntry>, now: Instant): (r: Instant)
    ensures entries == [] ==> r == StartOfDay(now)
    ensures entries != [] ==>
      (exists i :: 0 <= i < |entries| && r == StartOfDay(entries[i].date)) &&
      forall i :: 0 <= i < |entries| ==> r <= entries[i].date
  {
    if entries == [] then StartOfDay(now)
    else
      var t := Earliest(EntryDates(entries));
      assert exists i :: 0 <= i < |entries| && t == entries[i].date by {
        var i :| 0 <= i < |EntryDates(entries)| && EntryDates(entries)[i] == t;
      }
      StartOfDay(t)
  }

  /** `habitEntries.filter(entry => entry.habitId === habit.id)`. */
  function HabitEntriesOf(entries: seq<HabitEntry>, habitId: int): seq<HabitEntry>
  {
    Filter(entries, (e: HabitEntry) => e.habitId == habitId)
  }

  /** `calendarEvents.filter(event => habit.eventIds.includes(event.id))`. */
  function HabitEventsOf(events: seq<AppleCalendarEvent>, eventIds: seq<string>): seq<AppleCalendarEvent>
  {
    Filter(events, (e: AppleCalendarEvent) => e.id in eventIds)
  }

  /** `getHabitContext`. It is first called with `habits[0]`, which is `undefined` for an
      empty store: the filters then read `habit.id` or `habit.eventIds` as soon as there is
      an entry or an event to test, which throws. */
  function GetHabitContext(habit: Option<Habit>, entries: seq<HabitEntry>, events: seq<AppleCalendarEvent>, now: Instant): (r: Result<HabitContext, TypeError>)
    ensures r.Err? <==> habit.None? && (entries != [] || events != [])
    ensures r.Ok? && habit.None? ==> r.value == HabitContext(None, [], StartOfDay(now), [])
    ensures r.Ok? ==> r.value.habit == habit
  {
    match habit
    case None =>
      if entries != [] || events != [] then Err(TypeError)
      else Ok(HabitContext(None, [], StartOfDay(now), []))
    case Some(h) =>
      var mine := HabitEntriesOf(entries, h.id);
      Ok(HabitContext(habit, mine, FirstTrackedDay(mine, now), HabitEventsOf(events, h.eventIds)))
  }

  /** The context of a habit holds exactly its entries and exactly its events, each as
      often as in the store and in the store's order, and its first tracked day is the midnight of its earliest entry
      (today's without entries). */
  lemma GetHabitContextSpec(h: Habit, entries: seq<HabitEntry>, events: seq<AppleCalendarEvent>, now: Instant)
    ensures GetHabitContext(Some(h), entries, events, now).Ok?
    ensures var c := GetHabitContext(Some(h), entries, events, now).value;
      (forall e :: e in c.habitEntries <==> e in entries && e.habitId == h.id) &&
      (forall e :: multiset(c.habitEntries)[e] == if e.habitId == h.id then multiset(entries)[e] else 0) &&
      IsSubsequence(c.habitEntries, entries) &&
      (forall ev :: ev in c.habitEvents <==> ev in events && ev.id in h.eventIds) &&
      (forall ev :: multiset(c.habitEvents)[ev] == if ev.id in h.eventIds then multiset(events)[ev] else 0) &&
      IsSubsequence(c.habitEvents, events) &&
      c.firstTrackedDay == FirstTrackedDay(c.habitEntries, now)
  {
    FilterSpec(entries, (e: HabitEntry) => e.habitId == h.id);
    FilterSpec(events, (e: AppleCalendarEvent) => e.id in h.eventIds);
  }

  /** The warning icon next to a habit: a calendar habit none of whose event ids is an
      active event. */
  predicate ShowWarningIcon(habit: Habit, active: seq<AppleCalendarEvent>)
  {
    habit.habitType == AppleCalendar && Find(active, (e: AppleCalendarEvent) => e.id in habit.eventIds).None?
  }

  /** The icon shows exactly for a calendar habit with no active event, which is exactly
      when the edit dialog would preselect no event. */
  lemma ShowWarningIconSpec(habit: Habit, active: seq<AppleCalendarEvent>)
    ensures ShowWarningIcon(habit, active) <==>
      habit.habitType == AppleCalendar && forall i :: 0 <= i < |active| ==> active[i].id !in habit.eventIds
    ensures ShowWarningIcon(habit, active) <==>
      habit.habitType == AppleCalendar && HabitFormDialog.DefaultEventId(habit, active).None?
  {
    assert forall i :: 0 <= i < |active| ==> active[i] in active;
  }

  /** The monthly summary's entries: the context's entries in the viewed month. */
  function MonthlyEntries(entries: seq<HabitEntry>, activeStartDate: Instant): seq<HabitEntry>
  {
    Filter(entries, (e: HabitEntry) => SameMonth(e.date, activeStartDate))
  }

  /** The monthly entries are exactly the entries of the viewed month, each as often as it
      occurs, in their original order. */
  lemma MonthlyEntriesSpec(entries: seq<HabitEntry>, activeStartDate: Instant)
    ensures forall e :: e in MonthlyEntries(entries, activeStartDate) <==> e in entries && SameMonth(e.date, activeStartDate)
    ensures forall e ::
      multiset(MonthlyEntries(entries, activeStartDate))[e] == if SameMonth(e.date, activeStartDate) then multiset(entries)[e] else 0
    ensures IsSubsequence(MonthlyEntries(entries, activeStartDate), entries)
  {
    FilterSpec(entries, (e: HabitEntry) => SameMonth(e.date, activeStartDate));
  }

  /** The monthly interval's end: `min([endOfMonth(activeStartDate), endOfDay(now)])`. */
  function MonthlyUpperBound(activeStartDate: Instant, now: Instant): (r: Instant)
    ensures r <= EndOfMonth(activeStartDate) && r <= EndOfDay(now)
    ensures r == EndOfMonth(activeStartDate) || r == EndOfDay(now)
  {
    Earliest([EndOfMonth(activeStartDate), EndOfDay(now)])
  }

  /** The "Track habits" dialog is offered when a habit is selected and nothing was
      tracked today. */
  predicate ShowTrackHabitsDialog(context: HabitContext, isTrackedToday: bool)
  {
    context.habit.Some? && !isTrackedToday
  }

  /** For a context computed for a habit, or for none (the first render of an empty store),
      the dialog is offered exactly when there is a habit and nothing was tracked today. */
  lemma ShowTrackHabitsDialogSpec(habit: Option<Habit>, entries: seq<HabitEntry>, events: seq<AppleCalendarEvent>, now: Instant, isTrackedToday: bool)
    ensures GetHabitContext(habit, entries, events, now).Ok? ==>
      (ShowTrackHabitsDialog(GetHabitContext(habit, entries, events, now).value, isTrackedToday) <==> habit.Some? && !isTrackedToday)
  {
  }

  /** The dashboard's view state: the selected habit's context and the viewed month. */
  class DashboardState {
    var currentContext: HabitContext
    var activeStartDate: Instant

    /** The first render: the context of the store's first habit (none for an empty store,
        which only succeeds while there are no entries and no events), and the current month. */
    constructor (habits: seq<Habit>, entries: seq<HabitEntry>, events: seq<AppleCalendarEvent>, now: Instant)
      requires GetHabitContext(if habits == [] then None else Some(habits[0]), entries, events, now).Ok?
      ensures currentContext == GetHabitContext(if habits == [] then None else Some(habits[0]), entries, events, now).value
      ensures activeStartDate == now
    {
      currentContext := GetHabitContext(if habits == [] then None else Some(habits[0]), entries, events, now).value;
      activeStartDate := now;
    }

    /** Clicking a habit in the list selects its context; the viewed month is kept. */
    method SelectHabit(habit: Habit, entries: seq<HabitEntry>, events: seq<AppleCalendarEvent>, now: Instant)
      modifies this
      ensures currentContext == GetHabitContext(Some(habit), entries, events, now).value
      ensures currentContext.habit == Some(habit)
      ensures activeStartDate == old(activeStartDate)
    {
      currentContext := GetHabitContext(Some(habit), entries, events, now).value;
    }

    /** The calendar's month change (`setActiveStartDate`); the context is kept. */
    method OnMonthChange(date: Instant)
      modifies this
      ensures activeStartDate == date && currentContext == old(currentContext)
    {
      activeStartDate := date;
    }
  }
}
