/** The habit form dialog (src/forms/HabitFormDialog.tsx): how the submitted event ids are
    reconciled with the active calendar events, which event is selected by default, the
    default values, the "Daily clears the event" rule and the create/update dispatch. */
module HabitFormDialog {
  import opened Wrappers
  import opened Seqs
  import opened Models
  import opened Schemas

  /** Whether some active event has this id (`activeCalendarEvents.find(e => e.id === id)`). */
  predicate IsActiveEventId(active: seq<AppleCalendarEvent>, id: string)
  {
    Find(active, (e: AppleCalendarEvent) => e.id == id).Some?
  }

  lemma IsActiveEventIdSpec(active: seq<AppleCalendarEvent>, id: string)
    ensures IsActiveEventId(active, id) <==> exists i :: 0 <= i < |active| && active[i].id == id
  {
    if exists i :: 0 <= i < |active| && active[i].id == id {
      var i :| 0 <= i < |active| && active[i].id == id;
      assert active[i] in active;
    }
  }

  /** `removeActiveEvents`: the ids that belong to no active event. */
  function RemoveActiveEvents(eventIds: seq<string>, active: seq<AppleCalendarEvent>): seq<string>
  {
    Filter(eventIds, (id: string) => !IsActiveEventId(active, id))
  }

  /** `removeActiveEvents` keeps exactly the ids of no active event, each as often as it
      occurs, in their original order. */
  lemma RemoveActiveEventsSpec(eventIds: seq<string>, active: seq<AppleCalendarEvent>)
    ensures forall id :: id in RemoveActiveEvents(eventIds, active) <==>
      id in eventIds && forall i :: 0 <= i < |active| ==> active[i].id != id
    ensures forall id ::
      multiset(RemoveActiveEvents(eventIds, active))[id] == if IsActiveEventId(active, id) then 0 else multiset(eventIds)[id]
    ensures IsSubsequence(RemoveActiveEvents(eventIds, active), eventIds)
  {
    FilterSpec(eventIds, (id: string) => !IsActiveEventId(active, id));
    forall id | true
      ensures IsActiveEventId(active, id) <==> exists i :: 0 <= i < |active| && active[i].id == id
    {
      IsActiveEventIdSpec(active, id);
    }
  }

  /** The new `eventId` as submitted: a non-empty string is truthy. */
  function ChosenEventIds(eventId: Option<string>): seq<string>
  {
    if eventId.Some? && eventId.value != "" then [eventId.value] else []
  }

  /** The `eventIds` of `onSubmit`: the edited habit's ids that are not active events,
      then the chosen event id if one is set. */
  function SubmittedEventIds(habit: Option<Habit>, active: seq<AppleCalendarEvent>, eventId: Option<string>): (r: seq<string>)
    ensures habit.None? ==> r == ChosenEventIds(eventId)
    ensures habit.Some? ==> r == RemoveActiveEvents(habit.value.eventIds, active) + ChosenEventIds(eventId)
  {
    RemoveActiveEvents(if habit.Some? then habit.value.eventIds else [], active) + ChosenEventIds(eventId)
  }

  /** An update submit lists the edited habit's ids of no active event, each as often and
      in the order they occur there, and then the chosen id when one is set; no other id
      appears. */
  lemma SubmittedEventIdsSpec(habit: Habit, active: seq<AppleCalendarEvent>, eventId: Option<string>)
    ensures var r := SubmittedEventIds(Some(habit), active, eventId);
      var n := |r| - |ChosenEventIds(eventId)|;
      0 <= n && r[n..] == ChosenEventIds(eventId) &&
      IsSubsequence(r[..n], habit.eventIds) &&
      forall id :: multiset(r[..n])[id] == if IsActiveEventId(active, id) then 0 else multiset(habit.eventIds)[id]
    ensures forall id :: id in SubmittedEventIds(Some(habit), active, eventId) <==>
      (id in habit.eventIds && !IsActiveEventId(active, id)) || (eventId.Some? && eventId.value != "" && id == eventId.value)
  {
    var kept := RemoveActiveEvents(habit.eventIds, active);
    var r := SubmittedEventIds(Some(habit), active, eventId);
    RemoveActiveEventsSpec(habit.eventIds, active);
    FilterSpec(habit.eventIds, (id: string) => !IsActiveEventId(active, id));
    assert r[..|kept|] == kept && r[|kept|..] == ChosenEventIds(eventId);
  }

  /** `activeCalendarEvents.find(e => habit.eventIds.includes(e.id))?.id`. */
  function DefaultEventId(habit: Habit, active: seq<AppleCalendarEvent>): (r: Option<string>)
    ensures r.None? <==> forall i :: 0 <= i < |active| ==> active[i].id !in habit.eventIds
    ensures r.Some? ==>
      exists i :: 0 <= i < |active| && active[i].id == r.value && r.value in habit.eventIds &&
        forall j :: 0 <= j < i ==> active[j].id !in habit.eventIds
  {
    var found := Find(active, (e: AppleCalendarEvent) => e.id in habit.eventIds);
    if found.None? then None
    else
      assert forall i :: 0 <= i < |active| ==> active[i] in active;
      Some(found.value.id)
  }

  /** The form's values; `None` is an unset field. */
  datatype FormValues = FormValues(habitType: Option<HabitType>, eventId: Option<string>, title: Option<string>, question: Option<string>)

  /** `defaultValues`: an edited habit's fields and default event; for a new habit only the
      type, `Daily` when the calendar feature is off and unset when it is on. */
  function DefaultValues(habit: Option<Habit>, calendarEventsFeatureEnabled: bool, active: seq<AppleCalendarEvent>): (r: FormValues)
    ensures habit.Some? ==>
      r.title == Some(habit.value.title) && r.question == Some(habit.value.question) &&
      r.habitType == Some(habit.value.habitType) && r.eventId == DefaultEventId(habit.value, active)
    ensures habit.None? ==>
      r.eventId.None? && r.title.None? && r.question.None? &&
      (r.habitType == Some(Daily) <==> !calendarEventsFeatureEnabled) &&
      (r.habitType.None? <==> calendarEventsFeatureEnabled)
  {
    if habit.Some? then
      FormValues(Some(habit.value.habitType), DefaultEventId(habit.value, active), Some(habit.value.title), Some(habit.value.question))
    else
      FormValues(if calendarEventsFeatureEnabled then None else Some(Daily), None, None, None)
  }

  /** The type radio group's `onValueChange`: choosing `Daily` also clears the event id;
      the other fields are kept. */
  function OnHabitTypeChange(values: FormValues, chosen: HabitType): (r: FormValues)
    ensures r.habitType == Some(chosen)
    ensures chosen == Daily ==> r.eventId.None?
    ensures chosen != Daily ==> r.eventId == values.eventId
    ensures r.title == values.title && r.question == values.question
  {
    var cleared := if chosen == Daily then values.(eventId := None) else values;
    cleared.(habitType := Some(chosen))
  }

  /** What a submit does, in order. */
  datatype DialogEffect = SubmitCreate(data: HabitFormData) | SubmitUpdate(update: UpdateHabitFormData) | ResetForm | CloseDialog

  /** The form data `onSubmit` builds from the validated input. */
  function SubmittedData(habit: Option<Habit>, active: seq<AppleCalendarEvent>, input: HabitFormDataInput): HabitFormData
  {
    HabitFormData(input.habitType, input.title, input.question, SubmittedEventIds(habit, active, input.eventId))
  }

  /** `onSubmit`: an edit submits the data with the habit's id; a creation submits the data
      and resets the form; the dialog closes after either. */
  function OnSubmit(habit: Option<Habit>, active: seq<AppleCalendarEvent>, input: HabitFormDataInput): (r: seq<DialogEffect>)
    ensures habit.Some? ==> r == [SubmitUpdate(UpdateHabitFormData(habit.value.id, SubmittedData(habit, active, input))), CloseDialog]
    ensures habit.None? ==> r == [SubmitCreate(SubmittedData(habit, active, input)), ResetForm, CloseDialog]
    ensures |r| > 0 && r[|r| - 1] == CloseDialog
  {
    var data := SubmittedData(habit, active, input);
    if habit.Some? then [SubmitUpdate(UpdateHabitFormData(habit.value.id, data)), CloseDialog]
    else [SubmitCreate(data), ResetForm, CloseDialog]
  }

  /** The habit as stored after an update submit. */
  function UpdatedHabit(habit: Habit, data: HabitFormData): Habit
  {
    Habit(habit.id, data.habitType, data.eventIds, data.title, data.question)
  }

  /** Reopening the dialog on the updated habit selects the event just chosen (a non-empty
      id of an active event, the only ones the select offers). */
  lemma SubmitThenReopenSelectsChosen(habit: Habit, active: seq<AppleCalendarEvent>, input: HabitFormDataInput)
    requires input.eventId.Some? && input.eventId.value != "" && IsActiveEventId(active, input.eventId.value)
    ensures DefaultEventId(UpdatedHabit(habit, SubmittedData(Some(habit), active, input)), active) == input.eventId
  {
    var chosen := input.eventId.value;
    var kept := RemoveActiveEvents(habit.eventIds, active);
    var h := UpdatedHabit(habit, SubmittedData(Some(habit), active, input));
    IsActiveEventIdSpec(active, chosen);
    assert h.eventIds == kept + [chosen];
    assert chosen in h.eventIds;
    var r := DefaultEventId(h, active);
    assert r.Some?;
    var i :| 0 <= i < |active| && active[i].id == r.value && r.value in h.eventIds;
    IsActiveEventIdSpec(active, r.value);
    assert r.value !in kept;
  }

  /** An update submit keeps every id of the edited habit that is not an active event. */
  lemma SubmitKeepsInactiveIds(habit: Habit, active: seq<AppleCalendarEvent>, input: HabitFormDataInput)
    ensures forall id :: id in habit.eventIds && !IsActiveEventId(active, id) ==>
      id in UpdatedHabit(habit, SubmittedData(Some(habit), active, input)).eventIds
  {
    FilterSpec(habit.eventIds, (id: string) => !IsActiveEventId(active, id));
  }

  /** Submitting an edit with no event chosen leaves the habit with no active event, so
      reopening the dialog selects none. */
  lemma SubmitWithoutEventSelectsNone(habit: Habit, active: seq<AppleCalendarEvent>, input: HabitFormDataInput)
    requires input.eventId.None? || input.eventId == Some("")
    ensures DefaultEventId(UpdatedHabit(habit, SubmittedData(Some(habit), active, input)), active).None?
  {
    var h := UpdatedHabit(habit, SubmittedData(Some(habit), active, input));
    RemoveActiveEventsSpec(habit.eventIds, active);
    assert h.eventIds == RemoveActiveEvents(habit.eventIds, active);
  }
}
