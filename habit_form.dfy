/** The habit form component (src/forms/HabitForm.tsx): a state record of the three inputs,
    replaced one field at a time, and a `validate` that parses it with the habit schema and
    then updates, creates or does neither before closing. The form has no event input, so
    its `eventId` is always absent. */
module HabitFormComponent {
  import opened Wrappers
  import opened Models
  import opened Schemas

  /** `habit ?? {}`: the habit's type, title and question, or nothing. The habit's other
      keys (`id`, `eventIds`) are not fields of the schema, which drops them. */
  function InitialFormData(habit: Option<Habit>): (r: HabitFormInput)
    ensures r.eventId == Absent
    ensures habit.None? ==> r == HabitFormInput(Absent, Absent, Absent, Absent)
    ensures habit.Some? ==>
      r.habitType == Text(HabitTypeName(habit.value.habitType)) &&
      r.title == Text(habit.value.title) && r.question == Text(habit.value.question)
  {
    match habit
    case None => HabitFormInput(Absent, Absent, Absent, Absent)
    case Some(h) => HabitFormInput(Text(HabitTypeName(h.habitType)), Absent, Text(h.title), Text(h.question))
  }

  /** What `validate` does, in order. The parsed data is passed on as the schema returns
      it, without `eventIds`. */
  datatype FormEffect = LogError | UpdateHabit(id: int, data: HabitFormDataInput) | CreateHabit(data: HabitFormDataInput) | Close

  /** `validate`: an invalid form logs and stops; a valid one calls `updateHabit` with the
      habit's id when both a habit and `updateHabit` are given, otherwise `createHabit` when
      it is given, and closes in every case. */
  function ValidateEffects(habit: Option<Habit>, hasCreate: bool, hasUpdate: bool, formData: HabitFormInput): (r: seq<FormEffect>)
    ensures SafeParseHabitForm(formData).Err? <==> r == [LogError]
    ensures SafeParseHabitForm(formData).Ok? ==> |r| > 0 && r[|r| - 1] == Close
    ensures (exists id, d :: UpdateHabit(id, d) in r) <==> SafeParseHabitForm(formData).Ok? && habit.Some? && hasUpdate
    ensures (exists d :: CreateHabit(d) in r) <==> SafeParseHabitForm(formData).Ok? && !(habit.Some? && hasUpdate) && hasCreate
  {
    match SafeParseHabitForm(formData)
    case Err(_) => [LogError]
    case Ok(data) =>
      if habit.Some? && hasUpdate then [UpdateHabit(habit.value.id, data), Close]
      else if hasCreate then [CreateHabit(data), Close]
      else [Close]
  }

  /** A calendar habit can never be submitted from this form: the form has no event input,
      and the schema requires an event id for a calendar habit. */
  lemma CalendarHabitRejected(habit: Option<Habit>, hasCreate: bool, hasUpdate: bool, formData: HabitFormInput)
    requires formData.eventId == Absent && formData.habitType == Text("AppleCalendar")
    ensures ValidateEffects(habit, hasCreate, hasUpdate, formData) == [LogError]
  {
    SafeParseHabitFormSpec(formData);
  }

  /** Reopening a daily habit whose title and question are in bounds and submitting it
      unchanged updates it with its own fields. */
  lemma UnchangedDailyHabitUpdates(habit: Habit)
    requires habit.habitType == Daily && LengthInBounds(habit.title) && LengthInBounds(habit.question)
    ensures ValidateEffects(Some(habit), false, true, InitialFormData(Some(habit))) ==
      [UpdateHabit(habit.id, HabitFormDataInput(Daily, None, habit.title, habit.question)), Close]
  {
    SafeParseHabitFormSpec(InitialFormData(Some(habit)));
  }

  class HabitForm {
    var formData: HabitFormInput
    const habit: Option<Habit>
    /** Whether the `createHabit` and `updateHabit` callbacks were given. */
    const hasCreate: bool
    const hasUpdate: bool

    /** There is no event input, so no handler ever sets `eventId`. */
    predicate Valid()
      reads this
    {
      formData.eventId == Absent
    }

    constructor (habit: Option<Habit>, hasCreate: bool, hasUpdate: bool)
      ensures Valid() && formData == InitialFormData(habit)
      ensures this.habit == habit && this.hasCreate == hasCreate && this.hasUpdate == hasUpdate
    {
      formData := InitialFormData(habit);
      this.habit := habit;
      this.hasCreate := hasCreate;
      this.hasUpdate := hasUpdate;
    }

    /** The radio group: only the type changes. */
    method SetHabitType(t: HabitType)
      requires Valid()
      modifies this
      ensures Valid()
      ensures formData == old(formData).(habitType := Text(HabitTypeName(t)))
    {
      formData := formData.(habitType := Text(HabitTypeName(t)));
    }

    /** The title input: only the title changes. */
    method SetTitle(title: string)
      requires Valid()
      modifies this
      ensures Valid()
      ensures formData == old(formData).(title := Text(title))
    {
      formData := formData.(title := Text(title));
    }

    /** The question input: only the question changes. */
    method SetQuestion(question: string)
      requires Valid()
      modifies this
      ensures Valid()
      ensures formData == old(formData).(question := Text(question))
    {
      formData := formData.(question := Text(question));
    }

    method Validate() returns (effects: seq<FormEffect>)
      requires Valid()
      ensures effects == ValidateEffects(habit, hasCreate, hasUpdate, formData)
      ensures formData.habitType == Text("AppleCalendar") ==> effects == [LogError]
    {
      var result := SafeParseHabitForm(formData);
      if result.Err? {
        effects := [LogError];
      } else if habit.Some? && hasUpdate {
        effects := [UpdateHabit(habit.value.id, result.value), Close];
      } else if hasCreate {
        effects := [CreateHabit(result.value), Close];
      } else {
        effects := [Close];
      }
      if formData.habitType == Text("AppleCalendar") {
        CalendarHabitRejected(habit, hasCreate, hasUpdate, formData);
      }
    }
  }

  /** Creating a daily habit: pick the type, type a title and a question, submit. */
  method CreateDailyHabit(title: string, question: string) returns (effects: seq<FormEffect>)
    requires LengthInBounds(title) && LengthInBounds(question)
    ensures effects == [CreateHabit(HabitFormDataInput(Daily, None, title, question)), Close]
  {
    var form := new HabitForm(None, true, true);
    form.SetHabitType(Daily);
    form.SetTitle(title);
    form.SetQuestion(question);
    SafeParseHabitFormSpec(form.formData);
    effects := form.Validate();
  }
}
