/** The habit page (src/pages/HabitForm.tsx): the habit is looked up in the store by the
    navigation params' habit id; the form state starts from it and is replaced one field at
    a time; a valid submit updates the found habit or creates a new one through the store,
    then returns to the dashboard. */
module HabitFormPage {
  import opened Wrappers
  import opened Seqs
  import opened Models
  import opened Schemas
  import Navigation
  import HabitFormComponent

  /** `habits.find((h) => h.id === params?.habitId)`: the first store habit with that id;
      none when the params carry no id. */
  function FindHabit(habits: seq<Habit>, habitId: Option<int>): (r: Option<Habit>)
    ensures r.None? <==> habitId.None? || forall h :: h in habits ==> h.id != habitId.value
    ensures r.Some? ==> r.value in habits && r.value.id == habitId.value
    ensures r.Some? ==> exists i :: 0 <= i < |habits| && habits[i] == r.value && forall j :: 0 <= j < i ==> habits[j].id != habitId.value
  {
    Find(habits, (h: Habit) => habitId.Some? && h.id == habitId.value)
  }

  /** What `validate` does, in order. */
  datatype PageEffect = LogError | UpdateHabit(id: int, data: HabitFormDataInput) | CreateHabit(data: HabitFormDataInput) | Navigate(page: Navigation.Page)

  /** `validate`: an invalid form logs and stops; a valid one updates the found habit (by
      its id) or else creates one, and then navigates to the dashboard. */
  function ValidateEffects(habit: Option<Habit>, formData: HabitFormInput): (r: seq<PageEffect>)
    ensures SafeParseHabitForm(formData).Err? <==> r == [LogError]
    ensures SafeParseHabitForm(formData).Ok? ==>
      |r| == 2 && r[1] == Navigate(Navigation.Dashboard) &&
      (habit.Some? ==> r[0] == UpdateHabit(habit.value.id, SafeParseHabitForm(formData).value)) &&
      (habit.None? ==> r[0] == CreateHabit(SafeParseHabitForm(formData).value))
  {
    match SafeParseHabitForm(formData)
    case Err(_) => [LogError]
    case Ok(data) =>
      if habit.Some? then [UpdateHabit(habit.value.id, data), Navigate(Navigation.Dashboard)]
      else [CreateHabit(data), Navigate(Navigation.Dashboard)]
  }

  /** The page for a store habit's own id edits that habit, when ids are distinct. */
  lemma FindHabitById(habits: seq<Habit>, i: nat)
    requires i < |habits|
    requires forall j, k :: 0 <= j < k < |habits| ==> habits[j].id != habits[k].id
    ensures FindHabit(habits, Some(habits[i].id)) == Some(habits[i])
  {
    var r := FindHabit(habits, Some(habits[i].id));
    var k :| 0 <= k < |habits| && habits[k] == r.value && forall j :: 0 <= j < k ==> habits[j].id != habits[i].id;
    if k != i {
      assert habits[k].id == habits[i].id;
    }
  }

  class HabitFormPage {
    var formData: HabitFormInput
    const habit: Option<Habit>

    /** The page has no event input, so no handler ever sets `eventId`. */
    predicate Valid()
      reads this
    {
      formData.eventId == Absent
    }

    constructor (habits: seq<Habit>, params: Navigation.Params)
      ensures Valid()
      ensures habit == FindHabit(habits, Navigation.HabitIdParam(params))
      ensures formData == HabitFormComponent.InitialFormData(habit)
    {
      habit := FindHabit(habits, Navigation.HabitIdParam(params));
      formData := HabitFormComponent.InitialFormData(FindHabit(habits, Navigation.HabitIdParam(params)));
    }

    /** The two radio inputs: each sets only the type, to its own value. */
    method SetHabitType(t: HabitType)
      requires Valid()
      modifies this
      ensures Valid()
      ensures formData == old(formData).(habitType := Text(HabitTypeName(t)))
    {
      formData := formData.(habitType := Text(HabitTypeName(t)));
    }

    method SetTitle(title: string)
      requires Valid()
      modifies this
      ensures Valid()
      ensures formData == old(formData).(title := Text(title))
    {
      formData := formData.(title := Text(title));
    }

    method SetQuestion(question: string)
      requires Valid()
      modifies this
      ensures Valid()
      ensures formData == old(formData).(question := Text(question))
    {
      formData := formData.(question := Text(question));
    }

    method Validate() returns (effects: seq<PageEffect>)
      requires Valid()
      ensures effects == ValidateEffects(habit, formData)
      ensures formData.habitType == Text("AppleCalendar") ==> effects == [LogError]
    {
      var result := SafeParseHabitForm(formData);
      if result.Err? {
        effects := [LogError];
      } else if habit.Some? {
        effects := [UpdateHabit(habit.value.id, result.value), Navigate(Navigation.Dashboard)];
      } else {
        effects := [CreateHabit(result.value), Navigate(Navigation.Dashboard)];
      }
      if formData.habitType == Text("AppleCalendar") {
        SafeParseHabitFormSpec(formData);
      }
    }
  }

  /** Opening the page for a daily store habit (ids distinct) and changing its title
      updates that habit with the new title and returns to the dashboard. */
  method RenameDailyHabit(habits: seq<Habit>, i: nat, title: string) returns (effects: seq<PageEffect>)
    requires i < |habits| && habits[i].habitType == Daily
    requires forall j, k :: 0 <= j < k < |habits| ==> habits[j].id != habits[k].id
    requires LengthInBounds(title) && LengthInBounds(habits[i].question)
    ensures effects == [UpdateHabit(habits[i].id, HabitFormDataInput(Daily, None, title, habits[i].question)),
                        Navigate(Navigation.Dashboard)]
  {
    FindHabitById(habits, i);
    var page := new HabitFormPage(habits, Navigation.HabitFormParams(Some(habits[i].id)));
    page.SetTitle(title);
    SafeParseHabitFormSpec(page.formData);
    effects := page.Validate();
  }
}
