/** The "Track habits" dialog (src/forms/HabitTrackerFormDialog.tsx): one checkbox entry
    per habit, updated through the form library, and a submit gated by the track schema. */
module HabitTrackerFormDialog {
  import opened Wrappers
  import opened Models
  import opened Schemas

  /** A checkbox's `CheckedState`: checked, unchecked or "indeterminate". */
  datatype CheckedState = Checked | Unchecked | Indeterminate

  /** `!!checked`: the "indeterminate" string is truthy, so only `false` gives false. */
  function Coerce(checked: CheckedState): (r: bool)
    ensures r <==> checked != Unchecked
  {
    match checked
    case Checked => true
    case Unchecked => false
    case Indeterminate => true
  }

  /** `defaultValues.entries`: one entry per habit, in order, with its id, not completed. */
  function DefaultEntries(habits: seq<Habit>): (r: seq<TrackedEntry>)
    ensures |r| == |habits|
    ensures forall i :: 0 <= i < |habits| ==> r[i].habitId == habits[i].id && !r[i].completed
  {
    seq(|habits|, i requires 0 <= i < |habits| => TrackedEntry(habits[i].id, false))
  }

  /** The checkbox handler of entry `index`: that entry's `completed` becomes the coerced
      state and keeps its habit id; every other entry is unchanged. */
  function OnCheckedChange(entries: seq<TrackedEntry>, index: nat, checked: CheckedState): (r: seq<TrackedEntry>)
    requires index < |entries|
    ensures |r| == |entries|
    ensures r[index].habitId == entries[index].habitId && r[index].completed == Coerce(checked)
    ensures forall i :: 0 <= i < |entries| && i != index ==> r[i] == entries[i]
  {
    entries[index := entries[index].(completed := Coerce(checked))]
  }

  /** The form values as the schema receives them: every field present and well typed. */
  function AsInput(entries: seq<TrackedEntry>): (r: seq<TrackEntryInput>)
    ensures |r| == |entries|
    ensures forall i :: 0 <= i < |entries| ==> r[i] == TrackEntryInput(Some(entries[i].habitId), Some(entries[i].completed))
  {
    seq(|entries|, i requires 0 <= i < |entries| => TrackEntryInput(Some(entries[i].habitId), Some(entries[i].completed)))
  }

  /** What a successful submit does, in order. */
  datatype TrackEffect = TrackHabits(data: seq<TrackedEntry>) | CloseDialog

  /** `form.handleSubmit(onSubmit)`: values the schema accepts are passed to `trackHabits`
      and then the dialog closes; otherwise the schema's issues are shown and nothing is
      called. */
  function Submit(entries: seq<TrackedEntry>): (r: Result<seq<TrackEffect>, seq<TrackIssue>>)
    ensures r.Ok? <==> forall i :: 0 <= i < |entries| ==> entries[i].habitId >= 1
    ensures r.Ok? ==> r.value == [TrackHabits(entries), CloseDialog]
    ensures r.Err? ==> |r.error| > 0 && forall k :: 0 <= k < |r.error| ==> r.error[k].index < |entries| && entries[r.error[k].index].habitId < 1
  {
    var input := AsInput(entries);
    match SafeParseTrackForm(input)
    case Ok(data) =>
      assert data == entries;
      Ok([TrackHabits(data), CloseDialog])
    case Err(issues) =>
      assert forall k :: 0 <= k < |issues| ==> !ValidTrackEntry(input[issues[k].index]);
      Err(issues)
  }

  /** Checkbox changes keep every habit id, so they never change whether the form submits. */
  lemma OnCheckedChangeKeepsValidity(entries: seq<TrackedEntry>, index: nat, checked: CheckedState)
    requires index < |entries|
    ensures Submit(OnCheckedChange(entries, index, checked)).Ok? <==> Submit(entries).Ok?
  {
    var r := OnCheckedChange(entries, index, checked);
    assert forall i :: 0 <= i < |entries| ==> r[i].habitId == entries[i].habitId;
  }

  /** For habits with positive ids (as the back end assigns them), submitting the default
      entries tracks every habit as not completed, in habit order, and closes. */
  lemma DefaultEntriesSubmit(habits: seq<Habit>)
    requires forall i :: 0 <= i < |habits| ==> habits[i].id >= 1
    ensures Submit(DefaultEntries(habits)) == Ok([TrackHabits(DefaultEntries(habits)), CloseDialog])
    ensures forall i :: 0 <= i < |habits| ==> DefaultEntries(habits)[i] == TrackedEntry(habits[i].id, false)
  {
  }
}
