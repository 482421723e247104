/** The track form component (src/forms/HabitTrackerForm.tsx): a state array of entry
    objects, one per store habit, toggled in place, and a submit gated by a schema built from
    the number of habits. That schema (`getTrackHabitFormSchema`) is not part of this model:
    it is the `parse` parameter. */
module HabitTrackerFormComponent {
  import opened Wrappers
  import opened Models
  import opened Schemas
  import Dialog = HabitTrackerFormDialog

  /** One `{ habitId, completed }` object of the state array. */
  class EntryCell {
    var habitId: int
    var completed: bool

    constructor (habitId: int, completed: bool)
      ensures this.habitId == habitId && this.completed == completed
    {
      this.habitId := habitId;
      this.completed := completed;
    }
  }

  /** The values the objects hold now. */
  function CellValues(cells: seq<EntryCell>): (r: seq<TrackedEntry>)
    reads cells
    ensures |r| == |cells|
    ensures forall i :: 0 <= i < |cells| ==> r[i] == TrackedEntry(cells[i].habitId, cells[i].completed)
  {
    seq(|cells|, i requires 0 <= i < |cells| reads cells => TrackedEntry(cells[i].habitId, cells[i].completed))
  }

  /** No object appears twice in the array. */
  predicate DistinctCells(cells: seq<EntryCell>)
  {
    forall i, j :: 0 <= i < j < |cells| ==> cells[i] != cells[j]
  }

  /** What `validate` does, in order. */
  datatype FormEffect = LogError | TrackHabits(data: seq<TrackedEntry>) | Close

  /** The outcome of `validate` for a schema result: on failure the error is logged and
      nothing else happens; on success the data is tracked and then the form closes. */
  function ValidateEffects(result: Result<seq<TrackedEntry>, seq<TrackIssue>>): (r: seq<FormEffect>)
    ensures result.Err? <==> r == [LogError]
    ensures result.Ok? ==> r == [TrackHabits(result.value), Close]
    ensures Close in r <==> result.Ok?
  {
    match result
    case Err(_) => [LogError]
    case Ok(data) => [TrackHabits(data), Close]
  }

  class HabitTrackerForm {
    var formData: seq<EntryCell>

    ghost predicate Valid()
      reads this
    {
      DistinctCells(formData)
    }

    /** The initial state: a fresh object per store habit, in order, not completed. */
    constructor (habits: seq<Habit>)
      ensures Valid()
      ensures CellValues(formData) == Dialog.DefaultEntries(habits)
      ensures forall i :: 0 <= i < |formData| ==> fresh(formData[i])
    {
      var cells: seq<EntryCell> := [];
      var i := 0;
      while i < |habits|
        invariant 0 <= i <= |habits|
        invariant |cells| == i && DistinctCells(cells)
        invariant forall k :: 0 <= k < i ==> fresh(cells[k])
        invariant forall k :: 0 <= k < i ==> cells[k].habitId == habits[k].id && !cells[k].completed
      {
        var cell := new EntryCell(habits[i].id, false);
        cells := cells + [cell];
        i := i + 1;
      }
      formData := cells;
    }

    /** The checkbox handler of entry `index`: a shallow copy of the array whose element
        `index` gets `completed := !!checked`, then stored. The copy holds the same objects,
        so the array stored before sees the change too. */
    method Toggle(index: nat, checked: Dialog.CheckedState)
      requires Valid() && index < |formData|
      modifies this, formData[index]
      ensures Valid()
      ensures formData == old(formData)
      ensures CellValues(formData) == Dialog.OnCheckedChange(old(CellValues(formData)), index, checked)
    {
      var newFormData := formData;
      newFormData[index].completed := Dialog.Coerce(checked);
      formData := newFormData;
    }

    /** `validate`, with the track schema for `habitCount` habits as `parse`. */
    method Validate(habitCount: nat, parse: (nat, seq<TrackEntryInput>) -> Result<seq<TrackedEntry>, seq<TrackIssue>>) returns (effects: seq<FormEffect>)
      ensures effects == ValidateEffects(parse(habitCount, Dialog.AsInput(CellValues(formData))))
    {
      var result := parse(habitCount, Dialog.AsInput(CellValues(formData)));
      if result.Err? {
        effects := [LogError];
      } else {
        effects := [TrackHabits(result.value), Close];
      }
    }
  }

  /** Toggling the first checkbox is visible through the array that was stored before the
      toggle: both hold the same object. */
  method ToggleIsShared(habits: seq<Habit>) returns (previous: seq<TrackedEntry>, current: seq<TrackedEntry>)
    requires |habits| > 0
    ensures previous == current
    ensures |current| == |habits| && current[0] == TrackedEntry(habits[0].id, true)
  {
    var form := new HabitTrackerForm(habits);
    var before := form.formData;
    form.Toggle(0, Dialog.Checked);
    previous := CellValues(before);
    current := CellValues(form.formData);
  }
}
