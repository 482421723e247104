/** The track page (src/pages/HabitTrackerForm.tsx): like the track form component, but each
    entry's `completed` starts undefined (`None`), the checkbox shows checked only for `true`,
    and a valid submit inserts the entries and then returns to the dashboard. The schema
    (`getTrackHabitFormSchema`) is the `parse` parameter. */
module HabitTrackerPage {
  import opened Wrappers
  import opened Models
  import opened Schemas
  import Navigation

  /** One `{ habitId, completed }` object of the state array. */
  class TriStateCell {
    var habitId: int
    var completed: Option<bool>

    constructor (habitId: int)
      ensures this.habitId == habitId && completed == None
    {
      this.habitId := habitId;
      completed := None;
    }
  }

  /** The values the objects hold now, as the schema receives them. */
  function CellValues(cells: seq<TriStateCell>): (r: seq<TrackEntryInput>)
    reads cells
    ensures |r| == |cells|
    ensures forall i :: 0 <= i < |cells| ==> r[i] == TrackEntryInput(Some(cells[i].habitId), cells[i].completed)
  {
    seq(|cells|, i requires 0 <= i < |cells| reads cells => TrackEntryInput(Some(cells[i].habitId), cells[i].completed))
  }

  /** `checked={formData[index].completed === true}`. */
  predicate IsChecked(e: TrackEntryInput)
  {
    e.completed == Some(true)
  }

  predicate DistinctCells(cells: seq<TriStateCell>)
  {
    forall i, j :: 0 <= i < j < |cells| ==> cells[i] != cells[j]
  }

  /** What `validate` does, in order. */
  datatype PageEffect = LogError | InsertHabitEntries(data: seq<TrackedEntry>) | Navigate(page: Navigation.Page)

  /** The outcome of `validate` for a schema result: on failure the error is logged and
      nothing else happens; on success the entries are inserted and then the dashboard is
      shown. */
  function ValidateEffects(result: Result<seq<TrackedEntry>, seq<TrackIssue>>): (r: seq<PageEffect>)
    ensures result.Err? <==> r == [LogError]
    ensures result.Ok? ==> r == [InsertHabitEntries(result.value), Navigate(Navigation.Dashboard)]
    ensures Navigate(Navigation.Dashboard) in r <==> result.Ok?
  {
    match result
    case Err(_) => [LogError]
    case Ok(data) => [InsertHabitEntries(data), Navigate(Navigation.Dashboard)]
  }

  class HabitTrackerPage {
    var formData: seq<TriStateCell>

    ghost predicate Valid()
      reads this
    {
      DistinctCells(formData)
    }

    /** The initial state: a fresh object per store habit, in order, with `completed`
        undefined, so no checkbox shows checked. */
    constructor (habits: seq<Habit>)
      ensures Valid() && |formData| == |habits|
      ensures forall i :: 0 <= i < |habits| ==> CellValues(formData)[i] == TrackEntryInput(Some(habits[i].id), None)
      ensures forall i :: 0 <= i < |habits| ==> !IsChecked(CellValues(formData)[i])
      ensures forall i :: 0 <= i < |formData| ==> fresh(formData[i])
    {
      var cells: seq<TriStateCell> := [];
      var i := 0;
      while i < |habits|
        invariant 0 <= i <= |habits|
        invariant |cells| == i && DistinctCells(cells)
        invariant forall k :: 0 <= k < i ==> fresh(cells[k])
        invariant forall k :: 0 <= k < i ==> cells[k].habitId == habits[k].id && cells[k].completed == None
      {
        var cell := new TriStateCell(habits[i].id);
        cells := cells + [cell];
        i := i + 1;
      }
      formData := cells;
    }

    /** The checkbox handler of entry `index`: `completed := checked` on the shared object
        of a shallow copy, then stored; nothing else changes. */
    method Toggle(index: nat, checked: bool)
      requires Valid() && index < |formData|
      modifies this, formData[index]
      ensures Valid()
      ensures formData == old(formData)
      ensures CellValues(formData) == old(CellValues(formData))[index := old(CellValues(formData))[index].(completed := Some(checked))]
      ensures IsChecked(CellValues(formData)[index]) <==> checked
    {
      var newFormData := formData;
      newFormData[index].completed := Some(checked);
      formData := newFormData;
    }

    /** `validate`, with the track schema for `habitCount` habits as `parse`. */
    method Validate(habitCount: nat, parse: (nat, seq<TrackEntryInput>) -> Result<seq<TrackedEntry>, seq<TrackIssue>>) returns (effects: seq<PageEffect>)
      ensures effects == ValidateEffects(parse(habitCount, CellValues(formData)))
    {
      var result := parse(habitCount, CellValues(formData));
      if result.Err? {
        effects := [LogError];
      } else {
        effects := [InsertHabitEntries(result.value), Navigate(Navigation.Dashboard)];
      }
    }
  }

  /** Under the track schema's rules (`completed` must be a boolean), the initial state of a
      page with at least one habit is rejected: every checkbox must be clicked before a
      submit inserts anything. */
  lemma UntouchedEntryRejected(values: seq<TrackEntryInput>, i: nat)
    requires i < |values| && values[i].completed == None
    ensures SafeParseTrackForm(values).Err?
    ensures ValidateEffects(SafeParseTrackForm(values)) == [LogError]
  {
    assert !ValidTrackEntry(values[i]);
  }

  /** Under the same rules, once every entry has been clicked and the habit ids are positive,
      the submit inserts exactly the clicked values, in order, then navigates. */
  lemma ClickedEntriesAccepted(values: seq<TrackEntryInput>)
    requires forall i :: 0 <= i < |values| ==> values[i].completed.Some? && values[i].habitId.Some? && values[i].habitId.value >= 1
    ensures SafeParseTrackForm(values).Ok?
    ensures var data := SafeParseTrackForm(values).value;
            |data| == |values| &&
            (forall i :: 0 <= i < |values| ==> data[i] == TrackedEntry(values[i].habitId.value, values[i].completed.value)) &&
            ValidateEffects(SafeParseTrackForm(values)) == [InsertHabitEntries(data), Navigate(Navigation.Dashboard)]
  {
    assert forall i :: 0 <= i < |values| ==> ValidTrackEntry(values[i]);
  }

  /** A page over two habits: clicking both checkboxes and submitting inserts both entries
      with the clicked values and then navigates to the dashboard. */
  method ClickAllThenSubmit(first: Habit, second: Habit, a: bool, b: bool) returns (effects: seq<PageEffect>)
    requires first.id >= 1 && second.id >= 1
    ensures effects == [InsertHabitEntries([TrackedEntry(first.id, a), TrackedEntry(second.id, b)]), Navigate(Navigation.Dashboard)]
  {
    var page := new HabitTrackerPage([first, second]);
    assert CellValues(page.formData) == [TrackEntryInput(Some(first.id), None), TrackEntryInput(Some(second.id), None)];
    page.Toggle(0, a);
    assert CellValues(page.formData) == [TrackEntryInput(Some(first.id), Some(a)), TrackEntryInput(Some(second.id), None)];
    page.Toggle(1, b);
    assert CellValues(page.formData) == [TrackEntryInput(Some(first.id), Some(a)), TrackEntryInput(Some(second.id), Some(b))];
    TwoClickedEntries(first.id, second.id, a, b);
    effects := page.Validate(2, (n: nat, e: seq<TrackEntryInput>) => SafeParseTrackForm(e));
  }

  /** Two clicked entries with positive habit ids are accepted as they are. */
  lemma TwoClickedEntries(first: int, second: int, a: bool, b: bool)
    requires first >= 1 && second >= 1
    ensures SafeParseTrackForm([TrackEntryInput(Some(first), Some(a)), TrackEntryInput(Some(second), Some(b))]) ==
      Ok([TrackedEntry(first, a), TrackedEntry(second, b)])
  {
    var values := [TrackEntryInput(Some(first), Some(a)), TrackEntryInput(Some(second), Some(b))];
    ClickedEntriesAccepted(values);
    var data := SafeParseTrackForm(values).value;
    assert |data| == 2 && data[0] == TrackedEntry(first, a) && data[1] == TrackedEntry(second, b);
    assert data == [data[0], data[1]];
  }
}
