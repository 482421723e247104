/** The front end's habit store (src/store/habit.ts): the `habits` list and the three
    actions that replace it. The habits the back-end calls return (`getHabits`, `postHabit`,
    `putHabit`) are the actions' parameters. */
module HabitStore {
  import opened Models

  /** The list `updateHabit` sets: every habit whose id is the updated habit's id is
      replaced by it, in place; the others are kept. */
  function ReplaceById(habits: seq<Habit>, updated: Habit): (r: seq<Habit>)
    ensures |r| == |habits|
    ensures forall i :: 0 <= i < |habits| && habits[i].id == updated.id ==> r[i] == updated
    ensures forall i :: 0 <= i < |habits| && habits[i].id != updated.id ==> r[i] == habits[i]
  {
    if habits == [] then []
    else [if habits[0].id == updated.id then updated else habits[0]] + ReplaceById(habits[1..], updated)
  }

  /** The ids, in list order. */
  function Ids(habits: seq<Habit>): (r: seq<int>)
    ensures |r| == |habits| && forall i :: 0 <= i < |habits| ==> r[i] == habits[i].id
  {
    seq(|habits|, i requires 0 <= i < |habits| => habits[i].id)
  }

  /** Replacing keeps the ids in their order, so the list is still the same habits. */
  lemma ReplaceByIdKeepsIds(habits: seq<Habit>, updated: Habit)
    ensures Ids(ReplaceById(habits, updated)) == Ids(habits)
  {
  }

  /** Replacing twice with the same habit is replacing once. */
  lemma ReplaceByIdIdempotent(habits: seq<Habit>, updated: Habit)
    ensures ReplaceById(ReplaceById(habits, updated), updated) == ReplaceById(habits, updated)
  {
  }

  /** The updated habit is in the new list exactly when its id was in the old one (or it
      was already there), and a list without that id is left as it was. */
  lemma ReplaceByIdMembership(habits: seq<Habit>, updated: Habit)
    ensures updated.id in Ids(habits) ==> updated in ReplaceById(habits, updated)
    ensures updated.id !in Ids(habits) ==> ReplaceById(habits, updated) == habits
  {
    if updated.id in Ids(habits) {
      var i :| 0 <= i < |habits| && habits[i].id == updated.id;
      assert ReplaceById(habits, updated)[i] == updated;
    } else {
      assert forall i :: 0 <= i < |habits| ==> habits[i].id != updated.id by {
        forall i | 0 <= i < |habits| ensures habits[i].id != updated.id {
          assert Ids(habits)[i] == habits[i].id;
        }
      }
    }
  }

  class HabitStore {
    var habits: seq<Habit>

    /** The store starts with no habits. */
    constructor ()
      ensures habits == []
    {
      habits := [];
    }

    /** `fetchHabits`: the list becomes the fetched habits. */
    method FetchHabits(fetched: seq<Habit>)
      modifies this
      ensures habits == fetched
    {
      habits := fetched;
    }

    /** `createHabit`: the created habit is appended; earlier habits are unchanged. */
    method CreateHabit(created: Habit)
      modifies this
      ensures habits == old(habits) + [created]
      ensures |habits| == |old(habits)| + 1 && habits[..|old(habits)|] == old(habits)
    {
      habits := habits + [created];
    }

    /** `updateHabit`: same length and order, the habits with the updated id replaced. */
    method UpdateHabit(updated: Habit)
      modifies this
      ensures habits == ReplaceById(old(habits), updated)
      ensures Ids(habits) == Ids(old(habits))
    {
      ReplaceByIdKeepsIds(habits, updated);
      habits := ReplaceById(habits, updated);
    }
  }
}
