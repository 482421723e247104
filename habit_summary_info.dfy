/** The summary panel (src/components/HabitSummaryInfo.tsx): how many of the interval's days
    were tracked, how many tracked days were completed, the two rounded percentages and
    which sections are shown. `Math.round` of the floating-point ratio is taken as exact
    round-half-up of the rational 100·a/b. */
module HabitSummaryInfo {
  import opened Wrappers
  import opened LocalTime
  import opened Seqs
  import opened Models

  /** `Math.round((a / b) * 100)` for b > 0, in exact arithmetic: the integer nearest to
      100·a/b, halves rounded up. */
  function RoundedPercent(a: nat, b: nat): (r: int)
    requires b > 0
    ensures 2 * b * r - b <= 200 * a < 2 * b * r + b
  {
    var q := (200 * a + b) / (2 * b);
    assert 200 * a + b == 2 * b * q + (200 * a + b) % (2 * b);
    q
  }

  /** Cancelling a positive factor keeps a strict order. */
  lemma CancelPositiveFactor(c: int, x: int, y: int)
    requires c > 0 && c * x < c * y
    ensures x < y
  {
  }

  /** A part of a whole rounds to a percentage between 0 and 100, and more than the whole
      to at least 100: nothing clamps the result. */
  lemma RoundedPercentRange(a: nat, b: nat)
    requires b > 0
    ensures a <= b ==> 0 <= RoundedPercent(a, b) <= 100
    ensures a >= b ==> RoundedPercent(a, b) >= 100
  {
    var r := RoundedPercent(a, b);
    CancelPositiveFactor(2 * b, -1, r);
    if a <= b {
      CancelPositiveFactor(2 * b, r, 101);
    }
    if a >= b {
      CancelPositiveFactor(2 * b, 99, r);
    }
  }

  /** What the panel shows. A percentage of a zero total is `NaN` or `Infinity` in the
      source and never displayed; it is `None` here. */
  datatype Summary = Summary(
    totalPossible: nat,
    entryCount: nat,
    totalCompleted: nat,
    percentageTracked: Option<int>,
    percentageCompleted: Option<int>,
    showTrackingRate: bool,
    showCompletionRate: bool)

  function CompletedEntries(entries: seq<HabitEntry>): seq<HabitEntry>
  {
    Filter(entries, (e: HabitEntry) => e.completed)
  }

  /** The share of entries not completed, the complement of the completion rate. */
  function Setbacks(percentageCompleted: int): int
  {
    100 - percentageCompleted
  }

  /** The panel for the entries of an interval. */
  function SummaryInfo(entries: seq<HabitEntry>, interval: seq<Instant>): (r: Summary)
    ensures r.totalPossible == |interval| && r.entryCount == |entries|
    ensures r.totalCompleted == |CompletedEntries(entries)| && r.totalCompleted <= r.entryCount
    ensures r.showTrackingRate <==> r.totalPossible > 0
    ensures r.showCompletionRate <==> r.entryCount > 0
    ensures r.percentageTracked.Some? <==> r.showTrackingRate
    ensures r.percentageCompleted.Some? <==> r.showCompletionRate
    ensures r.percentageTracked.Some? ==> r.percentageTracked.value == RoundedPercent(|entries|, |interval|)
    ensures r.percentageCompleted.Some? ==> r.percentageCompleted.value == RoundedPercent(r.totalCompleted, |entries|)
    ensures r.percentageCompleted.Some? ==>
      0 <= r.percentageCompleted.value <= 100 &&
      0 <= Setbacks(r.percentageCompleted.value) <= 100
    ensures r.percentageTracked.Some? && r.entryCount >= r.totalPossible ==> r.percentageTracked.value >= 100
    ensures r.percentageTracked.Some? ==> r.percentageTracked.value >= 0
  {
    var completed := |CompletedEntries(entries)|;
    var tracked :=
      if |interval| > 0 then
        RoundedPercentRange(|entries|, |interval|);
        Some(RoundedPercent(|entries|, |interval|))
      else None;
    var rate :=
      if |entries| > 0 then
        RoundedPercentRange(completed, |entries|);
        Some(RoundedPercent(completed, |entries|))
      else None;
    Summary(|interval|, |entries|, completed, tracked, rate, |interval| > 0, |entries| > 0)
  }

  /** The completed count is the number of completed entries. */
  lemma TotalCompletedCounts(entries: seq<HabitEntry>, interval: seq<Instant>)
    ensures SummaryInfo(entries, interval).totalCompleted == |CompletedEntries(entries)|
    ensures forall e :: e in CompletedEntries(entries) <==> e in entries && e.completed
  {
    FilterSpec(entries, (e: HabitEntry) => e.completed);
  }

  /** Three tracked days out of four round to 75; five entries in four days show 125. */
  lemma SummarySamples()
    ensures RoundedPercent(3, 4) == 75
    ensures RoundedPercent(5, 4) == 125
    ensures RoundedPercent(1, 3) == 33 && RoundedPercent(2, 3) == 67
  {
  }
}
