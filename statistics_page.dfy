/** The statistics page (app/statistics/page.tsx): the per-category chart,
    the per-goal progress chart with shortened titles, and the summary
    counts. */
module StatisticsPage {

  import opened Rounding
  import opened Schema
  import opened Lists
  import opened MockData
  import opened DashboardPage

  /** A category key of the goals table and the caption the chart shows. */
  datatype ChartCategory = ChartCategory(category: string, caption: string)

  const Health := "health"
  const Learning := "learning"
  const Finance := "finance"
  const Career := "career"

  /** The four categories the chart knows, in the chart's order. */
  const Chart: seq<ChartCategory> := [
    ChartCategory(Health, "건강"),
    ChartCategory(Learning, "학습"),
    ChartCategory(Finance, "재정"),
    ChartCategory(Career, "커리어")
  ]

  /** The chart's entry for its k-th category before empty ones are
      dropped. */
  function ChartSlice(goals: seq<Goal>, k: nat): Slice
    requires k < |Chart|
  {
    Slice(Chart[k].caption, CountActiveIn(goals, Chart[k].category))
  }

  function AllChartSlices(goals: seq<Goal>): (r: seq<Slice>)
    ensures |r| == |Chart|
    ensures forall k :: 0 <= k < |Chart| ==> r[k] == ChartSlice(goals, k)
  {
    seq(|Chart|, k requires 0 <= k < |Chart| => ChartSlice(goals, k))
  }

  predicate HasGoals(s: Slice) { s.value > 0 }

  /** categoryData: for each of the four chart categories that has active
      goals, its caption and the number of its active goals, in the chart's
      order; no entry is empty. */
  function CategoryData(goals: seq<Goal>): (r: seq<Slice>)
    ensures |r| <= |Chart|
    ensures IsSubsequence(r, AllChartSlices(goals))
    ensures forall i :: 0 <= i < |r| ==> r[i].value > 0
    ensures forall i :: 0 <= i < |r| ==> exists k :: 0 <= k < |Chart| && r[i] == ChartSlice(goals, k)
    ensures forall k :: 0 <= k < |Chart| && CountActiveIn(goals, Chart[k].category) > 0 ==> ChartSlice(goals, k) in r
  {
    Filter(AllChartSlices(goals), HasGoals)
  }

  predicate IsChartCategory(c: string)
  {
    c == Health || c == Learning || c == Finance || c == Career
  }

  /** When every active goal has one of the four chart categories, their
      counts add up to the number of active goals. */
  lemma {:induction false} ChartCountsAddUp(goals: seq<Goal>)
    requires forall i :: 0 <= i < |goals| && IsActive(goals[i]) ==> IsChartCategory(goals[i].category)
    ensures CountActiveIn(goals, Health) + CountActiveIn(goals, Learning)
            + CountActiveIn(goals, Finance) + CountActiveIn(goals, Career) == |ActiveGoals(goals)|
  {
    if goals != [] {
      ChartCountsAddUp(goals[1..]);
    }
  }

  /** Then the category chart accounts for every active goal. */
  lemma CategoryDataTotal(goals: seq<Goal>)
    requires forall i :: 0 <= i < |goals| && IsActive(goals[i]) ==> IsChartCategory(goals[i].category)
    ensures Sum(CategoryData(goals), SliceValue) == |ActiveGoals(goals)|
  {
    var all := AllChartSlices(goals);
    SumSkipsZeros(all, SliceValue, HasGoals);
    assert Sum(all[3..], SliceValue) == SliceValue(all[3]) by {
      assert all[3..][1..] == [];
    }
    assert Sum(all[2..], SliceValue) == SliceValue(all[2]) + Sum(all[3..], SliceValue) by {
      assert all[2..][1..] == all[3..];
    }
    assert Sum(all[1..], SliceValue) == SliceValue(all[1]) + Sum(all[2..], SliceValue) by {
      assert all[1..][1..] == all[2..];
    }
    ChartCountsAddUp(goals);
  }

  /** The chart's name for a goal: a title longer than 15 characters is cut
      to its first 15 and followed by "...". */
  function Truncate(title: string): (t: string)
    ensures |title| <= 15 ==> t == title
    ensures |title| > 15 ==> |t| == 18 && t[..15] == title[..15] && t[15..] == "..."
  {
    if |title| > 15 then title[..15] + "..." else title
  }

  /** A shortened title is left as it is when shortened again. */
  lemma TruncateIdempotent(title: string)
    ensures Truncate(Truncate(title)) == Truncate(title)
  {
    if |title| > 15 {
      var t := Truncate(title);
      assert t == t[..15] + t[15..];
    }
  }

  /** One bar of the progress chart. */
  datatype ProgressBar = ProgressBar(name: string, progress: int)

  /** goalsProgressData: one bar per active goal, in the goals' order, with
      the shortened title and the goal's progress. */
  function GoalsProgressData(goals: seq<Goal>): (r: seq<ProgressBar>)
    ensures |r| == |ActiveGoals(goals)|
    ensures forall i :: 0 <= i < |r| ==>
              r[i] == ProgressBar(Truncate(ActiveGoals(goals)[i].title), ProgressOf(ActiveGoals(goals)[i]))
  {
    var active := ActiveGoals(goals);
    seq(|active|, i requires 0 <= i < |active| => ProgressBar(Truncate(active[i].title), ProgressOf(active[i])))
  }

  /** The summary cards. */
  datatype Summary = Summary(totalGoals: nat, activeGoals: nat, completedGoals: nat, avgProgress: int)

  /** totalGoals, activeGoals, completedGoals and avgProgress: the counts
      never add up to more than the total, and the average is the
      dashboard's. */
  function Stats(goals: seq<Goal>): (s: Summary)
    ensures s.totalGoals == |goals|
    ensures s.activeGoals == |ActiveGoals(goals)| && s.completedGoals == |CompletedGoals(goals)|
    ensures s.activeGoals + s.completedGoals <= s.totalGoals
    ensures s.activeGoals == 0 ==> s.avgProgress == 0
    ensures s.activeGoals > 0 ==> IsRounded(s.avgProgress, Sum(ActiveGoals(goals), ProgressOf), s.activeGoals)
  {
    ActiveCompletedDisjoint(goals);
    Summary(|goals|, |ActiveGoals(goals)|, |CompletedGoals(goals)|, AverageProgress(goals))
  }
}
