/** The dashboard page (app/dashboard/page.tsx): the active and completed
    goals, the average progress of the active ones, and the first five
    active goals it lists. */
module DashboardPage {

  import opened Rounding
  import opened Schema
  import opened Lists

  /** The active goals, in order. */
  function ActiveGoals(goals: seq<Goal>): (r: seq<Goal>)
    ensures IsSubsequence(r, goals)
    ensures forall i :: 0 <= i < |r| ==> r[i].status == Active && r[i] in goals
    ensures forall i :: 0 <= i < |goals| && goals[i].status == Active ==> goals[i] in r
  {
    Filter(goals, IsActive)
  }

  /** The completed goals, in order. */
  function CompletedGoals(goals: seq<Goal>): (r: seq<Goal>)
    ensures IsSubsequence(r, goals)
    ensures forall i :: 0 <= i < |r| ==> r[i].status == Completed && r[i] in goals
    ensures forall i :: 0 <= i < |goals| && goals[i].status == Completed ==> goals[i] in r
  {
    Filter(goals, IsCompleted)
  }

  /** No goal is both active and completed, so the two lists share no goal
      and together are no longer than the goals. */
  lemma ActiveCompletedDisjoint(goals: seq<Goal>)
    ensures forall i, j :: 0 <= i < |ActiveGoals(goals)| && 0 <= j < |CompletedGoals(goals)| ==>
              ActiveGoals(goals)[i] != CompletedGoals(goals)[j]
    ensures |ActiveGoals(goals)| + |CompletedGoals(goals)| <= |goals|
  {
    FilterExclusiveSizes(goals, IsActive, IsCompleted);
  }

  /** A goal's progress with the page's fallback to 0: normalisation
      always sets progress to a number, so the fallback never changes it. */
  function ProgressOf(g: Goal): (p: int)
    ensures p == g.progress
  {
    if g.progress != 0 then g.progress else 0
  }

  /** avgProgress: 0 without active goals, otherwise the mean progress of
      the active goals rounded half up as Math.round does. */
  function AverageProgress(goals: seq<Goal>): (avg: int)
    ensures |ActiveGoals(goals)| == 0 ==> avg == 0
    ensures |ActiveGoals(goals)| > 0 ==>
              IsRounded(avg, Sum(ActiveGoals(goals), ProgressOf), |ActiveGoals(goals)|)
  {
    var active := ActiveGoals(goals);
    if |active| > 0 then RoundDiv(Sum(active, ProgressOf), |active|) else 0
  }

  /** When every active goal's progress lies in 0..100, so does the
      average. */
  lemma AverageProgressBounded(goals: seq<Goal>)
    requires forall i :: 0 <= i < |goals| && goals[i].status == Active ==> 0 <= goals[i].progress <= 100
    ensures 0 <= AverageProgress(goals) <= 100
  {
    var active := ActiveGoals(goals);
    if |active| > 0 {
      forall i | 0 <= i < |active| ensures 0 <= ProgressOf(active[i]) <= 100 {
        var k :| 0 <= k < |goals| && goals[k] == active[i];
      }
      SumBetween(active, ProgressOf, 0, 100);
      RoundedBetween(Sum(active, ProgressOf), |active|, 0, 100);
    }
  }

  /** The dashboard's list: the first five active goals in order, or all
      of them when there are fewer. */
  function FeaturedGoals(goals: seq<Goal>): (r: seq<Goal>)
    ensures |r| == Min(5, |ActiveGoals(goals)|)
    ensures r <= ActiveGoals(goals)
    ensures forall i :: 0 <= i < |r| ==> r[i].status == Active
  {
    var active := ActiveGoals(goals);
    active[..Min(5, |active|)]
  }
}
