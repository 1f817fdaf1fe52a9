/** The goal list page (app/goals/page.tsx): the goals shown under a status
    filter and a category filter. */
module GoalsPage {

  import opened Schema
  import opened Lists

  /** The page's status filter, `'all' | 'active' | 'completed'`. */
  datatype StatusFilter = AllStatuses | ActiveOnly | CompletedOnly

  /** The category filter's value that lets every category through. */
  const AllCategories := "all"

  /** The status test stated on its own: which statuses a filter admits. */
  predicate StatusMatches(filter: StatusFilter, g: Goal)
  {
    match filter
    case AllStatuses => true
    case ActiveOnly => g.status == Active
    case CompletedOnly => g.status == Completed
  }

  /** The category test stated on its own. */
  predicate CategoryMatches(categoryFilter: string, g: Goal)
  {
    categoryFilter == AllCategories || g.category == categoryFilter
  }

  /** The callback given to `goals.filter`: three early `return false`
      guards, then `return true`. */
  function Keeps(filter: StatusFilter, categoryFilter: string): (keep: Goal -> bool)
    ensures forall g :: keep(g) == (StatusMatches(filter, g) && CategoryMatches(categoryFilter, g))
  {
    (g: Goal) =>
      if filter == ActiveOnly && g.status != Active then false
      else if filter == CompletedOnly && g.status != Completed then false
      else if categoryFilter != AllCategories && g.category != categoryFilter then false
      else true
  }

  /** filteredGoals: the goals, in their order, that pass both the status
      test and the category test, and every such goal. */
  function FilteredGoals(goals: seq<Goal>, filter: StatusFilter, categoryFilter: string): (r: seq<Goal>)
    ensures IsSubsequence(r, goals) && |r| <= |goals|
    ensures forall i :: 0 <= i < |r| ==>
              r[i] in goals && StatusMatches(filter, r[i]) && CategoryMatches(categoryFilter, r[i])
    ensures forall i :: 0 <= i < |goals| && StatusMatches(filter, goals[i]) && CategoryMatches(categoryFilter, goals[i]) ==>
              goals[i] in r
    ensures filter == ActiveOnly ==> forall i :: 0 <= i < |r| ==> r[i].status == Active
    ensures filter == CompletedOnly ==> forall i :: 0 <= i < |r| ==> r[i].status == Completed
    ensures categoryFilter != AllCategories ==> forall i :: 0 <= i < |r| ==> r[i].category == categoryFilter
  {
    Filter(goals, Keeps(filter, categoryFilter))
  }

  /** With both filters on 'all' the page lists every goal, in order. */
  lemma ShowAllListsEverything(goals: seq<Goal>)
    ensures FilteredGoals(goals, AllStatuses, AllCategories) == goals
  {
    FilterKeepsAll(goals, Keeps(AllStatuses, AllCategories));
  }

  /** Narrowing the category after the status gives the same list as
      filtering by both at once. */
  lemma CategoryAfterStatus(goals: seq<Goal>, filter: StatusFilter, categoryFilter: string)
    ensures FilteredGoals(FilteredGoals(goals, filter, AllCategories), AllStatuses, categoryFilter)
            == FilteredGoals(goals, filter, categoryFilter)
  {
    FilterTwice(goals, Keeps(filter, AllCategories), Keeps(AllStatuses, categoryFilter), Keeps(filter, categoryFilter));
  }
}
