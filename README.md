# Goal assistant: a verified model of the store, helpers and page logic

This project is a Dafny model of the core of the AI goal assistant, a web
app for tracking goals. The model covers:

- **The client store** (`store/useStore.ts`). It holds the signed-in user,
  the loaded goals, the loaded daily records and a loading flag. Every write
  goes to the hosted backend and is followed by a reload.
  - The backend is a class `Remote.Backend` holding two tables, `goals` and
    `daily_records`. Each table is a map from row id to row.
  - The store is a class `GoalStore.Store` whose methods update its fields.
  - Whether each backend request fails is a parameter of the action that
    sends it. So are fresh ids and the clock.
- **The row normalisation and the progress formula** (`Schema`). Progress
  is `min(round(current / target * 100), 100)`, with a missing current value
  read as 0. It is 0 when the target is 0 or missing.
- **The statistics helpers of `lib/mockData.ts`** (`MockData`).
  `getGoalProgress` is a function. `getCategoryDistribution` is a method
  whose loop fills a dictionary in place. Its keys are kept in insertion
  order, as a JavaScript object keeps them.
- **The pure logic of four pages**:
  - the goal list filter (`GoalsPage`);
  - the dashboard counts, average and first-five list (`DashboardPage`);
  - the statistics charts and summary (`StatisticsPage`);
  - the sign-up form's ordered validation and its submit handler
    (`RegisterPage`).

Integers stand for JavaScript numbers. `Math.round(n / d)` is `floor((2n + d) / (2d))`,
written out for either sign of `d` (`Rounding.RoundDiv`). The predicate
`Rounding.IsRounded` specifies it: it is the integer nearest `n / d`, and a
half rounds up. `Rounding.RoundedUnique` shows that this integer is unique.

The main invariant of the backend is `Remote.Synced`: every goal's
`current_value` is the sum of the increments of its daily records. Loading,
updating and deleting keep it unconditionally. Two actions keep it only
under a condition:

- adding a goal keeps it when no stored record already refers to the new
  goal's id;
- adding a daily record keeps it when the read and the write of the goal's
  current value that follow the insert both succeed. The source ignores
  their failures, and `Remote.UnwrittenRecordBreaksSync` shows that the
  invariant is then lost.

Two points of the source's behaviour are easy to misread:

- `useStore.ts:53` caps progress at 100 and does not floor it at 0: a
  negative current value gives a negative progress. `Schema.Progress` keeps
  that behaviour. `Schema.ProgressRange` proves the range 0..100 for
  non-negative current values and positive targets.
- The sign-up page calls a store action `register`, but `useStore.ts`
  defines none, so its answer is a parameter of
  `RegisterPage.SignUpPage.HandleSubmit`.

## Model

| member | source | states |
|---|---|---|
| Rounding.RoundDiv | OneDrive/Desktop/VibeCoding/Study-07/ai-goal-assistant/store/useStore.ts:53 | `Math.round(n / d)` for integers: the result is the nearest integer to n / d, and a half rounds up (`IsRounded`), for either sign of d |
| Rounding.RoundedUnique | OneDrive/Desktop/VibeCoding/Study-07/ai-goal-assistant/store/useStore.ts:53 | at most one integer is the rounding of n / d, so `IsRounded` pins down the result |
| Rounding.RoundedBetween | OneDrive/Desktop/VibeCoding/Study-07/ai-goal-assistant/app/dashboard/page.tsx:19-21 | if n / d lies between lo and hi, so does its rounding |
| Rounding.CappedPercent | OneDrive/Desktop/VibeCoding/Study-07/ai-goal-assistant/store/useStore.ts:53 | `min(round(total / target * 100), 100)`: never above 100; below 100 it is the rounded percentage; it is 100 exactly when the rounded percentage reaches 100 |
| Rounding.CappedPercentRange | OneDrive/Desktop/VibeCoding/Study-07/ai-goal-assistant/store/useStore.ts:53 | for a positive target and a non-negative total the percentage lies in 0..100, and it is 100 once the total reaches the target |
| Lists.Filter | OneDrive/Desktop/VibeCoding/Study-07/ai-goal-assistant/app/goals/page.tsx:18 | `Array.prototype.filter`: the result is an order-preserving subsequence holding exactly the elements that pass the test |
| Lists.FilterCounts | OneDrive/Desktop/VibeCoding/Study-07/ai-goal-assistant/app/goals/page.tsx:18 | filtering keeps every copy of a passing element and no copy of a failing one |
| Lists.Pigeonhole | OneDrive/Desktop/VibeCoding/Study-07/ai-goal-assistant/store/useStore.ts:40 | a list with as many distinct elements as positions repeats none |
| Lists.SameElements | OneDrive/Desktop/VibeCoding/Study-07/ai-goal-assistant/store/useStore.ts:40 | two lists without repeats and with the same elements hold the same multiset |
| Lists.FilterKeepsAll | OneDrive/Desktop/VibeCoding/Study-07/ai-goal-assistant/app/goals/page.tsx:18-23 | a filter whose test passes every element returns its input unchanged |
| Lists.FilterExclusiveSizes | OneDrive/Desktop/VibeCoding/Study-07/ai-goal-assistant/app/dashboard/page.tsx:16-17 | two filters whose tests never both hold select at most as many elements as the input has |
| Lists.FilterTwice | OneDrive/Desktop/VibeCoding/Study-07/ai-goal-assistant/lib/mockData.ts:122 | filtering by p and then by q is filtering by "p and q" |
| Lists.SumAppend | OneDrive/Desktop/VibeCoding/Study-07/ai-goal-assistant/app/dashboard/page.tsx:20 | the `reduce` sum (`Lists.Sum`) of two lists joined is the sum of their sums |
| Lists.SumBetween | OneDrive/Desktop/VibeCoding/Study-07/ai-goal-assistant/app/dashboard/page.tsx:20 | the `reduce` sum of n terms, each in lo..hi, lies in n*lo..n*hi |
| Lists.FilteredSumNonNegative | OneDrive/Desktop/VibeCoding/Study-07/ai-goal-assistant/lib/mockData.ts:114-115 | the sum of some of a list's non-negative terms is non-negative |
| Lists.SumSkipsZeros | OneDrive/Desktop/VibeCoding/Study-07/ai-goal-assistant/app/statistics/page.tsx:25 | dropping terms worth 0 leaves a sum unchanged |
| Lists.Find | OneDrive/Desktop/VibeCoding/Study-07/ai-goal-assistant/lib/mockData.ts:111 | `Array.prototype.find`: nothing exactly when no element matches; otherwise the first matching element |
| Ordering.LexLeqTotal | OneDrive/Desktop/VibeCoding/Study-07/ai-goal-assistant/store/useStore.ts:32 | the string order used by `order(...)` is total |
| Ordering.LexLeqTransitive | OneDrive/Desktop/VibeCoding/Study-07/ai-goal-assistant/store/useStore.ts:32 | the string order is transitive |
| Ordering.LexLeqAntisymmetric | OneDrive/Desktop/VibeCoding/Study-07/ai-goal-assistant/store/useStore.ts:32 | two strings each at most the other are equal |
| Ordering.SortedDescUnique | OneDrive/Desktop/VibeCoding/Study-07/ai-goal-assistant/store/useStore.ts:32 | two descending orderings of the same rows are the same list when no two different rows share a key |
| Ordering.InsertDesc | OneDrive/Desktop/VibeCoding/Study-07/ai-goal-assistant/store/useStore.ts:32 | inserting a row into a descending list keeps it descending and adds exactly that row |
| Ordering.SelectDesc | OneDrive/Desktop/VibeCoding/Study-07/ai-goal-assistant/store/useStore.ts:29-32 | `select('*').order(key, { ascending: false })`: every row of the table exactly once, in descending key order |
| Nullable.Option.GetOr | OneDrive/Desktop/VibeCoding/Study-07/ai-goal-assistant/store/useStore.ts:44-50 | a nullable column's default to '' or 0: a present value is kept, an absent one reads as the fallback |
| Schema.Progress | OneDrive/Desktop/VibeCoding/Study-07/ai-goal-assistant/store/useStore.ts:53 | 0 when the target is 0 or missing; otherwise never above 100, below 100 the rounded percentage of current (missing read as 0) over target, and 100 exactly when that percentage reaches 100 |
| Schema.ProgressRange | OneDrive/Desktop/VibeCoding/Study-07/ai-goal-assistant/store/useStore.ts:53 | with a positive target and a non-negative current value, progress lies in 0..100, and it is 100 once current reaches target |
| Schema.NormalizeGoal | OneDrive/Desktop/VibeCoding/Study-07/ai-goal-assistant/store/useStore.ts:40-54 | the loaded goal keeps the row's id, owner, title, category, status, dates and timestamps, and its present description, end date, unit and target; a missing description, end date or unit becomes "", a missing target becomes 0 with progress 0; progress is `Progress` of the row's target and current value, so at most 100 |
| Schema.NormalizeRecord | OneDrive/Desktop/VibeCoding/Study-07/ai-goal-assistant/store/useStore.ts:70-77 | the loaded record's value is the row's increment, or 0 when absent; its date is the row's `date`; a present note is kept and a missing one becomes "" |
| Schema.NormalizeGoals | OneDrive/Desktop/VibeCoding/Study-07/ai-goal-assistant/store/useStore.ts:40 | the mapping over the returned rows: one normalised goal per row, in row order |
| Schema.NormalizeRecords | OneDrive/Desktop/VibeCoding/Study-07/ai-goal-assistant/store/useStore.ts:70 | one normalised record per row, in row order |
| Remote.NewGoalRow | OneDrive/Desktop/VibeCoding/Study-07/ai-goal-assistant/store/useStore.ts:86-100 | the inserted goal row belongs to the user, has goal type "quantitative", current value 0 and no weekly frequency |
| Remote.NewGoalLoadsAsDraft | OneDrive/Desktop/VibeCoding/Study-07/ai-goal-assistant/store/useStore.ts:88-99 | a freshly inserted goal loads back as the draft it came from, with progress 0 |
| Remote.PatchRow | OneDrive/Desktop/VibeCoding/Study-07/ai-goal-assistant/store/useStore.ts:115-121 | the update writes the present title, description and status and a new updated_at; every other column is unchanged |
| Remote.NewRecordRow | OneDrive/Desktop/VibeCoding/Study-07/ai-goal-assistant/store/useStore.ts:148-153 | the inserted record row carries the record's value in `increment` and belongs to the record's goal |
| Remote.NewRecordLoadsAsDraft | OneDrive/Desktop/VibeCoding/Study-07/ai-goal-assistant/store/useStore.ts:148-153 | an inserted record loads back with the value, date and notes it was written with |
| Remote.RecordedTotalSplit | OneDrive/Desktop/VibeCoding/Study-07/ai-goal-assistant/store/useStore.ts:170 | the sum of a goal's recorded increments does not depend on the order in which the records are taken |
| Remote.RecordedTotalInsert | OneDrive/Desktop/VibeCoding/Study-07/ai-goal-assistant/store/useStore.ts:146-155 | inserting a record adds its increment to its own goal's total and nothing to any other goal |
| Remote.UnreferencedTotal | OneDrive/Desktop/VibeCoding/Study-07/ai-goal-assistant/store/useStore.ts:95 | a goal no record refers to has recorded total 0, matching the new goal's current value 0 |
| Remote.UnwrittenRecordBreaksSync | OneDrive/Desktop/VibeCoding/Study-07/ai-goal-assistant/store/useStore.ts:163-175 | a record inserted without the read-modify-write that follows leaves its goal's current value out of step with its records |
| Remote.Backend.SelectGoals | OneDrive/Desktop/VibeCoding/Study-07/ai-goal-assistant/store/useStore.ts:29-32 | every goal row once, newest `created_at` first |
| Remote.Backend.SelectRecords | OneDrive/Desktop/VibeCoding/Study-07/ai-goal-assistant/store/useStore.ts:60-63 | every daily record row once, latest `date` first |
| Remote.Backend.SelectGoal | OneDrive/Desktop/VibeCoding/Study-07/ai-goal-assistant/store/useStore.ts:163-167 | `.eq('id', id).single()`: the row with that id, or nothing when there is none |
| Remote.Backend.InsertGoal | OneDrive/Desktop/VibeCoding/Study-07/ai-goal-assistant/store/useStore.ts:86-102 | adds the row under its id; a duplicate id is refused and changes nothing |
| Remote.Backend.UpdateGoal | OneDrive/Desktop/VibeCoding/Study-07/ai-goal-assistant/store/useStore.ts:113-121 | patches the row with that id and no other; no matching row changes nothing |
| Remote.Backend.SetCurrentValue | OneDrive/Desktop/VibeCoding/Study-07/ai-goal-assistant/store/useStore.ts:171-174 | sets the current value of the row with that id and no other column or row |
| Remote.Backend.DeleteGoal | OneDrive/Desktop/VibeCoding/Study-07/ai-goal-assistant/store/useStore.ts:132-135 | removes exactly the row with that id |
| Remote.Backend.InsertRecord | OneDrive/Desktop/VibeCoding/Study-07/ai-goal-assistant/store/useStore.ts:146-155 | adds the record row under its id; a duplicate id is refused and changes nothing |
| GoalStore.SelectionShows | OneDrive/Desktop/VibeCoding/Study-07/ai-goal-assistant/store/useStore.ts:40-56 | normalising an ordered select of the goals table gives one goal per row, each the normalisation of its row, newest first |
| GoalStore.SelectionShowsRecords | OneDrive/Desktop/VibeCoding/Study-07/ai-goal-assistant/store/useStore.ts:70-79 | the same for the daily records, latest date first |
| GoalStore.ShownGoalsDiffer | OneDrive/Desktop/VibeCoding/Study-07/ai-goal-assistant/store/useStore.ts:40-56 | a load holds no goal twice |
| GoalStore.LoadDeterminate | OneDrive/Desktop/VibeCoding/Study-07/ai-goal-assistant/store/useStore.ts:27-57 | two loads of the same goals table, with no write between, hold the same goals; when no two rows share a `created_at`, they are the same list |
| GoalStore.ShownRecordsDiffer | OneDrive/Desktop/VibeCoding/Study-07/ai-goal-assistant/store/useStore.ts:70-79 | a load holds no daily record twice |
| GoalStore.LoadRecordsDeterminate | OneDrive/Desktop/VibeCoding/Study-07/ai-goal-assistant/store/useStore.ts:59-80 | two loads of the same records table hold the same records; when no two rows share a `date`, they are the same list |
| GoalStore.DeletedGoalNotShown | OneDrive/Desktop/VibeCoding/Study-07/ai-goal-assistant/store/useStore.ts:131-143 | after a delete, a reload shows no goal with the deleted id |
| GoalStore.RowShown | OneDrive/Desktop/VibeCoding/Study-07/ai-goal-assistant/store/useStore.ts:40-56 | every row of the table appears, normalised, in a load of it |
| GoalStore.EightHundredOfNineHundred | OneDrive/Desktop/VibeCoding/Study-07/ai-goal-assistant/store/useStore.ts:170 | a goal at 750 of 900 shows 83; adding 50 brings it to 800, which shows 89 |
| GoalStore.Store.constructor | OneDrive/Desktop/VibeCoding/Study-07/ai-goal-assistant/store/useStore.ts:19-23 | the store starts with the given user, no goals, no records and not loading |
| GoalStore.Store.SetUser | OneDrive/Desktop/VibeCoding/Study-07/ai-goal-assistant/store/useStore.ts:25 | replaces the user and nothing else |
| GoalStore.Store.LoadGoals | OneDrive/Desktop/VibeCoding/Study-07/ai-goal-assistant/store/useStore.ts:27-57 | on a failed query the goals are kept; otherwise they show the goals table (`Shows`); loading ends false either way |
| GoalStore.Store.LoadDailyRecords | OneDrive/Desktop/VibeCoding/Study-07/ai-goal-assistant/store/useStore.ts:59-80 | on a failed query the records are kept; otherwise they show the records table |
| GoalStore.Store.AddGoal | OneDrive/Desktop/VibeCoding/Study-07/ai-goal-assistant/store/useStore.ts:82-110 | without a user, or on a failed insert, nothing changes; otherwise the new row is in the table and the goals are reloaded; the sync invariant is kept |
| GoalStore.Store.UpdateGoal | OneDrive/Desktop/VibeCoding/Study-07/ai-goal-assistant/store/useStore.ts:112-129 | on a failed update nothing changes and nothing reloads; otherwise only the row with that id is patched and the goals are reloaded; the sync invariant is kept |
| GoalStore.Store.DeleteGoal | OneDrive/Desktop/VibeCoding/Study-07/ai-goal-assistant/store/useStore.ts:131-143 | on a failed delete nothing changes and nothing reloads; otherwise exactly that row is gone and no loaded goal has its id |
| GoalStore.Store.AddDailyRecord | OneDrive/Desktop/VibeCoding/Study-07/ai-goal-assistant/store/useStore.ts:145-179 | on a failed insert nothing changes; otherwise the record is stored, the goal's current value becomes its old value (missing read as 0) plus the record's value, and both collections reload; the sync invariant is kept when the read and the write succeed |
| MockData.RecordsTotal | OneDrive/Desktop/VibeCoding/Study-07/ai-goal-assistant/lib/mockData.ts:114-115 | the summed value of one goal's records: 0 when no record belongs to the goal, never negative when no record value is |
| MockData.RecordsTotalAppend | OneDrive/Desktop/VibeCoding/Study-07/ai-goal-assistant/lib/mockData.ts:114-115 | a further record adds its value to its own goal's total and leaves every other goal's total unchanged |
| MockData.GetGoalProgressAsWritten | OneDrive/Desktop/VibeCoding/Study-07/ai-goal-assistant/lib/mockData.ts:110-118 | the unguarded formula: 0 when no goal has the id |
| MockData.ZeroTargetIsNaN | OneDrive/Desktop/VibeCoding/Study-07/ai-goal-assistant/lib/mockData.ts:117 | as written, a goal with target 0 and no records has progress NaN |
| MockData.GetGoalProgress | OneDrive/Desktop/VibeCoding/Study-07/ai-goal-assistant/lib/mockData.ts:110-118 | 0 when no goal has the id; otherwise the store's progress of the first such goal, with the sum of that goal's record values as current value; never above 100 |
| MockData.GoalProgressRange | OneDrive/Desktop/VibeCoding/Study-07/ai-goal-assistant/lib/mockData.ts:117 | with positive targets and non-negative records, the progress lies in 0..100, and it is 100 once the records reach the target |
| MockData.GuardedAgreesWithAsWritten | OneDrive/Desktop/VibeCoding/Study-07/ai-goal-assistant/lib/mockData.ts:117 | the guarded and unguarded versions agree whenever the goal's target is not 0 |
| MockData.CountActiveInBounds | OneDrive/Desktop/VibeCoding/Study-07/ai-goal-assistant/app/statistics/page.tsx:21-24 | a chart category's count (`CountActiveIn`, the length of the filtered active goals of that category) is at most the number of goals, and positive exactly when some active goal has that category |
| MockData.Entries | OneDrive/Desktop/VibeCoding/Study-07/ai-goal-assistant/lib/mockData.ts:125 | `Object.entries(...).map(...)`: one `{ name, value }` per key, in key order |
| MockData.EntriesTotal | OneDrive/Desktop/VibeCoding/Study-07/ai-goal-assistant/lib/mockData.ts:125 | the entries' values add up to the sum of the dictionary's counts |
| MockData.Bumped | OneDrive/Desktop/VibeCoding/Study-07/ai-goal-assistant/lib/mockData.ts:123 | the dictionary update of one goal's category: that category's count becomes its old count plus 1, or 1 when it was absent; it is added to the keys; every other key keeps its count |
| MockData.TallyStep | OneDrive/Desktop/VibeCoding/Study-07/ai-goal-assistant/lib/mockData.ts:122-124 | one step of the forEach keeps the tally: the keys are the categories seen in order of first appearance (`FirstAppearances`), each counting its goals seen so far, counts adding up to the goals seen |
| MockData.FirstAppearancesLists | OneDrive/Desktop/VibeCoding/Study-07/ai-goal-assistant/lib/mockData.ts:125 | the categories in order of first appearance list every category met exactly once and nothing else |
| MockData.FirstAppearancesAppend | OneDrive/Desktop/VibeCoding/Study-07/ai-goal-assistant/lib/mockData.ts:123 | meeting one more goal adds its category at the end of the first-appearance order exactly when it is new, as assigning a new key to a JavaScript object does |
| MockData.EntriesInOrder | OneDrive/Desktop/VibeCoding/Study-07/ai-goal-assistant/lib/mockData.ts:125 | the entries carry the keys in the keys' order |
| MockData.TallyCountsActive | OneDrive/Desktop/VibeCoding/Study-07/ai-goal-assistant/lib/mockData.ts:121-125 | each entry of the finished tally counts the active goals of its category, at least 1 |
| MockData.TallyCoversActive | OneDrive/Desktop/VibeCoding/Study-07/ai-goal-assistant/lib/mockData.ts:121-125 | every active goal's category has an entry |
| MockData.EntriesDistinct | OneDrive/Desktop/VibeCoding/Study-07/ai-goal-assistant/lib/mockData.ts:125 | no category has two entries |
| MockData.CountByCategory | OneDrive/Desktop/VibeCoding/Study-07/ai-goal-assistant/lib/mockData.ts:121-124 | the forEach loop: afterwards the keys are the categories met in order of first appearance (`FirstAppearances`), each once, and the dictionary holds for each the number of goals with it, counts adding up to the number of goals |
| MockData.GetCategoryDistribution | OneDrive/Desktop/VibeCoding/Study-07/ai-goal-assistant/lib/mockData.ts:120-126 | one entry per category of an active goal and no other, in order of first appearance among the active goals, each counting that category's active goals (at least 1), names distinct, counts adding up to the number of active goals |
| GoalsPage.Keeps | OneDrive/Desktop/VibeCoding/Study-07/ai-goal-assistant/app/goals/page.tsx:18-23 | the guard chain of early `return false`s returns true exactly when the goal passes the status test and the category test |
| GoalsPage.FilteredGoals | OneDrive/Desktop/VibeCoding/Study-07/ai-goal-assistant/app/goals/page.tsx:18-23 | the guard chain keeps a goal exactly when it passes the status test and the category test, stated on their own; the result is an order-preserving subsequence |
| GoalsPage.ShowAllListsEverything | OneDrive/Desktop/VibeCoding/Study-07/ai-goal-assistant/app/goals/page.tsx:18-23 | with both filters on 'all' the list is the input |
| GoalsPage.CategoryAfterStatus | OneDrive/Desktop/VibeCoding/Study-07/ai-goal-assistant/app/goals/page.tsx:19-21 | filtering by status and then by category equals filtering by both |
| DashboardPage.ActiveGoals | OneDrive/Desktop/VibeCoding/Study-07/ai-goal-assistant/app/dashboard/page.tsx:16 | exactly the active goals, in order |
| DashboardPage.CompletedGoals | OneDrive/Desktop/VibeCoding/Study-07/ai-goal-assistant/app/dashboard/page.tsx:17 | exactly the completed goals, in order |
| DashboardPage.ActiveCompletedDisjoint | OneDrive/Desktop/VibeCoding/Study-07/ai-goal-assistant/app/dashboard/page.tsx:16-17 | the two lists share no goal, and their lengths add up to at most the number of goals |
| DashboardPage.ProgressOf | OneDrive/Desktop/VibeCoding/Study-07/ai-goal-assistant/app/dashboard/page.tsx:20 | the page's fallback to 0 for a falsy progress: since loading always sets progress to a number, the result is the goal's progress |
| DashboardPage.AverageProgress | OneDrive/Desktop/VibeCoding/Study-07/ai-goal-assistant/app/dashboard/page.tsx:19-21 | 0 without active goals; otherwise the rounding of the active goals' summed progress over their number |
| DashboardPage.AverageProgressBounded | OneDrive/Desktop/VibeCoding/Study-07/ai-goal-assistant/app/dashboard/page.tsx:19-21 | if every active goal's progress lies in 0..100, so does the average |
| DashboardPage.FeaturedGoals | OneDrive/Desktop/VibeCoding/Study-07/ai-goal-assistant/app/dashboard/page.tsx:93 | the first min(5, n) active goals, in order |
| StatisticsPage.AllChartSlices | OneDrive/Desktop/VibeCoding/Study-07/ai-goal-assistant/app/statistics/page.tsx:20-24 | one entry per chart category (health, learning, finance, career) with its caption and its number of active goals |
| StatisticsPage.CategoryData | OneDrive/Desktop/VibeCoding/Study-07/ai-goal-assistant/app/statistics/page.tsx:20-25 | the chart categories with at least one active goal, in the chart's fixed order (an order-preserving subsequence of the four entries, which fixes each slice's colour), each with its count of active goals; no entry is 0 |
| StatisticsPage.ChartCountsAddUp | OneDrive/Desktop/VibeCoding/Study-07/ai-goal-assistant/app/statistics/page.tsx:21-24 | when every active goal has one of the four chart categories, the four counts add up to the number of active goals |
| StatisticsPage.CategoryDataTotal | OneDrive/Desktop/VibeCoding/Study-07/ai-goal-assistant/app/statistics/page.tsx:20-25 | then the chart's values add up to the number of active goals |
| StatisticsPage.Truncate | OneDrive/Desktop/VibeCoding/Study-07/ai-goal-assistant/app/statistics/page.tsx:41 | a title of at most 15 characters is kept; a longer one becomes its first 15 characters and "..." |
| StatisticsPage.TruncateIdempotent | OneDrive/Desktop/VibeCoding/Study-07/ai-goal-assistant/app/statistics/page.tsx:41 | shortening a shortened title changes nothing |
| StatisticsPage.GoalsProgressData | OneDrive/Desktop/VibeCoding/Study-07/ai-goal-assistant/app/statistics/page.tsx:38-43 | one bar per active goal, in order, with its shortened title and its progress |
| StatisticsPage.Stats | OneDrive/Desktop/VibeCoding/Study-07/ai-goal-assistant/app/statistics/page.tsx:45-51 | total, active and completed counts, with active + completed at most total; the average is 0 without active goals and the rounded mean progress otherwise |
| RegisterPage.ValidateForm | OneDrive/Desktop/VibeCoding/Study-07/ai-goal-assistant/app/register/page.tsx:27-49 | passes exactly when all four checks hold; otherwise the error is that of the first failing check, in the order fields, length, confirmation, terms |
| RegisterPage.SignUpPage.constructor | OneDrive/Desktop/VibeCoding/Study-07/ai-goal-assistant/app/register/page.tsx:11-18 | empty form, terms not agreed, no error |
| RegisterPage.SignUpPage.HandleChange | OneDrive/Desktop/VibeCoding/Study-07/ai-goal-assistant/app/register/page.tsx:20-25 | sets the named field and leaves the other fields and state unchanged |
| RegisterPage.SignUpPage.SetAgreedToTerms | OneDrive/Desktop/VibeCoding/Study-07/ai-goal-assistant/app/register/page.tsx:17 | sets the terms checkbox and nothing else |
| RegisterPage.SignUpPage.HandleSubmit | OneDrive/Desktop/VibeCoding/Study-07/ai-goal-assistant/app/register/page.tsx:51-65 | a rejected form shows its error and register is not called; otherwise register is called once with email, password and name, and success goes to /dashboard while failure shows the failure message |

## Left out

- Floating point is not modelled. Values are integers, and `current / target * 100` is computed exactly as `100 * current / target` before rounding. So `Rounding.RoundDiv` and `Schema.Progress` can differ from the source where the double result lands within rounding error of a half.
- NaN and infinities are not values of the model. The one place they arise, getGoalProgress with target 0, is under Findings.
- The backend client is out of scope: its network calls, `await` ordering and error objects. A request's failure is a boolean parameter of the action.
- `console.error` logging is left out.
- The fixed arrays `mockGoals` and `mockDailyRecords` are parameters here, so the helpers are stated for every input.
- Concurrency is not modelled: actions run one at a time. In particular, addDailyRecord's read and write can race with another writer and lose an update.
- `GoalStore.Store.AddDailyRecord`: keeps `Synced` only when the read and the write succeed. The source ignores their failures, and `Remote.UnwrittenRecordBreaksSync` shows that the invariant then breaks.
- `GoalStore.Store.AddGoal`: keeps `Synced` only when no record already refers to the new id.
- `GoalStore.Store.constructor`: takes the initial user as a parameter. The source hard-codes a demo user.
- Ids and insert timestamps come from the database; updateGoal's `updated_at` comes from the client's clock. All of them are parameters here.
- The `data || []` fallback for null data on a successful select is not modelled: a successful select here always returns a list.
- `Ordering.SelectDesc`: compares `created_at` and `date` as strings, character by character. This matches the database's ordering for timestamps and dates in one ISO format. Ties come in an order the model does not fix.
- `MockData.GetCategoryDistribution`: keeps every key in insertion order. A JavaScript object would list integer-like keys first, in numeric order, and treats names inherited from Object.prototype (`constructor`, `__proto__`) specially; category names are neither.
- `StatisticsPage.Truncate`: counts characters. JavaScript `length` and `substring` count UTF-16 code units, so the two differ for titles holding characters outside the Basic Multilingual Plane.
- `RegisterPage.ValidateForm`: counts characters for the minimum password length, with the same UTF-16 caveat.
- `g.progress || 0` on the pages is the identity here. Normalisation always sets progress to a number, and a 0 stays 0.
- getWeeklyProgress is left out because it uses randomness. The hard-coded weekly data and streak values on the statistics page are left out too.
- The AI coach page and the login page are not part of this model. They depend on store actions (`addConversation`, `addMessage`, `login`) that useStore.ts does not define.
- `register` is not defined in useStore.ts. Its answer is a parameter of HandleSubmit.
- Rendering is not modelled: JSX, styling, charts, routing beyond the recorded route, and date formatting.
- The new-goal form and the type-only files are not part of this model.

## Findings

| source | as written | input that shows it | evidently intended | confidence | as-written member | corrected member |
|---|---|---|---|---|---|---|
| OneDrive/Desktop/VibeCoding/Study-07/ai-goal-assistant/lib/mockData.ts:117 | `Math.min(Math.round((totalValue / goal.target_value) * 100), 100)` has no guard against a zero target | a goal with `target_value` 0 and no records: 0 / 0 is NaN, and NaN comes out as the progress; a negative total gives -Infinity. The fixture goals all have non-zero targets (mockData.ts:19, 34, 49, 64, 79), so the bug is latent: it shows only once a goal with target 0 is added to the fixtures | progress 0 for a zero target, as the store does at useStore.ts:53 | not executed | MockData.GetGoalProgressAsWritten, MockData.ZeroTargetIsNaN | MockData.GetGoalProgress |
