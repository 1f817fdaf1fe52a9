/** The rows of the remote `goals` and `daily_records` tables, the view
    models the store keeps, and the normalisation from one to the other
    (store/useStore.ts, loadGoals and loadDailyRecords). */
module Schema {

  import opened Nullable
  import opened Rounding

  /** Row ids and user ids are UUID strings chosen by the database. */
  type Id = string

  datatype User = User(id: Id, email: string, name: string, created_at: string)

  /** A row of the `goals` table; nullable columns are Options. */
  datatype GoalRow = GoalRow(
    id: Id,
    user_id: Id,
    title: string,
    description: Option<string>,
    category: string,
    goal_type: string,
    target_value: Option<int>,
    current_value: Option<int>,
    unit: Option<string>,
    weekly_frequency: Option<int>,
    start_date: string,
    end_date: Option<string>,
    status: string,
    created_at: string,
    updated_at: string)

  /** A row of the `daily_records` table. */
  datatype RecordRow = RecordRow(
    id: Id,
    goal_id: Id,
    date: string,
    value: Option<int>,
    increment: Option<int>,
    completed: Option<bool>,
    note: Option<string>,
    created_at: string)

  /** A goal as the store holds it and the pages show it. It has no current
      value and no goal type: loading keeps only the derived progress. */
  datatype Goal = Goal(
    id: Id,
    user_id: Id,
    title: string,
    description: string,
    category: string,
    start_date: string,
    end_date: string,
    target_value: int,
    unit: string,
    status: string,
    created_at: string,
    updated_at: string,
    progress: int)

  /** A daily record as the store holds it. */
  datatype DailyRecord = DailyRecord(
    id: Id,
    goal_id: Id,
    record_date: string,
    value: int,
    notes: string,
    created_at: string)

  const Active := "active"
  const Completed := "completed"

  predicate IsActive(g: Goal) { g.status == Active }

  predicate IsCompleted(g: Goal) { g.status == Completed }

  /** The test `g.category === category && g.status === 'active'`. */
  function ActiveIn(category: string): Goal -> bool
  {
    (g: Goal) => g.category == category && g.status == Active
  }

  /** The progress percentage of a goal row: 0 when the target is absent
      or 0, otherwise the current value (absent reads as 0) as a rounded
      percentage of the target, capped at 100. */
  function Progress(target_value: Option<int>, current_value: Option<int>): (p: int)
    ensures p <= 100
    ensures target_value.GetOr(0) == 0 ==> p == 0
    ensures target_value.GetOr(0) != 0 && p < 100 ==>
              IsRounded(p, 100 * current_value.GetOr(0), target_value.value)
    ensures target_value.GetOr(0) != 0 ==>
              (p == 100 <==> RoundDiv(100 * current_value.GetOr(0), target_value.value) >= 100)
  {
    if target_value.GetOr(0) != 0 then CappedPercent(current_value.GetOr(0), target_value.value) else 0
  }

  /** For a positive target and a non-negative current value the progress
      is a percentage in 0..100, and it is 100 once the target is reached. */
  lemma ProgressRange(target: int, current: Option<int>)
    requires target > 0 && current.GetOr(0) >= 0
    ensures 0 <= Progress(Some(target), current) <= 100
    ensures current.GetOr(0) >= target ==> Progress(Some(target), current) == 100
  {
    CappedPercentRange(current.GetOr(0), target);
  }

  /** The row-to-goal mapping of loadGoals: absent description, end date and
      unit become '', an absent target becomes 0, and the progress is
      derived from the target and current value. */
  function NormalizeGoal(row: GoalRow): (g: Goal)
    ensures g.id == row.id && g.user_id == row.user_id && g.title == row.title
    ensures g.category == row.category && g.status == row.status && g.start_date == row.start_date
    ensures g.created_at == row.created_at && g.updated_at == row.updated_at
    ensures row.description.Some? ==> g.description == row.description.value
    ensures row.end_date.Some? ==> g.end_date == row.end_date.value
    ensures row.unit.Some? ==> g.unit == row.unit.value
    ensures row.target_value.Some? ==> g.target_value == row.target_value.value
    ensures row.description.None? ==> g.description == ""
    ensures row.end_date.None? ==> g.end_date == ""
    ensures row.unit.None? ==> g.unit == ""
    ensures row.target_value.None? ==> g.target_value == 0 && g.progress == 0
    ensures g.progress == Progress(row.target_value, row.current_value) && g.progress <= 100
  {
    Goal(
      id := row.id,
      user_id := row.user_id,
      title := row.title,
      description := row.description.GetOr(""),
      category := row.category,
      start_date := row.start_date,
      end_date := row.end_date.GetOr(""),
      target_value := row.target_value.GetOr(0),
      unit := row.unit.GetOr(""),
      status := row.status,
      created_at := row.created_at,
      updated_at := row.updated_at,
      progress := Progress(row.target_value, row.current_value))
  }

  /** The row-to-record mapping of loadDailyRecords: the value is read from
      the `increment` column (the `value` column is ignored), 0 when absent;
      an absent note becomes ''. */
  function NormalizeRecord(row: RecordRow): (r: DailyRecord)
    ensures r.id == row.id && r.goal_id == row.goal_id && r.record_date == row.date
    ensures r.created_at == row.created_at
    ensures r.value == row.increment.GetOr(0)
    ensures row.note.Some? ==> r.notes == row.note.value
    ensures row.note.None? ==> r.notes == ""
  {
    DailyRecord(row.id, row.goal_id, row.date, row.increment.GetOr(0), row.note.GetOr(""), row.created_at)
  }

  function NormalizeGoals(rows: seq<GoalRow>): (goals: seq<Goal>)
    ensures |goals| == |rows|
    ensures forall i :: 0 <= i < |rows| ==> goals[i] == NormalizeGoal(rows[i])
  {
    seq(|rows|, i requires 0 <= i < |rows| => NormalizeGoal(rows[i]))
  }

  function NormalizeRecords(rows: seq<RecordRow>): (records: seq<DailyRecord>)
    ensures |records| == |rows|
    ensures forall i :: 0 <= i < |rows| ==> records[i] == NormalizeRecord(rows[i])
  {
    seq(|rows|, i requires 0 <= i < |rows| => NormalizeRecord(rows[i]))
  }
}
