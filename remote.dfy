/** The hosted backend as the store sees it: the `goals` and
    `daily_records` tables, each a map from row id to row, and the queries
    and writes the store sends (store/useStore.ts). Whether a request
    fails is decided by the caller; the database's own answers (a missing
    row, a duplicate primary key) are modelled here. */
module Remote {

  import opened Nullable
  import opened Schema
  import opened Ordering

  /** What a page hands to addGoal. */
  datatype GoalDraft = GoalDraft(
    title: string,
    description: string,
    category: string,
    target_value: int,
    unit: string,
    start_date: string,
    end_date: string,
    status: string)

  /** The fields of `updates` that updateGoal forwards; an absent field is
      dropped from the request body and leaves its column as it was. */
  datatype GoalPatch = GoalPatch(title: Option<string>, description: Option<string>, status: Option<string>)

  /** What a page hands to addDailyRecord. */
  datatype RecordDraft = RecordDraft(goal_id: Id, record_date: string, value: int, notes: string)

  /** The row addGoal inserts for a user; the database supplies the id and
      both timestamps. */
  function NewGoalRow(draft: GoalDraft, user_id: Id, id: Id, now: string): (row: GoalRow)
    ensures row.id == id && row.user_id == user_id
    ensures row.goal_type == "quantitative" && row.current_value == Some(0)
    ensures row.weekly_frequency.None?
  {
    GoalRow(
      id := id,
      user_id := user_id,
      title := draft.title,
      description := Some(draft.description),
      category := draft.category,
      goal_type := "quantitative",
      target_value := Some(draft.target_value),
      current_value := Some(0),
      unit := Some(draft.unit),
      weekly_frequency := None,
      start_date := draft.start_date,
      end_date := Some(draft.end_date),
      status := draft.status,
      created_at := now,
      updated_at := now)
  }

  /** A freshly added goal loads back as the draft it came from, with
      progress 0. */
  lemma NewGoalLoadsAsDraft(draft: GoalDraft, user_id: Id, id: Id, now: string)
    ensures NormalizeGoal(NewGoalRow(draft, user_id, id, now)) ==
      Goal(id, user_id, draft.title, draft.description, draft.category, draft.start_date,
           draft.end_date, draft.target_value, draft.unit, draft.status, now, now, 0)
  {
    var t := draft.target_value;
    if t != 0 {
      var p := Progress(Some(t), Some(0));
      if p < 100 {
        Rounding.RoundedUnique(p, 0, 0, t);
      } else {
        Rounding.RoundedUnique(Rounding.RoundDiv(0, t), 0, 0, t);
      }
    }
  }

  /** The row updateGoal leaves behind: each present patch field replaces
      its column, updated_at becomes now, every other column is kept. */
  function PatchRow(row: GoalRow, patch: GoalPatch, now: string): (r: GoalRow)
    ensures r.(title := row.title, description := row.description, status := row.status,
               updated_at := row.updated_at) == row
    ensures r.updated_at == now
    ensures r.title == patch.title.GetOr(row.title)
    ensures r.status == patch.status.GetOr(row.status)
    ensures patch.description.Some? ==> r.description == patch.description
    ensures patch.description.None? ==> r.description == row.description
  {
    row.(
      title := patch.title.GetOr(row.title),
      description := if patch.description.Some? then patch.description else row.description,
      status := patch.status.GetOr(row.status),
      updated_at := now)
  }

  /** The row the daily-record insert sends: the value goes to the
      `increment` column and the notes to `note`. */
  function NewRecordRow(draft: RecordDraft, id: Id, now: string): (row: RecordRow)
    ensures row.id == id && row.goal_id == draft.goal_id
    ensures row.increment == Some(draft.value)
  {
    RecordRow(id, draft.goal_id, draft.record_date, None, Some(draft.value), None, Some(draft.notes), now)
  }

  /** An inserted daily record loads back with the value and notes it was
      written with. */
  lemma NewRecordLoadsAsDraft(draft: RecordDraft, id: Id, now: string)
    ensures NormalizeRecord(NewRecordRow(draft, id, now)) ==
      DailyRecord(id, draft.goal_id, draft.record_date, draft.value, draft.notes, now)
  {
  }

  function GoalCreatedAt(row: GoalRow): string { row.created_at }

  function RecordDate(row: RecordRow): string { row.date }

  /** Every row is stored under its own id. */
  ghost predicate KeyedGoals(table: map<Id, GoalRow>)
  {
    forall id :: id in table ==> table[id].id == id
  }

  ghost predicate KeyedRecords(table: map<Id, RecordRow>)
  {
    forall id :: id in table ==> table[id].id == id
  }

  /** How much one record adds to goal gid's running total. */
  function Contribution(row: RecordRow, gid: Id): int
  {
    if row.goal_id == gid then row.increment.GetOr(0) else 0
  }

  /** The sum of the increments recorded for goal gid. */
  ghost function RecordedTotal(records: map<Id, RecordRow>, gid: Id): int
    decreases |records|
  {
    if records == map[] then 0
    else
      var k :| k in records;
      Contribution(records[k], gid) + RecordedTotal(records - {k}, gid)
  }

  /** The total does not depend on which record the definition picks
      first: any record can be split off. */
  lemma {:induction false} RecordedTotalSplit(records: map<Id, RecordRow>, k: Id, gid: Id)
    requires k in records
    ensures RecordedTotal(records, gid) == Contribution(records[k], gid) + RecordedTotal(records - {k}, gid)
    decreases |records|
  {
    var j :| j in records && RecordedTotal(records, gid) ==
      Contribution(records[j], gid) + RecordedTotal(records - {j}, gid);
    if j != k {
      var rest := records - {j};
      assert k in rest;
      RecordedTotalSplit(rest, k, gid);
      assert (rest - {k}) == (records - {k}) - {j};
      assert j in records - {k};
      RecordedTotalSplit(records - {k}, j, gid);
    }
  }

  /** Inserting a record under a fresh id adds exactly its increment to its
      own goal's total and nothing to any other. */
  lemma RecordedTotalInsert(records: map<Id, RecordRow>, row: RecordRow, gid: Id)
    requires row.id !in records
    ensures RecordedTotal(records[row.id := row], gid) == Contribution(row, gid) + RecordedTotal(records, gid)
  {
    var after := records[row.id := row];
    RecordedTotalSplit(after, row.id, gid);
    assert after - {row.id} == records;
  }

  /** The synchronisation invariant of the goals table: every goal's
      current value (absent reads as 0) is the sum of its records'
      increments. */
  ghost predicate Synced(goals: map<Id, GoalRow>, records: map<Id, RecordRow>)
  {
    forall id :: id in goals ==> goals[id].current_value.GetOr(0) == RecordedTotal(records, id)
  }

  /** No record refers to goal id. */
  ghost predicate Unreferenced(records: map<Id, RecordRow>, id: Id)
  {
    forall k :: k in records ==> records[k].goal_id != id
  }

  lemma {:induction false} UnreferencedTotal(records: map<Id, RecordRow>, id: Id)
    requires Unreferenced(records, id)
    ensures RecordedTotal(records, id) == 0
    decreases |records|
  {
    if records != map[] {
      var k :| k in records;
      RecordedTotalSplit(records, k, id);
      UnreferencedTotal(records - {k}, id);
    }
  }

  /** The invariant needs the read-modify-write that follows the insert:
      a record of a non-zero value inserted without it leaves its goal out
      of step. */
  lemma UnwrittenRecordBreaksSync(goal: GoalRow, draft: RecordDraft, newId: Id, now: string)
    requires goal.id == draft.goal_id && goal.current_value == Some(0) && draft.value != 0
    ensures Synced(map[goal.id := goal], map[])
    ensures !Synced(map[goal.id := goal], map[newId := NewRecordRow(draft, newId, now)])
  {
    var row := NewRecordRow(draft, newId, now);
    RecordedTotalInsert(map[], row, goal.id);
    assert map[][newId := row] == map[newId := row];
  }

  class Backend {
    var goals: map<Id, GoalRow>
    var dailyRecords: map<Id, RecordRow>

    ghost predicate Valid()
      reads this
    {
      KeyedGoals(goals) && KeyedRecords(dailyRecords)
    }

    constructor ()
      ensures Valid() && goals == map[] && dailyRecords == map[]
    {
      goals := map[];
      dailyRecords := map[];
    }

    /** The goals query: every row, newest created_at first. */
    method SelectGoals() returns (rows: seq<GoalRow>)
      ensures Selects(rows, goals, GoalCreatedAt)
    {
      rows := SelectDesc(goals, GoalCreatedAt);
    }

    /** The daily records query: every row, latest date first. */
    method SelectRecords() returns (rows: seq<RecordRow>)
      ensures Selects(rows, dailyRecords, RecordDate)
    {
      rows := SelectDesc(dailyRecords, RecordDate);
    }

    /** The single-row read of one goal: the row, or
        nothing when no row has that id. */
    method SelectGoal(id: Id) returns (row: Option<GoalRow>)
      ensures row.Some? <==> id in goals
      ensures row.Some? ==> row.value == goals[id]
    {
      row := if id in goals then Some(goals[id]) else None;
    }

    /** Insert into goals; a duplicate primary key is refused. */
    method InsertGoal(row: GoalRow) returns (inserted: bool)
      requires Valid()
      modifies this
      ensures Valid()
      ensures inserted == (row.id !in old(goals))
      ensures goals == if inserted then old(goals)[row.id := row] else old(goals)
      ensures dailyRecords == old(dailyRecords)
    {
      inserted := row.id !in goals;
      if inserted {
        goals := goals[row.id := row];
      }
    }

    /** Update of the goal with that id; no row matching is not
        an error. */
    method UpdateGoal(id: Id, patch: GoalPatch, now: string)
      requires Valid()
      modifies this
      ensures Valid()
      ensures goals == if id in old(goals) then old(goals)[id := PatchRow(old(goals)[id], patch, now)]
                       else old(goals)
      ensures dailyRecords == old(dailyRecords)
    {
      if id in goals {
        goals := goals[id := PatchRow(goals[id], patch, now)];
      }
    }

    /** Write of the current value of the goal with that id. */
    method SetCurrentValue(id: Id, value: int)
      requires Valid()
      modifies this
      ensures Valid()
      ensures goals == if id in old(goals) then old(goals)[id := old(goals)[id].(current_value := Some(value))]
                       else old(goals)
      ensures dailyRecords == old(dailyRecords)
    {
      if id in goals {
        goals := goals[id := goals[id].(current_value := Some(value))];
      }
    }

    /** Delete of the goal with that id. */
    method DeleteGoal(id: Id)
      requires Valid()
      modifies this
      ensures Valid()
      ensures goals == old(goals) - {id}
      ensures dailyRecords == old(dailyRecords)
    {
      goals := goals - {id};
    }

    /** Insert into daily_records; a duplicate primary key is
        refused. */
    method InsertRecord(row: RecordRow) returns (inserted: bool)
      requires Valid()
      modifies this
      ensures Valid()
      ensures inserted == (row.id !in old(dailyRecords))
      ensures dailyRecords == if inserted then old(dailyRecords)[row.id := row] else old(dailyRecords)
      ensures goals == old(goals)
    {
      inserted := row.id !in dailyRecords;
      if inserted {
        dailyRecords := dailyRecords[row.id := row];
      }
    }
  }
}
