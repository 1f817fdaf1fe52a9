/** The client state store (store/useStore.ts): the signed-in user, the
    loaded goals and daily records, and a loading flag, kept in step with
    the backend by reloading after every write. Each remote request's
    failure is a parameter; a failure is logged by the source and
    otherwise swallowed, so here it only cuts the action short. */
module GoalStore {

  import opened Nullable
  import opened Schema
  import opened Ordering
  import opened Lists
  import opened Remote

  /** view is what loadGoals makes of table: one normalised goal per row,
      newest created_at first. */
  ghost predicate Shows(view: seq<Goal>, table: map<Id, GoalRow>)
  {
    && |view| == |table|
    && (forall i :: 0 <= i < |view| ==> view[i].id in table && view[i] == NormalizeGoal(table[view[i].id]))
    && (forall id :: id in table ==> exists i :: 0 <= i < |view| && view[i].id == id)
    && (forall i, j :: 0 <= i < j < |view| ==> LexLeq(view[j].created_at, view[i].created_at))
  }

  /** view is what loadDailyRecords makes of table: one normalised record
      per row, latest date first. */
  ghost predicate ShowsRecords(view: seq<DailyRecord>, table: map<Id, RecordRow>)
  {
    && |view| == |table|
    && (forall i :: 0 <= i < |view| ==> view[i].id in table && view[i] == NormalizeRecord(table[view[i].id]))
    && (forall id :: id in table ==> exists i :: 0 <= i < |view| && view[i].id == id)
    && (forall i, j :: 0 <= i < j < |view| ==> LexLeq(view[j].record_date, view[i].record_date))
  }

  /** Normalising the rows of an ordered select gives what a load shows. */
  lemma SelectionShows(rows: seq<GoalRow>, table: map<Id, GoalRow>)
    requires KeyedGoals(table)
    requires Selects(rows, table, GoalCreatedAt)
    ensures Shows(NormalizeGoals(rows), table)
  {
    var view := NormalizeGoals(rows);
    forall i, j | 0 <= i < j < |view|
      ensures LexLeq(view[j].created_at, view[i].created_at)
    {
      assert GoalCreatedAt(rows[j]) == view[j].created_at;
      assert GoalCreatedAt(rows[i]) == view[i].created_at;
    }
    forall i | 0 <= i < |view|
      ensures view[i].id in table && view[i] == NormalizeGoal(table[view[i].id])
    {
      var k :| k in table && table[k] == rows[i];
    }
    forall id | id in table
      ensures exists i :: 0 <= i < |view| && view[i].id == id
    {
      var i :| 0 <= i < |rows| && rows[i] == table[id];
      assert view[i].id == id;
    }
  }

  lemma SelectionShowsRecords(rows: seq<RecordRow>, table: map<Id, RecordRow>)
    requires KeyedRecords(table)
    requires Selects(rows, table, RecordDate)
    ensures ShowsRecords(NormalizeRecords(rows), table)
  {
    var view := NormalizeRecords(rows);
    forall i, j | 0 <= i < j < |view|
      ensures LexLeq(view[j].record_date, view[i].record_date)
    {
      assert RecordDate(rows[j]) == view[j].record_date;
      assert RecordDate(rows[i]) == view[i].record_date;
    }
    forall i | 0 <= i < |view|
      ensures view[i].id in table && view[i] == NormalizeRecord(table[view[i].id])
    {
      var k :| k in table && table[k] == rows[i];
    }
    forall id | id in table
      ensures exists i :: 0 <= i < |view| && view[i].id == id
    {
      var i :| 0 <= i < |rows| && rows[i] == table[id];
      assert view[i].id == id;
    }
  }

  function GoalId(g: Goal): Id { g.id }
  function CreatedAt(g: Goal): string { g.created_at }
  function RecordId(r: DailyRecord): Id { r.id }
  function RecordedOn(r: DailyRecord): string { r.record_date }

  /** A load holds no goal twice. */
  lemma ShownGoalsDiffer(view: seq<Goal>, table: map<Id, GoalRow>)
    requires Shows(view, table)
    ensures forall i, j :: 0 <= i < j < |view| ==> view[i] != view[j]
  {
    CoveringKeysDiffer(view, GoalId, table.Keys);
  }

  /** Every goal of one load is in any other load of the same table. */
  lemma ShownGoalsAgree(v1: seq<Goal>, v2: seq<Goal>, table: map<Id, GoalRow>)
    requires Shows(v1, table) && Shows(v2, table)
    ensures forall x :: x in v1 ==> x in v2
  {
    forall x | x in v1 ensures x in v2 {
      var j :| 0 <= j < |v2| && v2[j].id == x.id;
    }
  }

  /** Loading the same goals table twice, with no write between, gives the
      same goals; when no two rows share a creation time, the very same
      list. */
  lemma LoadDeterminate(v1: seq<Goal>, v2: seq<Goal>, table: map<Id, GoalRow>)
    requires Shows(v1, table) && Shows(v2, table)
    ensures multiset(v1) == multiset(v2)
    ensures (forall a, b :: a in table && b in table && table[a].created_at == table[b].created_at ==> a == b) ==>
              v1 == v2
  {
    ShownGoalsDiffer(v1, table);
    ShownGoalsDiffer(v2, table);
    ShownGoalsAgree(v1, v2, table);
    ShownGoalsAgree(v2, v1, table);
    SameElements(v1, v2);
    if forall a, b :: a in table && b in table && table[a].created_at == table[b].created_at ==> a == b {
      assert KeysDiffer(v1, CreatedAt);
      assert SortedDesc(v1, CreatedAt) && SortedDesc(v2, CreatedAt);
      SortedDescUnique(v1, v2, CreatedAt);
    }
  }

  /** A load holds no record twice. */
  lemma ShownRecordsDiffer(view: seq<DailyRecord>, table: map<Id, RecordRow>)
    requires ShowsRecords(view, table)
    ensures forall i, j :: 0 <= i < j < |view| ==> view[i] != view[j]
  {
    CoveringKeysDiffer(view, RecordId, table.Keys);
  }

  /** Every record of one load is in any other load of the same table. */
  lemma ShownRecordsAgree(v1: seq<DailyRecord>, v2: seq<DailyRecord>, table: map<Id, RecordRow>)
    requires ShowsRecords(v1, table) && ShowsRecords(v2, table)
    ensures forall x :: x in v1 ==> x in v2
  {
    forall x | x in v1 ensures x in v2 {
      var j :| 0 <= j < |v2| && v2[j].id == x.id;
    }
  }

  /** The same for the daily records, keyed on their date. */
  lemma LoadRecordsDeterminate(v1: seq<DailyRecord>, v2: seq<DailyRecord>, table: map<Id, RecordRow>)
    requires ShowsRecords(v1, table) && ShowsRecords(v2, table)
    ensures multiset(v1) == multiset(v2)
    ensures (forall a, b :: a in table && b in table && table[a].date == table[b].date ==> a == b) ==>
              v1 == v2
  {
    ShownRecordsDiffer(v1, table);
    ShownRecordsDiffer(v2, table);
    ShownRecordsAgree(v1, v2, table);
    ShownRecordsAgree(v2, v1, table);
    SameElements(v1, v2);
    if forall a, b :: a in table && b in table && table[a].date == table[b].date ==> a == b {
      assert KeysDiffer(v1, RecordedOn);
      assert SortedDesc(v1, RecordedOn) && SortedDesc(v2, RecordedOn);
      SortedDescUnique(v1, v2, RecordedOn);
    }
  }

  /** A deleted goal is absent from every later load. */
  lemma DeletedGoalNotShown(view: seq<Goal>, table: map<Id, GoalRow>, id: Id)
    requires Shows(view, table - {id})
    ensures forall i :: 0 <= i < |view| ==> view[i].id != id
  {
  }

  /** A goal row in the table appears, normalised, in a load of it. */
  lemma {:induction false} RowShown(view: seq<Goal>, table: map<Id, GoalRow>, id: Id)
    requires Shows(view, table) && id in table
    ensures NormalizeGoal(table[id]) in view
  {
    var i :| 0 <= i < |view| && view[i].id == id;
    assert view[i] == NormalizeGoal(table[id]);
  }

  /** A goal at 750 of 900 shows 83; a record of 50 written back by
      addDailyRecord brings it to 800, which shows 89. */
  lemma EightHundredOfNineHundred(row: GoalRow)
    requires row.target_value == Some(900) && row.current_value == Some(750)
    ensures NormalizeGoal(row).progress == 83
    ensures var after := row.(current_value := Some(row.current_value.GetOr(0) + 50));
            after.current_value == Some(800) && NormalizeGoal(after).progress == 89
  {
  }

  class Store {
    var user: Option<User>
    var goals: seq<Goal>
    var dailyRecords: seq<DailyRecord>
    var isLoading: bool
    const db: Backend

    constructor (db: Backend, user: Option<User>)
      ensures this.db == db && this.user == user
      ensures goals == [] && dailyRecords == [] && !isLoading
    {
      this.db := db;
      this.user := user;
      goals := [];
      dailyRecords := [];
      isLoading := false;
    }

    /** setUser */
    method SetUser(user: Option<User>)
      modifies this
      ensures this.user == user
      ensures goals == old(goals) && dailyRecords == old(dailyRecords) && isLoading == old(isLoading)
    {
      this.user := user;
    }

    /** loadGoals: on a failed query the goals are kept; otherwise they
        are replaced by the normalised rows. isLoading ends false. */
    method LoadGoals(fetchFails: bool)
      requires db.Valid()
      modifies this
      ensures !isLoading
      ensures fetchFails ==> goals == old(goals)
      ensures !fetchFails ==> Shows(goals, db.goals)
      ensures user == old(user) && dailyRecords == old(dailyRecords)
    {
      isLoading := true;
      if fetchFails {
        isLoading := false;
        return;
      }
      var rows := db.SelectGoals();
      SelectionShows(rows, db.goals);
      goals := NormalizeGoals(rows);
      isLoading := false;
    }

    /** loadDailyRecords: on a failed query the records are kept; otherwise
        they are replaced by the normalised rows. */
    method LoadDailyRecords(fetchFails: bool)
      requires db.Valid()
      modifies this
      ensures fetchFails ==> dailyRecords == old(dailyRecords)
      ensures !fetchFails ==> ShowsRecords(dailyRecords, db.dailyRecords)
      ensures user == old(user) && goals == old(goals) && isLoading == old(isLoading)
    {
      if fetchFails {
        return;
      }
      var rows := db.SelectRecords();
      SelectionShowsRecords(rows, db.dailyRecords);
      dailyRecords := NormalizeRecords(rows);
    }

    /** addGoal: nothing happens without a user; otherwise the draft is
        inserted as a quantitative goal with current value 0 and, if the
        insert succeeds, the goals are reloaded. */
    method AddGoal(draft: GoalDraft, newId: Id, now: string, insertFails: bool, reloadFails: bool)
      requires db.Valid()
      modifies this, db
      ensures db.Valid()
      ensures db.dailyRecords == old(db.dailyRecords)
      ensures user == old(user) && dailyRecords == old(dailyRecords)
      ensures old(user).None? || insertFails || newId in old(db.goals) ==>
                db.goals == old(db.goals) && goals == old(goals) && isLoading == old(isLoading)
      ensures old(user).Some? && !insertFails && newId !in old(db.goals) ==>
                && db.goals == old(db.goals)[newId := NewGoalRow(draft, old(user).value.id, newId, now)]
                && !isLoading
                && (reloadFails ==> goals == old(goals))
                && (!reloadFails ==> Shows(goals, db.goals))
      ensures old(Synced(db.goals, db.dailyRecords)) && Unreferenced(db.dailyRecords, newId) ==>
                Synced(db.goals, db.dailyRecords)
    {
      if user.None? {
        return;
      }
      if insertFails {
        return;
      }
      var row := NewGoalRow(draft, user.value.id, newId, now);
      var inserted := db.InsertGoal(row);
      if !inserted {
        return;
      }
      if Synced(old(db.goals), db.dailyRecords) && Unreferenced(db.dailyRecords, newId) {
        UnreferencedTotal(db.dailyRecords, newId);
      }
      LoadGoals(reloadFails);
    }

    /** updateGoal: writes the present title, description and status and a
        new updated_at to the row with that id, then reloads. */
    method UpdateGoal(id: Id, patch: GoalPatch, now: string, updateFails: bool, reloadFails: bool)
      requires db.Valid()
      modifies this, db
      ensures db.Valid()
      ensures db.dailyRecords == old(db.dailyRecords)
      ensures user == old(user) && dailyRecords == old(dailyRecords)
      ensures updateFails ==> db.goals == old(db.goals) && goals == old(goals) && isLoading == old(isLoading)
      ensures !updateFails ==>
                && db.goals == (if id in old(db.goals) then old(db.goals)[id := PatchRow(old(db.goals)[id], patch, now)]
                                else old(db.goals))
                && !isLoading
                && (reloadFails ==> goals == old(goals))
                && (!reloadFails ==> Shows(goals, db.goals))
      ensures old(Synced(db.goals, db.dailyRecords)) ==> Synced(db.goals, db.dailyRecords)
    {
      if updateFails {
        return;
      }
      db.UpdateGoal(id, patch, now);
      LoadGoals(reloadFails);
    }

    /** deleteGoal: removes the row with that id and reloads; on a failed
        delete nothing changes and nothing is reloaded. */
    method DeleteGoal(id: Id, deleteFails: bool, reloadFails: bool)
      requires db.Valid()
      modifies this, db
      ensures db.Valid()
      ensures db.dailyRecords == old(db.dailyRecords)
      ensures user == old(user) && dailyRecords == old(dailyRecords)
      ensures deleteFails ==> db.goals == old(db.goals) && goals == old(goals) && isLoading == old(isLoading)
      ensures !deleteFails ==>
                && db.goals == old(db.goals) - {id}
                && !isLoading
                && (reloadFails ==> goals == old(goals))
                && (!reloadFails ==> Shows(goals, db.goals) && forall i :: 0 <= i < |goals| ==> goals[i].id != id)
      ensures old(Synced(db.goals, db.dailyRecords)) ==> Synced(db.goals, db.dailyRecords)
    {
      if deleteFails {
        return;
      }
      db.DeleteGoal(id);
      LoadGoals(reloadFails);
    }

    /** addDailyRecord: inserts the record; if that succeeds, reads the
        goal and writes back its current value (absent reads as 0) plus the
        record's value, then reloads records and goals. The read and the
        write are separate requests, and their failures are ignored. */
    method AddDailyRecord(draft: RecordDraft, newId: Id, now: string,
                          insertFails: bool, readFails: bool, writeFails: bool,
                          recordsReloadFails: bool, goalsReloadFails: bool)
      requires db.Valid()
      modifies this, db
      ensures db.Valid()
      ensures user == old(user)
      ensures insertFails || newId in old(db.dailyRecords) ==>
                && db.goals == old(db.goals) && db.dailyRecords == old(db.dailyRecords)
                && goals == old(goals) && dailyRecords == old(dailyRecords) && isLoading == old(isLoading)
      ensures !insertFails && newId !in old(db.dailyRecords) ==>
                && db.dailyRecords == old(db.dailyRecords)[newId := NewRecordRow(draft, newId, now)]
                && db.goals == (if !readFails && !writeFails && draft.goal_id in old(db.goals)
                                then old(db.goals)[draft.goal_id := old(db.goals)[draft.goal_id].(
                                       current_value := Some(old(db.goals)[draft.goal_id].current_value.GetOr(0) + draft.value))]
                                else old(db.goals))
                && !isLoading
                && (recordsReloadFails ==> dailyRecords == old(dailyRecords))
                && (!recordsReloadFails ==> ShowsRecords(dailyRecords, db.dailyRecords))
                && (goalsReloadFails ==> goals == old(goals))
                && (!goalsReloadFails ==> Shows(goals, db.goals))
      ensures old(Synced(db.goals, db.dailyRecords)) && !readFails && !writeFails ==>
                Synced(db.goals, db.dailyRecords)
    {
      if insertFails {
        return;
      }
      var row := NewRecordRow(draft, newId, now);
      var inserted := db.InsertRecord(row);
      if !inserted {
        return;
      }
      var goal: Option<GoalRow> := None;
      if !readFails {
        goal := db.SelectGoal(draft.goal_id);
      }
      if goal.Some? && !writeFails {
        var newValue := goal.value.current_value.GetOr(0) + draft.value;
        db.SetCurrentValue(draft.goal_id, newValue);
      }
      forall gid | true
        ensures RecordedTotal(db.dailyRecords, gid) == Contribution(row, gid) + RecordedTotal(old(db.dailyRecords), gid)
      {
        RecordedTotalInsert(old(db.dailyRecords), row, gid);
      }
      LoadDailyRecords(recordsReloadFails);
      LoadGoals(goalsReloadFails);
    }
  }
}
