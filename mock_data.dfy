/** The statistics helpers of lib/mockData.ts. They read the module's
    fixture arrays `mockGoals` and `mockDailyRecords`; here those arrays are
    parameters. */
module MockData {

  import opened Nullable
  import opened Rounding
  import opened Schema
  import opened Lists

  function HasId(id: Id): Goal -> bool
  {
    (g: Goal) => g.id == id
  }

  function ForGoal(id: Id): DailyRecord -> bool
  {
    (r: DailyRecord) => r.goal_id == id
  }

  function RecordValue(r: DailyRecord): int { r.value }

  /** The summed value of the records of one goal. */
  function RecordsTotal(records: seq<DailyRecord>, goalId: Id): (total: int)
    ensures (forall i :: 0 <= i < |records| ==> records[i].goal_id != goalId) ==> total == 0
    ensures (forall i :: 0 <= i < |records| ==> records[i].value >= 0) ==> total >= 0
  {
    var total := Sum(Filter(records, ForGoal(goalId)), RecordValue);
    assert (forall i :: 0 <= i < |records| ==> records[i].value >= 0) ==> total >= 0 by {
      if forall i :: 0 <= i < |records| ==> records[i].value >= 0 {
        FilteredSumNonNegative(records, ForGoal(goalId), RecordValue);
      }
    }
    total
  }

  /** A further record adds its value to its own goal's total and leaves
      every other goal's total as it was. */
  lemma RecordsTotalAppend(records: seq<DailyRecord>, r: DailyRecord, goalId: Id)
    ensures RecordsTotal(records + [r], goalId) ==
            RecordsTotal(records, goalId) + (if r.goal_id == goalId then r.value else 0)
  {
    FilterAppend(records, r, ForGoal(goalId));
    SumAppend(Filter(records, ForGoal(goalId)), if r.goal_id == goalId then [r] else [], RecordValue);
  }

  /** The outcomes a JavaScript number computation reaches in
      getGoalProgress: a finite value, NaN (from 0 / 0) or -Infinity (from
      a negative total over 0). */
  datatype Number = Finite(n: int) | NaN | NegativeInfinity

  /** getGoalProgress as written: the capped rounded percentage with no
      guard against a zero target. Over 0, a positive total gives
      min(Infinity, 100) = 100, a zero total gives NaN and a negative total
      gives -Infinity. */
  function GetGoalProgressAsWritten(goals: seq<Goal>, records: seq<DailyRecord>, goalId: Id): (r: Number)
    ensures Find(goals, HasId(goalId)).None? ==> r == Finite(0)
  {
    match Find(goals, HasId(goalId))
    case None => Finite(0)
    case Some(goal) =>
      var total := RecordsTotal(records, goalId);
      if goal.target_value != 0 then Finite(CappedPercent(total, goal.target_value))
      else if total > 0 then Finite(100)
      else if total == 0 then NaN
      else NegativeInfinity
  }

  /** A goal with target 0 and no records has progress NaN as written. */
  lemma ZeroTargetIsNaN(goal: Goal)
    requires goal.target_value == 0
    ensures GetGoalProgressAsWritten([goal], [], goal.id) == NaN
  {
    assert Find([goal], HasId(goal.id)) == Some(goal);
  }

  /** getGoalProgress with the guard the store applies to the same
      formula: 0 when no goal has the id; otherwise the store's progress of
      the first such goal, with the records' total as its current value. */
  function GetGoalProgress(goals: seq<Goal>, records: seq<DailyRecord>, goalId: Id): (p: int)
    ensures p <= 100
    ensures (forall i :: 0 <= i < |goals| ==> goals[i].id != goalId) ==> p == 0
    ensures Find(goals, HasId(goalId)).Some? ==>
              p == Progress(Some(Find(goals, HasId(goalId)).value.target_value), Some(RecordsTotal(records, goalId)))
  {
    match Find(goals, HasId(goalId))
    case None => 0
    case Some(goal) => Progress(Some(goal.target_value), Some(RecordsTotal(records, goalId)))
  }

  /** With positive targets and records that never subtract, the progress
      lies in 0..100, and a goal whose records reach its target shows 100. */
  lemma GoalProgressRange(goals: seq<Goal>, records: seq<DailyRecord>, goalId: Id)
    requires forall i :: 0 <= i < |goals| ==> goals[i].target_value > 0
    requires forall i :: 0 <= i < |records| ==> records[i].value >= 0
    ensures 0 <= GetGoalProgress(goals, records, goalId) <= 100
    ensures Find(goals, HasId(goalId)).Some? && RecordsTotal(records, goalId) >= Find(goals, HasId(goalId)).value.target_value ==>
              GetGoalProgress(goals, records, goalId) == 100
  {
    match Find(goals, HasId(goalId))
    case None =>
    case Some(goal) =>
      FilteredSumNonNegative(records, ForGoal(goalId), RecordValue);
      ProgressRange(goal.target_value, Some(RecordsTotal(records, goalId)));
  }

  /** The guarded version differs from the source only where the source
      divides by a zero target. */
  lemma GuardedAgreesWithAsWritten(goals: seq<Goal>, records: seq<DailyRecord>, goalId: Id)
    requires Find(goals, HasId(goalId)).Some? ==> Find(goals, HasId(goalId)).value.target_value != 0
    ensures GetGoalProgressAsWritten(goals, records, goalId) == Finite(GetGoalProgress(goals, records, goalId))
  {
  }

  /** One `{ name, value }` entry of the category distribution. */
  datatype Slice = Slice(name: string, value: int)

  function SliceValue(s: Slice): int { s.value }

  function InCategory(category: string): Goal -> bool
  {
    (g: Goal) => g.category == category
  }

  /** The number of active goals with the given category. */
  function CountActiveIn(goals: seq<Goal>, category: string): nat
  {
    |Filter(goals, ActiveIn(category))|
  }

  /** A category's count is at most the number of goals, and it is
      positive exactly when some active goal has that category. */
  lemma CountActiveInBounds(goals: seq<Goal>, category: string)
    ensures CountActiveIn(goals, category) <= |goals|
    ensures CountActiveIn(goals, category) > 0 <==>
              exists i :: 0 <= i < |goals| && goals[i].category == category && goals[i].status == Active
  {
    var active := Filter(goals, ActiveIn(category));
    if |active| > 0 {
      assert active[0] in goals;
    }
  }

  /** The dictionary's entries as `{ name, value }` pairs, keys in
      insertion order. */
  function Entries(keys: seq<string>, counts: map<string, int>): (r: seq<Slice>)
    requires forall i :: 0 <= i < |keys| ==> keys[i] in counts
    ensures |r| == |keys|
    ensures forall i :: 0 <= i < |keys| ==> r[i] == Slice(keys[i], counts[keys[i]])
  {
    seq(|keys|, i requires 0 <= i < |keys| => Slice(keys[i], counts[keys[i]]))
  }

  ghost predicate Distinct(keys: seq<string>)
  {
    forall i, j :: 0 <= i < j < |keys| ==> keys[i] != keys[j]
  }

  /** The sum of the counts of keys. */
  function Total(keys: seq<string>, counts: map<string, int>): int
    requires forall i :: 0 <= i < |keys| ==> keys[i] in counts
  {
    if keys == [] then 0 else counts[keys[0]] + Total(keys[1..], counts)
  }

  lemma {:induction false} EntriesTotal(keys: seq<string>, counts: map<string, int>)
    requires forall i :: 0 <= i < |keys| ==> keys[i] in counts
    ensures Sum(Entries(keys, counts), SliceValue) == Total(keys, counts)
  {
    if keys != [] {
      assert Entries(keys, counts)[1..] == Entries(keys[1..], counts);
      EntriesTotal(keys[1..], counts);
    }
  }

  lemma {:induction false} TotalAppend(keys: seq<string>, counts: map<string, int>, c: string)
    requires forall i :: 0 <= i < |keys| ==> keys[i] in counts
    requires c in counts
    ensures Total(keys + [c], counts) == Total(keys, counts) + counts[c]
  {
    if keys != [] {
      assert (keys + [c])[1..] == keys[1..] + [c];
      TotalAppend(keys[1..], counts, c);
    } else {
      assert keys + [c] == [c];
    }
  }

  /** Changing the count of a key that is not listed leaves the total. */
  lemma {:induction false} TotalUnlisted(keys: seq<string>, counts: map<string, int>, c: string, v: int)
    requires forall i :: 0 <= i < |keys| ==> keys[i] in counts
    requires c !in keys
    ensures Total(keys, counts[c := v]) == Total(keys, counts)
  {
    if keys != [] {
      TotalUnlisted(keys[1..], counts, c, v);
    }
  }

  /** Adding one to the count of a key listed once adds one to the total. */
  lemma {:induction false} TotalBump(keys: seq<string>, counts: map<string, int>, c: string)
    requires forall i :: 0 <= i < |keys| ==> keys[i] in counts
    requires Distinct(keys) && c in keys
    ensures Total(keys, counts[c := counts[c] + 1]) == Total(keys, counts) + 1
  {
    if keys[0] == c {
      assert c !in keys[1..] by {
        forall i | 0 <= i < |keys| - 1 ensures keys[1..][i] != c { assert keys[i + 1] != keys[0]; }
      }
      TotalUnlisted(keys[1..], counts, c, counts[c] + 1);
    } else {
      TotalBump(keys[1..], counts, c);
    }
  }

  /** The categories of the goals, in order. */
  function Categories(seen: seq<Goal>): (cs: seq<string>)
    ensures |cs| == |seen| && forall i :: 0 <= i < |seen| ==> cs[i] == seen[i].category
  {
    seq(|seen|, i requires 0 <= i < |seen| => seen[i].category)
  }

  /** cs with every copy of c removed. */
  function Without(cs: seq<string>, c: string): (r: seq<string>)
    ensures |r| <= |cs|
  {
    if cs == [] then []
    else if cs[0] == c then Without(cs[1..], c)
    else [cs[0]] + Without(cs[1..], c)
  }

  lemma {:induction false} WithoutMembers(cs: seq<string>, c: string)
    ensures forall d :: d in Without(cs, c) <==> d in cs && d != c
  {
    if cs != [] {
      WithoutMembers(cs[1..], c);
      assert cs == [cs[0]] + cs[1..];
    }
  }

  lemma {:induction false} WithoutAppend(cs: seq<string>, x: string, c: string)
    ensures Without(cs + [x], c) == Without(cs, c) + (if x == c then [] else [x])
  {
    if cs == [] {
      assert [x][1..] == [];
    } else {
      assert (cs + [x])[1..] == cs[1..] + [x];
      WithoutAppend(cs[1..], x, c);
    }
  }

  /** The strings of cs in order of first appearance: the first one, then
      the first appearances among the rest once its copies are removed. */
  function Dedup(cs: seq<string>): seq<string>
    decreases |cs|
  {
    if cs == [] then [] else [cs[0]] + Dedup(Without(cs[1..], cs[0]))
  }

  /** Each string of cs is listed once, and nothing else is. */
  lemma {:induction false} DedupLists(cs: seq<string>)
    ensures Distinct(Dedup(cs))
    ensures forall d :: d in Dedup(cs) <==> d in cs
    decreases |cs|
  {
    if cs != [] {
      var rest := Without(cs[1..], cs[0]);
      DedupLists(rest);
      WithoutMembers(cs[1..], cs[0]);
      assert cs == [cs[0]] + cs[1..];
      var r := Dedup(cs);
      assert r == [cs[0]] + Dedup(rest);
      forall a, b | 0 <= a < b < |r| ensures r[a] != r[b] {
        assert r[b] == Dedup(rest)[b - 1];
        if a > 0 {
          assert r[a] == Dedup(rest)[a - 1];
        } else {
          assert Dedup(rest)[b - 1] in Dedup(rest);
        }
      }
    }
  }

  /** One more string is added at the end exactly when it is new. */
  lemma {:induction false} DedupAppend(cs: seq<string>, x: string)
    ensures Dedup(cs + [x]) == Dedup(cs) + (if x in Dedup(cs) then [] else [x])
    decreases |cs|
  {
    if cs == [] {
      assert [x][1..] == [];
    } else {
      var rest := Without(cs[1..], cs[0]);
      assert (cs + [x])[0] == cs[0] && (cs + [x])[1..] == cs[1..] + [x];
      WithoutAppend(cs[1..], x, cs[0]);
      assert Dedup(cs) == [cs[0]] + Dedup(rest);
      if x == cs[0] {
        assert Without((cs + [x])[1..], cs[0]) == rest + [] == rest;
      } else {
        assert Dedup(cs + [x]) == [cs[0]] + Dedup(rest + [x]);
        DedupAppend(rest, x);
      }
    }
  }

  /** The categories of seen in order of first appearance. */
  function FirstAppearances(seen: seq<Goal>): seq<string>
  {
    Dedup(Categories(seen))
  }

  /** Each category met is listed once, and nothing else is. */
  lemma FirstAppearancesLists(seen: seq<Goal>)
    ensures Distinct(FirstAppearances(seen))
    ensures forall c :: c in FirstAppearances(seen) <==> exists i :: 0 <= i < |seen| && seen[i].category == c
  {
    DedupLists(Categories(seen));
  }

  /** Meeting one more goal adds its category at the end when it is new. */
  lemma FirstAppearancesAppend(seen: seq<Goal>, g: Goal)
    ensures FirstAppearances(seen + [g]) ==
            FirstAppearances(seen) + (if g.category in FirstAppearances(seen) then [] else [g.category])
  {
    assert Categories(seen + [g]) == Categories(seen) + [g.category];
    DedupAppend(Categories(seen), g.category);
  }

  /** The listed keys are exactly the distribution's keys, each once. */
  ghost predicate KeyOrder(distribution: map<string, int>, keys: seq<string>)
  {
    (forall c :: c in distribution <==> c in keys) && Distinct(keys)
  }

  /** Each key counts the goals of seen in its category. */
  ghost predicate Counted(distribution: map<string, int>, seen: seq<Goal>)
  {
    && (forall c :: c in distribution ==> 1 <= distribution[c] == |Filter(seen, InCategory(c))|)
    && (forall i :: 0 <= i < |seen| ==> seen[i].category in distribution)
  }

  /** What the loop of getCategoryDistribution knows after visiting the
      goals in seen: the keys are exactly the categories met, each once, in
      order of first appearance, each counted by how many goals in seen have
      it, and the counts add up to |seen|. */
  ghost predicate Tally(distribution: map<string, int>, keys: seq<string>, seen: seq<Goal>)
  {
    && keys == FirstAppearances(seen)
    && KeyOrder(distribution, keys)
    && Counted(distribution, seen)
    && Total(keys, distribution) == |seen|
  }

  /** The dictionary after counting one more goal of category c. */
  function Bumped(distribution: map<string, int>, c: string): (after: map<string, int>)
    ensures after.Keys == distribution.Keys + {c}
    ensures after[c] == if c in distribution then distribution[c] + 1 else 1
    ensures forall d :: d in distribution && d != c ==> after[d] == distribution[d]
  {
    distribution[c := (if c in distribution then distribution[c] else 0) + 1]
  }

  /** A key met for the first time goes after the existing ones. */
  function KeysAfter(keys: seq<string>, distribution: map<string, int>, c: string): seq<string>
  {
    if c in distribution then keys else keys + [c]
  }

  /** One step of the loop keeps the tally. */
  lemma TallyStep(distribution: map<string, int>, keys: seq<string>, seen: seq<Goal>, g: Goal)
    requires Tally(distribution, keys, seen)
    ensures Tally(Bumped(distribution, g.category), KeysAfter(keys, distribution, g.category), seen + [g])
  {
    TallyCounts(distribution, seen, g);
    FirstAppearancesAppend(seen, g);
    TallyKeys(distribution, keys, g.category);
    TallySum(distribution, keys, g.category);
  }

  lemma TallyCounts(distribution: map<string, int>, seen: seq<Goal>, g: Goal)
    requires Counted(distribution, seen)
    ensures Counted(Bumped(distribution, g.category), seen + [g])
  {
    var after := Bumped(distribution, g.category);
    forall d | d in after
      ensures 1 <= after[d] == |Filter(seen + [g], InCategory(d))|
    {
      FilterAppend(seen, g, InCategory(d));
    }
    forall i | 0 <= i < |seen| + 1 ensures (seen + [g])[i].category in after {
      if i < |seen| { assert (seen + [g])[i] == seen[i]; }
    }
  }

  lemma TallyKeys(distribution: map<string, int>, keys: seq<string>, c: string)
    requires KeyOrder(distribution, keys)
    ensures KeyOrder(Bumped(distribution, c), KeysAfter(keys, distribution, c))
  {
  }

  lemma TallySum(distribution: map<string, int>, keys: seq<string>, c: string)
    requires KeyOrder(distribution, keys)
    ensures Total(KeysAfter(keys, distribution, c), Bumped(distribution, c)) == Total(keys, distribution) + 1
  {
    var after := Bumped(distribution, c);
    if c in distribution {
      TotalBump(keys, distribution, c);
    } else {
      TotalUnlisted(keys, distribution, c, 1);
      TotalAppend(keys, after, c);
    }
  }

  /** No category appears twice among the slices. */
  ghost predicate DistinctNames(slices: seq<Slice>)
  {
    forall i, j :: 0 <= i < j < |slices| ==> slices[i].name != slices[j].name
  }

  /** The slices carry the names, in the same order. */
  ghost predicate NamedInOrder(slices: seq<Slice>, names: seq<string>)
  {
    |slices| == |names| && forall i :: 0 <= i < |slices| ==> slices[i].name == names[i]
  }

  /** Each slice counts the active goals of its category, and none is empty. */
  ghost predicate CountsActive(goals: seq<Goal>, slices: seq<Slice>)
  {
    forall i :: 0 <= i < |slices| ==> 1 <= slices[i].value == CountActiveIn(goals, slices[i].name)
  }

  /** Every active goal's category has a slice. */
  ghost predicate CoversActive(goals: seq<Goal>, slices: seq<Slice>)
  {
    forall k :: 0 <= k < |goals| && IsActive(goals[k]) ==>
      exists i :: 0 <= i < |slices| && slices[i].name == goals[k].category
  }

  /** Each entry of the finished tally over the active goals counts the
      active goals of its category. */
  lemma TallyCountsActive(goals: seq<Goal>, distribution: map<string, int>, keys: seq<string>)
    requires KeyOrder(distribution, keys)
    requires Counted(distribution, Filter(goals, IsActive))
    ensures CountsActive(goals, Entries(keys, distribution))
  {
    var slices := Entries(keys, distribution);
    forall i | 0 <= i < |slices|
      ensures 1 <= slices[i].value == CountActiveIn(goals, slices[i].name)
    {
      FilterTwice(goals, IsActive, InCategory(keys[i]), ActiveIn(keys[i]));
    }
  }

  /** Every active goal's category has an entry in the finished tally. */
  lemma TallyCoversActive(goals: seq<Goal>, distribution: map<string, int>, keys: seq<string>)
    requires KeyOrder(distribution, keys)
    requires forall i :: 0 <= i < |Filter(goals, IsActive)| ==> Filter(goals, IsActive)[i].category in distribution
    ensures CoversActive(goals, Entries(keys, distribution))
  {
    var active := Filter(goals, IsActive);
    var slices := Entries(keys, distribution);
    forall k | 0 <= k < |goals| && IsActive(goals[k])
      ensures exists i :: 0 <= i < |slices| && slices[i].name == goals[k].category
    {
      var j :| 0 <= j < |active| && active[j] == goals[k];
      assert goals[k].category in distribution;
      var i :| 0 <= i < |keys| && keys[i] == goals[k].category;
      assert slices[i].name == goals[k].category;
    }
  }

  /** The entries carry the keys, in the keys' order. */
  lemma EntriesInOrder(distribution: map<string, int>, keys: seq<string>)
    requires KeyOrder(distribution, keys)
    ensures NamedInOrder(Entries(keys, distribution), keys)
  {
  }

  /** The entries of a tally have distinct names. */
  lemma EntriesDistinct(distribution: map<string, int>, keys: seq<string>)
    requires KeyOrder(distribution, keys)
    ensures DistinctNames(Entries(keys, distribution))
  {
  }

  /** The forEach of getCategoryDistribution: one more for each goal's
      category, with the keys kept in insertion order as a JavaScript
      object keeps them. */
  method CountByCategory(active: seq<Goal>) returns (distribution: map<string, int>, keys: seq<string>)
    ensures keys == FirstAppearances(active)
    ensures KeyOrder(distribution, keys)
    ensures Counted(distribution, active)
    ensures Total(keys, distribution) == |active|
  {
    distribution := map[];
    keys := [];
    for k := 0 to |active|
      invariant Tally(distribution, keys, active[..k])
    {
      var c := active[k].category;
      TallyStep(distribution, keys, active[..k], active[k]);
      PrefixStep(active, k);
      if c !in distribution {
        keys := keys + [c];
      }
      distribution := Bumped(distribution, c);
    }
    PrefixWhole(active);
  }

  /** getCategoryDistribution: the number of active goals per category, one
      entry per category in order of first appearance among the active
      goals. */
  method GetCategoryDistribution(goals: seq<Goal>) returns (slices: seq<Slice>)
    ensures NamedInOrder(slices, FirstAppearances(Filter(goals, IsActive)))
    ensures DistinctNames(slices)
    ensures CountsActive(goals, slices)
    ensures CoversActive(goals, slices)
    ensures Sum(slices, SliceValue) == |Filter(goals, IsActive)|
  {
    var distribution, keys := CountByCategory(Filter(goals, IsActive));
    EntriesInOrder(distribution, keys);
    EntriesDistinct(distribution, keys);
    TallyCountsActive(goals, distribution, keys);
    TallyCoversActive(goals, distribution, keys);
    EntriesTotal(keys, distribution);
    slices := Entries(keys, distribution);
  }
}
