/**
 * The goals page: the `user_goals` table with its lookup and its
 * insert-or-update save, and the weekly check of this week's total against
 * the target.
 */
module Goals {
  import opened Wrappers
  import opened Dates
  import opened Sequences
  import opened Entries

  /** One row of `user_goals`. */
  datatype GoalRow = GoalRow(userId: Option<string>, target: real)

  /** The target the number input starts from when no usable goal is stored. */
  const DefaultWeeklyTarget: real := 20.0

  /** The first row of `userId`, as `fetchone()` returns it. */
  function FirstTarget(rows: seq<GoalRow>, userId: Option<string>): (r: Option<real>)
    ensures r.None? <==> forall i :: 0 <= i < |rows| ==> rows[i].userId != userId
    ensures r.Some? ==> exists i :: 0 <= i < |rows| && rows[i].userId == userId && rows[i].target == r.value
                                    && forall j :: 0 <= j < i ==> rows[j].userId != userId
  {
    if rows == [] then None
    else if rows[0].userId == userId then Some(rows[0].target)
    else
      var r := FirstTarget(rows[1..], userId);
      assert forall i :: 1 <= i < |rows| ==> rows[i] == rows[1..][i - 1];
      r
  }

  /** `current`: looked up only for a truthy user id. */
  function Lookup(rows: seq<GoalRow>, userId: Option<string>): (current: Option<real>)
    ensures !Truthy(userId) ==> current == None
    ensures Truthy(userId) ==> current == FirstTarget(rows, userId)
  {
    if Truthy(userId) then FirstTarget(rows, userId) else None
  }

  /** `current or 20.0`: a missing goal and a stored 0.0 both give the default. */
  function InitialTarget(current: Option<real>): (t: real)
    ensures current.None? ==> t == DefaultWeeklyTarget
    ensures current == Some(0.0) ==> t == DefaultWeeklyTarget
    ensures current.Some? && current.value != 0.0 ==> t == current.value
  {
    match current
    case Some(v) => if v != 0.0 then v else DefaultWeeklyTarget
    case None => DefaultWeeklyTarget
  }

  /** `UPDATE user_goals SET weekly_target=? WHERE user_id=?`. */
  function SetTarget(rows: seq<GoalRow>, userId: Option<string>, target: real): (r: seq<GoalRow>)
    ensures |r| == |rows|
    ensures forall i :: 0 <= i < |rows| ==>
              r[i] == if rows[i].userId == userId then GoalRow(userId, target) else rows[i]
  {
    seq(|rows|, i requires 0 <= i < |rows| => if rows[i].userId == userId then GoalRow(userId, target) else rows[i])
  }

  /** At most one row per signed-in user. */
  predicate OneRowPerUser(rows: seq<GoalRow>) {
    forall i, j :: 0 <= i < j < |rows| && Truthy(rows[i].userId) ==> rows[i].userId != rows[j].userId
  }

  /**
   * The rows "Save target" leaves behind: one new row at the end when no
   * current target was found, otherwise the same rows with the user's updated;
   * other users' rows stay where they were.
   */
  function Saved(rows: seq<GoalRow>, userId: Option<string>, target: real): (r: seq<GoalRow>)
    ensures |r| == if Lookup(rows, userId).None? then |rows| + 1 else |rows|
    ensures forall i :: 0 <= i < |rows| && rows[i].userId != userId ==> r[i] == rows[i]
    ensures Truthy(userId) ==> forall i :: 0 <= i < |r| && r[i].userId == userId ==> r[i].target == target
  {
    if Lookup(rows, userId).None? then rows + [GoalRow(userId, target)] else SetTarget(rows, userId, target)
  }

  /**
   * After saving, a signed-in user's lookup returns the saved target; without
   * a truthy id the lookup stays empty; every other user's lookup is unchanged.
   */
  lemma SavedLookup(rows: seq<GoalRow>, userId: Option<string>, target: real, other: Option<string>)
    ensures Lookup(Saved(rows, userId, target), userId) == if Truthy(userId) then Some(target) else None
    ensures other != userId ==> Lookup(Saved(rows, userId, target), other) == Lookup(rows, other)
  {
    var after := Saved(rows, userId, target);
    if Lookup(rows, userId).None? {
      assert after == rows + [GoalRow(userId, target)];
      FirstTargetAfterAppend(rows, GoalRow(userId, target), userId);
      FirstTargetAfterAppend(rows, GoalRow(userId, target), other);
    } else {
      assert Truthy(userId);
      FirstTargetAfterUpdate(rows, userId, target, userId);
      FirstTargetAfterUpdate(rows, userId, target, other);
    }
  }

  /**
   * The next visit's number input starts from the saved target, except that a
   * saved 0.0 is falsy and shows as the default again; a guest always sees it.
   */
  lemma SavedTargetShown(rows: seq<GoalRow>, userId: Option<string>, target: real)
    ensures Truthy(userId) && target != 0.0 ==> InitialTarget(Lookup(Saved(rows, userId, target), userId)) == target
    ensures Truthy(userId) && target == 0.0 ==> InitialTarget(Lookup(Saved(rows, userId, target), userId)) == DefaultWeeklyTarget
    ensures !Truthy(userId) ==> InitialTarget(Lookup(Saved(rows, userId, target), userId)) == DefaultWeeklyTarget
  {
    SavedLookup(rows, userId, target, userId);
  }

  lemma {:induction false} FirstTargetAfterAppend(rows: seq<GoalRow>, row: GoalRow, u: Option<string>)
    ensures FirstTarget(rows + [row], u) ==
              if FirstTarget(rows, u).Some? then FirstTarget(rows, u)
              else if row.userId == u then Some(row.target) else None
  {
    if rows == [] {
      assert [row][1..] == [];
    } else {
      assert (rows + [row])[1..] == rows[1..] + [row];
      FirstTargetAfterAppend(rows[1..], row, u);
    }
  }

  lemma {:induction false} FirstTargetAfterUpdate(rows: seq<GoalRow>, userId: Option<string>, target: real, u: Option<string>)
    ensures FirstTarget(SetTarget(rows, userId, target), u) ==
              if u == userId then (if FirstTarget(rows, u).Some? then Some(target) else None)
              else FirstTarget(rows, u)
  {
    if rows != [] {
      assert SetTarget(rows, userId, target)[1..] == SetTarget(rows[1..], userId, target);
      FirstTargetAfterUpdate(rows[1..], userId, target, u);
    }
  }

  /** Saving keeps at most one row per signed-in user. */
  lemma SavedKeepsOneRowPerUser(rows: seq<GoalRow>, userId: Option<string>, target: real)
    requires OneRowPerUser(rows)
    ensures OneRowPerUser(Saved(rows, userId, target))
  {
    var after := Saved(rows, userId, target);
    if Lookup(rows, userId).None? {
      forall i, j | 0 <= i < j < |after| && Truthy(after[i].userId)
        ensures after[i].userId != after[j].userId
      {
        if j == |rows| {
          assert Truthy(userId) ==> FirstTarget(rows, userId).None?;
        }
      }
    }
  }

  /** The `user_goals` table. */
  class GoalStore {
    var rows: seq<GoalRow>

    constructor ()
      ensures rows == []
    {
      rows := [];
    }

    function Current(userId: Option<string>): Option<real>
      reads this
    {
      Lookup(rows, userId)
    }

    /** "Save target": insert when no current target was found, update otherwise. */
    method Save(userId: Option<string>, target: real) returns (inserted: bool)
      modifies this
      ensures inserted == old(Current(userId)).None?
      ensures rows == if inserted then old(rows) + [GoalRow(userId, target)] else SetTarget(old(rows), userId, target)
      ensures Current(userId) == if Truthy(userId) then Some(target) else None
      ensures forall u :: u != userId ==> Current(u) == Lookup(old(rows), u)
      ensures old(OneRowPerUser(rows)) ==> OneRowPerUser(rows)
    {
      ghost var before := rows;
      var current := Lookup(rows, userId);
      inserted := current.None?;
      if inserted {
        rows := rows + [GoalRow(userId, target)];
      } else {
        rows := SetTarget(rows, userId, target);
      }
      assert rows == Saved(before, userId, target);
      SavedLookup(before, userId, target, userId);
      forall u | u != userId
        ensures Lookup(rows, u) == Lookup(before, u)
      {
        SavedLookup(before, userId, target, u);
      }
      if OneRowPerUser(before) {
        SavedKeepsOneRowPerUser(before, userId, target);
      }
    }
  }

  datatype Status = WithinTarget | Exceeded

  /** `start_week <= date <= today`. */
  function InWeek(today: Date): Entry -> bool {
    (e: Entry) => WeekStart(today) <= Ordinal(e.date) <= Ordinal(today)
  }

  /**
   * `week_df['total_emission'].sum()`: equivalently, the sum over all rows
   * with the rows outside this week counted as zero.
   */
  function WeeklyTotal(es: seq<Entry>, today: Date): (total: real)
    ensures total == SumOf(es, Masked(InWeek(today), Total))
  {
    SumOfFilter(es, InWeek(today), Total);
    SumOf(Filter(es, InWeek(today)), Total)
  }

  /** `weekly_total > target`: strictly above is exceeded, equal is within. */
  function Compare(weeklyTotal: real, target: real): (s: Status)
    ensures s == Exceeded <==> weeklyTotal > target
    ensures s == WithinTarget <==> weeklyTotal <= target
  {
    if weeklyTotal > target then Exceeded else WithinTarget
  }

  /** The alert shown under the metric; none when the user has no rows. */
  function WeeklyCheck(es: seq<Entry>, today: Date, target: real): (r: Option<Status>)
    ensures r.None? <==> es == []
    ensures r == Some(Exceeded) <==> es != [] && WeeklyTotal(es, today) > target
  {
    if es == [] then None else Some(Compare(WeeklyTotal(es, today), target))
  }

  /**
   * The goals page's alert for `userId` over the local table: "exceeded"
   * exactly when the user has rows and the sum of their totals dated from
   * this Monday to today is above the target.
   */
  function GoalAlert(rows: seq<Entry>, userId: Option<string>, today: Date, target: real): (r: Option<Status>)
    ensures r == Some(Exceeded) <==> Selected(rows, userId) != [] && WeeklyTotal(Selected(rows, userId), today) > target
    ensures r == None <==> Selected(rows, userId) == []
  {
    var fetched := FetchForUser(rows, userId);
    WeeklyTotalOrderFree(fetched, Selected(rows, userId), today);
    assert |fetched| == |multiset(fetched)| == |multiset(Selected(rows, userId))| == |Selected(rows, userId)|;
    WeeklyCheck(fetched, today, target)
  }

  lemma {:induction false} WeeklyTotalAppend(a: seq<Entry>, b: seq<Entry>, today: Date)
    ensures WeeklyTotal(a + b, today) == WeeklyTotal(a, today) + WeeklyTotal(b, today)
  {
    FilterAppend(a, b, InWeek(today));
    SumOfAppend(Filter(a, InWeek(today)), Filter(b, InWeek(today)), Total);
  }

  /** An entry counts toward the week iff its date lies between this Monday and today. */
  lemma WeeklyTotalOfEntry(e: Entry, today: Date)
    ensures WeeklyTotal([e], today) == if WeekStart(today) <= Ordinal(e.date) <= Ordinal(today) then e.em.total else 0.0
  {
    assert [e][1..] == [];
    var p := InWeek(today);
    assert Filter([e], p) == if p(e) then [e] else [];
    assert SumOf([e], Total) == e.em.total;
  }

  /** The order the rows come back in does not matter. */
  lemma WeeklyTotalOrderFree(a: seq<Entry>, b: seq<Entry>, today: Date)
    requires multiset(a) == multiset(b)
    ensures WeeklyTotal(a, today) == WeeklyTotal(b, today)
  {
    FilteredSumOfPermutation(a, b, InWeek(today), Total);
  }

  /** With non-negative entries the total is non-negative. */
  lemma WeeklyTotalNonNegative(es: seq<Entry>, today: Date)
    requires forall i :: 0 <= i < |es| ==> 0.0 <= es[i].em.total
    ensures 0.0 <= WeeklyTotal(es, today)
  {
    var week := Filter(es, InWeek(today));
    forall x | x in week ensures 0.0 <= Total(x) {
      var i :| 0 <= i < |es| && es[i] == x;
    }
    SumOfNonNegative(week, Total);
  }

  /** Once exceeded, adding more non-negative entries keeps it exceeded. */
  lemma ExceededPersists(es: seq<Entry>, more: seq<Entry>, today: Date, target: real)
    requires WeeklyCheck(es, today, target) == Some(Exceeded)
    requires forall i :: 0 <= i < |more| ==> 0.0 <= more[i].em.total
    ensures WeeklyCheck(es + more, today, target) == Some(Exceeded)
  {
    WeeklyTotalAppend(es, more, today);
    WeeklyTotalNonNegative(more, today);
  }

  /** A higher target never turns "within" into "exceeded". */
  lemma WithinForHigherTarget(es: seq<Entry>, today: Date, t1: real, t2: real)
    requires t1 <= t2 && WeeklyCheck(es, today, t1) == Some(WithinTarget)
    ensures WeeklyCheck(es, today, t2) == Some(WithinTarget)
  {
  }
}
