/**
 * The history page's data: the monthly rollup plotted as a line, and the
 * latest fourteen entries plotted as stacked transport/electricity/LPG bars.
 */
module History {
  import opened Wrappers
  import opened Dates
  import opened Emissions
  import opened Sequences
  import opened Entries

  /** The numeric columns `groupby(...).sum()` adds up. */
  datatype Totals = Totals(distance: real, electricity: real, lpg: real, em: Emissions)

  const Zero: Totals := Totals(0.0, 0.0, 0.0, Emissions(0.0, 0.0, 0.0, 0.0))

  function Plus(a: Totals, b: Totals): Totals {
    Totals(a.distance + b.distance, a.electricity + b.electricity, a.lpg + b.lpg, Add(a.em, b.em))
  }

  function Amounts(e: Entry): Totals {
    Totals(e.distance, e.electricity, e.lpg, e.em)
  }

  /** Column sums over `es`. */
  function SumTotals(es: seq<Entry>): Totals {
    if es == [] then Zero else Plus(SumTotals(es[..|es| - 1]), Amounts(es[|es| - 1]))
  }

  /** One rollup row: a month (by `MonthKey`) and its column sums. */
  datatype MonthRow = MonthRow(month: int, sums: Totals)

  function InMonth(k: int): Entry -> bool {
    (e: Entry) => MonthKey(e.date) == k
  }

  ghost predicate Chronological(rows: seq<MonthRow>) {
    forall i, j :: 0 <= i < j < |rows| ==> rows[i].month < rows[j].month
  }

  predicate HasMonth(rows: seq<MonthRow>, k: int) {
    exists i :: 0 <= i < |rows| && rows[i].month == k
  }

  /** The sums of month `k`'s row; zero when there is none. */
  function SumIn(rows: seq<MonthRow>, k: int): Totals {
    if rows == [] then Zero else if rows[0].month == k then rows[0].sums else SumIn(rows[1..], k)
  }

  /** Adds one entry to a chronological rollup. */
  function AddToMonths(rows: seq<MonthRow>, e: Entry): seq<MonthRow> {
    var k := MonthKey(e.date);
    if rows == [] then [MonthRow(k, Amounts(e))]
    else if rows[0].month == k then [MonthRow(k, Plus(rows[0].sums, Amounts(e)))] + rows[1..]
    else if k < rows[0].month then [MonthRow(k, Amounts(e))] + rows
    else [rows[0]] + AddToMonths(rows[1..], e)
  }

  /**
   * `df.groupby(df['date'].dt.to_period("M")).sum()`: the rows come out in
   * chronological order, one month per row.
   */
  function Monthly(es: seq<Entry>): (rows: seq<MonthRow>)
    ensures Chronological(rows)
  {
    if es == [] then []
    else
      var prefix := Monthly(es[..|es| - 1]);
      AddToMonthsOrder(prefix, es[|es| - 1]);
      AddToMonths(prefix, es[|es| - 1])
  }

  /**
   * The line plot's points: one per month present, in chronological order,
   * each at the month's first day with the sum of that month's
   * `total_emission`.
   */
  function MonthlySeries(es: seq<Entry>): (points: seq<(Date, real)>)
    ensures |points| == |Monthly(es)|
    ensures forall i :: 0 <= i < |points| ==> points[i].0 == MonthStart(Monthly(es)[i].month)
    ensures forall i :: 0 <= i < |points| ==> points[i].1 == SumOf(Filter(es, InMonth(MonthKey(points[i].0))), Total)
    ensures forall i, j :: 0 <= i < j < |points| ==> MonthKey(points[i].0) < MonthKey(points[j].0)
    ensures forall e :: e in es ==> exists i :: 0 <= i < |points| && MonthKey(points[i].0) == MonthKey(e.date)
    ensures forall i :: 0 <= i < |points| ==> exists e :: e in es && MonthKey(e.date) == MonthKey(points[i].0)
  {
    var rows := Monthly(es);
    MonthlyPoints(es);
    seq(|rows|, i requires 0 <= i < |rows| => (MonthStart(rows[i].month), rows[i].sums.em.total))
  }

  /** What the line plot needs from the rollup, stated on its rows. */
  lemma MonthlyPoints(es: seq<Entry>)
    ensures forall i :: 0 <= i < |Monthly(es)| ==>
              Monthly(es)[i].sums.em.total == SumOf(Filter(es, InMonth(Monthly(es)[i].month)), Total)
    ensures forall i, j :: 0 <= i < j < |Monthly(es)| ==> Monthly(es)[i].month < Monthly(es)[j].month
    ensures forall e :: e in es ==> HasMonth(Monthly(es), MonthKey(e.date))
    ensures forall i :: 0 <= i < |Monthly(es)| ==> exists e :: e in es && MonthKey(e.date) == Monthly(es)[i].month
  {
    var rows := Monthly(es);
    forall i | 0 <= i < |rows|
      ensures rows[i].sums.em.total == SumOf(Filter(es, InMonth(rows[i].month)), Total)
      ensures exists e :: e in es && MonthKey(e.date) == rows[i].month
    {
      MonthlyRows(es, i);
      SumTotalsTotal(Filter(es, InMonth(rows[i].month)));
      var j :| 0 <= j < |es| && MonthKey(es[j].date) == rows[i].month;
      assert es[j] in es;
    }
    forall e | e in es ensures HasMonth(rows, MonthKey(e.date)) {
      var j :| 0 <= j < |es| && es[j] == e;
      MonthlyMonths(es, MonthKey(e.date));
    }
  }

  /** The `total_emission` column of the summed rows is the sum of the column. */
  lemma {:induction false} SumTotalsTotal(es: seq<Entry>)
    ensures SumTotals(es).em.total == SumOf(es, Total)
  {
    if es != [] {
      var n := |es| - 1;
      assert es == es[..n] + [es[n]];
      SumTotalsTotal(es[..n]);
      SumOfAppend(es[..n], [es[n]], Total);
      assert [es[n]][1..] == [];
    }
  }

  lemma {:induction false} SumInOfChronological(rows: seq<MonthRow>, i: nat)
    requires Chronological(rows) && i < |rows|
    ensures SumIn(rows, rows[i].month) == rows[i].sums
  {
    if i > 0 {
      assert rows[0].month < rows[i].month;
      assert rows[1..][i - 1] == rows[i];
      SumInOfChronological(rows[1..], i - 1);
    }
  }

  lemma AddToMonthsFacts(rows: seq<MonthRow>, e: Entry)
    requires Chronological(rows)
    ensures Chronological(AddToMonths(rows, e))
    ensures forall k :: HasMonth(AddToMonths(rows, e), k) <==> HasMonth(rows, k) || k == MonthKey(e.date)
    ensures forall k :: SumIn(AddToMonths(rows, e), k) == if k == MonthKey(e.date) then Plus(SumIn(rows, k), Amounts(e)) else SumIn(rows, k)
  {
    AddToMonthsOrder(rows, e);
    forall k
      ensures HasMonth(AddToMonths(rows, e), k) <==> HasMonth(rows, k) || k == MonthKey(e.date)
      ensures SumIn(AddToMonths(rows, e), k) == if k == MonthKey(e.date) then Plus(SumIn(rows, k), Amounts(e)) else SumIn(rows, k)
    {
      AddToMonthsMonths(rows, e, k);
      AddToMonthsSum(rows, e, k);
    }
  }

  lemma {:induction false} AddToMonthsOrder(rows: seq<MonthRow>, e: Entry)
    requires Chronological(rows)
    ensures Chronological(AddToMonths(rows, e))
    ensures AddToMonths(rows, e) != []
    ensures rows != [] ==> AddToMonths(rows, e)[0].month == rows[0].month || AddToMonths(rows, e)[0].month == MonthKey(e.date)
  {
    var key := MonthKey(e.date);
    if rows == [] {
    } else if rows[0].month == key {
      assert rows == [rows[0]] + rows[1..];
      ChronologicalTail(rows);
      if |rows| > 1 { assert rows[1..][0] == rows[1]; }
      ConsChronological(MonthRow(key, Plus(rows[0].sums, Amounts(e))), rows[1..]);
    } else if key < rows[0].month {
      ConsChronological(MonthRow(key, Amounts(e)), rows);
    } else {
      ChronologicalTail(rows);
      AddToMonthsOrder(rows[1..], e);
      var rest := AddToMonths(rows[1..], e);
      if |rows| > 1 { assert rows[1..][0] == rows[1] && rows[0].month < rows[1].month; }
      ConsChronological(rows[0], rest);
    }
  }

  lemma ChronologicalTail(rows: seq<MonthRow>)
    requires Chronological(rows) && rows != []
    ensures Chronological(rows[1..])
  {
    forall i, j | 0 <= i < j < |rows[1..]| ensures rows[1..][i].month < rows[1..][j].month {
      assert rows[1..][i] == rows[i + 1] && rows[1..][j] == rows[j + 1];
    }
  }

  lemma ConsChronological(x: MonthRow, t: seq<MonthRow>)
    requires Chronological(t)
    requires t != [] ==> x.month < t[0].month
    ensures Chronological([x] + t)
  {
    var r := [x] + t;
    forall i, j | 0 <= i < j < |r| ensures r[i].month < r[j].month {
      assert r[j] == t[j - 1];
      if i == 0 {
        if j > 1 { assert t[0].month < t[j - 1].month; }
      } else {
        assert r[i] == t[i - 1];
      }
    }
  }

  lemma {:induction false} AddToMonthsMonths(rows: seq<MonthRow>, e: Entry, k: int)
    ensures HasMonth(AddToMonths(rows, e), k) <==> HasMonth(rows, k) || k == MonthKey(e.date)
  {
    var key := MonthKey(e.date);
    var r := AddToMonths(rows, e);
    if rows == [] {
      HasMonthCons(MonthRow(key, Amounts(e)), [], k);
      assert r == [MonthRow(key, Amounts(e))] + [];
    } else if rows[0].month == key {
      assert r == [r[0]] + rows[1..] && rows == [rows[0]] + rows[1..];
      HasMonthCons(r[0], rows[1..], k);
      HasMonthCons(rows[0], rows[1..], k);
    } else if key < rows[0].month {
      assert r == [MonthRow(key, Amounts(e))] + rows;
      HasMonthCons(MonthRow(key, Amounts(e)), rows, k);
    } else {
      var rest := AddToMonths(rows[1..], e);
      AddToMonthsMonths(rows[1..], e, k);
      assert r == [rows[0]] + rest;
      assert rows == [rows[0]] + rows[1..];
      HasMonthCons(rows[0], rest, k);
      HasMonthCons(rows[0], rows[1..], k);
    }
  }

  lemma {:induction false} AddToMonthsSum(rows: seq<MonthRow>, e: Entry, k: int)
    requires Chronological(rows)
    ensures SumIn(AddToMonths(rows, e), k) == if k == MonthKey(e.date) then Plus(SumIn(rows, k), Amounts(e)) else SumIn(rows, k)
  {
    var key := MonthKey(e.date);
    var r := AddToMonths(rows, e);
    if rows == [] {
      assert r[1..] == [];
    } else if rows[0].month == key {
      assert r[1..] == rows[1..];
    } else if key < rows[0].month {
      assert r[1..] == rows;
      if k == key {
        NoRowBeforeFirst(rows, k);
      }
    } else {
      ChronologicalTail(rows);
      AddToMonthsSum(rows[1..], e, k);
      assert r[1..] == AddToMonths(rows[1..], e);
    }
  }

  lemma HasMonthCons(x: MonthRow, t: seq<MonthRow>, k: int)
    ensures HasMonth([x] + t, k) <==> x.month == k || HasMonth(t, k)
  {
    var s := [x] + t;
    if HasMonth(t, k) {
      var i :| 0 <= i < |t| && t[i].month == k;
      assert s[i + 1].month == k;
    }
    if HasMonth(s, k) && x.month != k {
      var i :| 0 <= i < |s| && s[i].month == k;
      assert t[i - 1].month == k;
    }
    assert s[0] == x;
  }

  /** A chronological rollup has no row for a month before its first. */
  lemma {:induction false} NoRowBeforeFirst(rows: seq<MonthRow>, k: int)
    requires Chronological(rows) && rows != [] && k < rows[0].month
    ensures SumIn(rows, k) == Zero && !HasMonth(rows, k)
  {
    if |rows| > 1 {
      assert Chronological(rows[1..]);
      assert rows[0].month < rows[1].month;
      NoRowBeforeFirst(rows[1..], k);
    } else {
      assert rows[1..] == [];
    }
  }

  lemma SumTotalsAppend(es: seq<Entry>, e: Entry)
    ensures SumTotals(es + [e]) == Plus(SumTotals(es), Amounts(e))
  {
    assert (es + [e])[..|es|] == es;
  }

  /**
   * The rollup has one row per month present, in chronological order, and
   * each row holds the sums of exactly that month's entries.
   */
  lemma MonthlyIsRollup(es: seq<Entry>)
    ensures Chronological(Monthly(es))
    ensures forall k :: HasMonth(Monthly(es), k) <==> exists i :: 0 <= i < |es| && MonthKey(es[i].date) == k
    ensures forall k :: SumIn(Monthly(es), k) == SumTotals(Filter(es, InMonth(k)))
  {
    forall k
      ensures HasMonth(Monthly(es), k) <==> exists i :: 0 <= i < |es| && MonthKey(es[i].date) == k
      ensures SumIn(Monthly(es), k) == SumTotals(Filter(es, InMonth(k)))
    {
      MonthlyMonths(es, k);
      MonthlySum(es, k);
    }
  }

  lemma {:induction false} MonthlyMonths(es: seq<Entry>, k: int)
    ensures HasMonth(Monthly(es), k) <==> exists i :: 0 <= i < |es| && MonthKey(es[i].date) == k
  {
    if es != [] {
      var n := |es| - 1;
      var prefix, e := es[..n], es[n];
      MonthlyMonths(prefix, k);
      AddToMonthsMonths(Monthly(prefix), e, k);
      if exists i :: 0 <= i < |es| && MonthKey(es[i].date) == k {
        var i :| 0 <= i < |es| && MonthKey(es[i].date) == k;
        if i < n { assert prefix[i] == es[i]; }
      }
      if exists i :: 0 <= i < |prefix| && MonthKey(prefix[i].date) == k {
        var i :| 0 <= i < |prefix| && MonthKey(prefix[i].date) == k;
        assert es[i] == prefix[i];
      }
    }
  }

  lemma {:induction false} MonthlySum(es: seq<Entry>, k: int)
    ensures SumIn(Monthly(es), k) == SumTotals(Filter(es, InMonth(k)))
  {
    if es != [] {
      var n := |es| - 1;
      var prefix, e := es[..n], es[n];
      assert es == prefix + [e];
      MonthlySum(prefix, k);
      AddToMonthsSum(Monthly(prefix), e, k);
      FilterAppend(prefix, [e], InMonth(k));
      assert [e][1..] == [];
      if MonthKey(e.date) == k {
        assert Filter([e], InMonth(k)) == [e];
        SumTotalsAppend(Filter(prefix, InMonth(k)), e);
      } else {
        assert Filter([e], InMonth(k)) == [];
        assert Filter(prefix, InMonth(k)) + [] == Filter(prefix, InMonth(k));
      }
    }
  }

  /** Each row of the rollup sums exactly its own month's entries. */
  lemma MonthlyRows(es: seq<Entry>, i: nat)
    requires i < |Monthly(es)|
    ensures Monthly(es)[i].sums == SumTotals(Filter(es, InMonth(Monthly(es)[i].month)))
    ensures exists j :: 0 <= j < |es| && MonthKey(es[j].date) == Monthly(es)[i].month
  {
    MonthlyIsRollup(es);
    SumInOfChronological(Monthly(es), i);
    assert HasMonth(Monthly(es), Monthly(es)[i].month);
  }

  /** Sums of entries whose total is the sum of their parts keep that property. */
  predicate Balanced(t: Totals) {
    Consistent(t.em)
  }

  lemma {:induction false} SumTotalsBalanced(es: seq<Entry>)
    requires forall i :: 0 <= i < |es| ==> Consistent(es[i].em)
    ensures Balanced(SumTotals(es))
  {
    if es != [] {
      SumTotalsBalanced(es[..|es| - 1]);
    }
  }

  /** Each month's sums keep the parts adding up to the total. */
  lemma MonthlyRowsBalanced(es: seq<Entry>, i: nat)
    requires forall j :: 0 <= j < |es| ==> Consistent(es[j].em)
    requires i < |Monthly(es)|
    ensures Balanced(Monthly(es)[i].sums)
  {
    MonthlyRows(es, i);
    var picked := Filter(es, InMonth(Monthly(es)[i].month));
    SumTotalsBalanced(picked);
  }

  function MonthTotal(r: MonthRow): real {
    r.sums.em.total
  }

  lemma {:induction false} AddToMonthsTotal(rows: seq<MonthRow>, e: Entry)
    ensures SumOf(AddToMonths(rows, e), MonthTotal) == SumOf(rows, MonthTotal) + Total(e)
  {
    var r := AddToMonths(rows, e);
    if rows == [] {
      assert r[1..] == [];
    } else if rows[0].month == MonthKey(e.date) {
      assert r[1..] == rows[1..];
    } else if MonthKey(e.date) < rows[0].month {
      assert r[1..] == rows;
    } else {
      AddToMonthsTotal(rows[1..], e);
      assert r[1..] == AddToMonths(rows[1..], e);
    }
  }

  /** Every entry's total lands in exactly one month: the rollup loses and adds nothing. */
  lemma {:induction false} MonthlyConservesTotal(es: seq<Entry>)
    ensures SumOf(Monthly(es), MonthTotal) == SumOf(es, Total)
  {
    if es != [] {
      var n := |es| - 1;
      assert es == es[..n] + [es[n]];
      MonthlyConservesTotal(es[..n]);
      AddToMonthsTotal(Monthly(es[..n]), es[n]);
      SumOfAppend(es[..n], [es[n]], Total);
      assert [es[n]][1..] == [];
    }
  }

  /** The latest fourteen entries by date, oldest first (`sort_values('date').tail(14)`). */
  const RecentCount: nat := 14

  function Latest(es: seq<Entry>): (r: seq<Entry>)
    ensures |r| == if |es| < RecentCount then |es| else RecentCount
    ensures SortedBy(r, DateKey)
    ensures multiset(r) <= multiset(es)
    ensures forall e :: e in multiset(es) - multiset(r) ==> forall i :: 0 <= i < |r| ==> DateKey(e) <= DateKey(r[i])
  {
    var sorted := SortBy(es, DateKey);
    var r := Tail(sorted, RecentCount);
    TailOfSorted(sorted, r);
    r
  }

  /** A suffix of a date-sorted sequence holds its newest entries. */
  lemma TailOfSorted(sorted: seq<Entry>, r: seq<Entry>)
    requires SortedBy(sorted, DateKey) && |r| <= |sorted| && sorted == sorted[..|sorted| - |r|] + r
    ensures SortedBy(r, DateKey)
    ensures multiset(r) <= multiset(sorted)
    ensures forall e :: e in multiset(sorted) - multiset(r) ==> forall i :: 0 <= i < |r| ==> DateKey(e) <= DateKey(r[i])
  {
    var k := |sorted| - |r|;
    assert r == sorted[k..];
    SortedSuffix(sorted, k, DateKey);
  }

  /** One bar position of the chart: three segments stacked in this order. */
  datatype Bar = Bar(date: Date, transport: real, electricity: real, electricityBottom: real, lpg: real, lpgBottom: real)

  /** The stacked bars: electricity sits on transport, LPG on both. */
  function Stacked(last: seq<Entry>): (bars: seq<Bar>)
    ensures |bars| == |last|
    ensures forall i :: 0 <= i < |bars| ==> bars[i].date == last[i].date
    ensures forall i :: 0 <= i < |bars| ==>
              && bars[i].transport == last[i].em.transport
              && bars[i].electricity == last[i].em.electricity
              && bars[i].lpg == last[i].em.lpg
    ensures forall i :: 0 <= i < |bars| ==> bars[i].electricityBottom == bars[i].transport
    ensures forall i :: 0 <= i < |bars| ==> bars[i].lpgBottom == bars[i].transport + bars[i].electricity
    ensures forall i :: 0 <= i < |bars| && Consistent(last[i].em) ==>
              bars[i].lpgBottom + bars[i].lpg == last[i].em.total
  {
    seq(|last|, i requires 0 <= i < |last| =>
      var em := last[i].em;
      Bar(last[i].date, em.transport, em.electricity, em.transport, em.lpg, em.transport + em.electricity))
  }

  /** What the history page plots; none when the user has no rows. */
  datatype Charts = Charts(monthly: seq<(Date, real)>, bars: seq<Bar>)

  /**
   * The line for the rows `sel`: one point per month present, chronological,
   * each with that month's `total_emission` sum.
   */
  ghost predicate ShowsMonths(points: seq<(Date, real)>, sel: seq<Entry>) {
    && (forall i :: 0 <= i < |points| ==> points[i].0 == MonthStart(MonthKey(points[i].0)))
    && (forall i :: 0 <= i < |points| ==> points[i].1 == SumOf(Filter(sel, InMonth(MonthKey(points[i].0))), Total))
    && (forall i, j :: 0 <= i < j < |points| ==> MonthKey(points[i].0) < MonthKey(points[j].0))
    && (forall e :: e in sel ==> exists i :: 0 <= i < |points| && MonthKey(points[i].0) == MonthKey(e.date))
    && (forall i :: 0 <= i < |points| ==> exists e :: e in sel && MonthKey(e.date) == MonthKey(points[i].0))
  }

  /**
   * The bars for the rows `sel`: those of the min(14, n) newest rows, oldest
   * first; when every row was derived by the calculator, each bar tops out
   * at its row's `total_emission`.
   */
  ghost predicate ShowsNewest(bars: seq<Bar>, sel: seq<Entry>) {
    && |bars| == (if |sel| < RecentCount then |sel| else RecentCount)
    && exists last: seq<Entry> ::
         && bars == Stacked(last)
         && SortedBy(last, DateKey)
         && multiset(last) <= multiset(sel)
         && (forall e :: e in multiset(sel) - multiset(last) ==> forall i :: 0 <= i < |last| ==> DateKey(e) <= DateKey(last[i]))
         && (AllDerived(sel) ==> forall i :: 0 <= i < |last| ==> bars[i].lpgBottom + bars[i].lpg == last[i].em.total)
  }

  /** The page plots the user's own rows: none at all, or their months and newest rows. */
  function HistoryCharts(rows: seq<Entry>, userId: Option<string>): (r: Option<Charts>)
    ensures r.None? <==> Selected(rows, userId) == []
    ensures r.Some? ==> ShowsMonths(r.value.monthly, Selected(rows, userId))
    ensures r.Some? ==> ShowsNewest(r.value.bars, Selected(rows, userId))
    ensures AllDerived(rows) ==> AllDerived(Selected(rows, userId))
  {
    var es := FetchForUser(rows, userId);
    assert |es| == |multiset(es)| == |Selected(rows, userId)|;
    if es == [] then None
    else
      SeriesShowsMonths(es, Selected(rows, userId));
      BarsShowNewest(es, Selected(rows, userId));
      Some(Charts(MonthlySeries(es), Stacked(Latest(es))))
  }

  lemma SeriesShowsMonths(es: seq<Entry>, sel: seq<Entry>)
    requires multiset(es) == multiset(sel)
    ensures ShowsMonths(MonthlySeries(es), sel)
  {
    PermutedMonths(es, sel);
  }

  lemma BarsShowNewest(es: seq<Entry>, sel: seq<Entry>)
    requires multiset(es) == multiset(sel)
    ensures ShowsNewest(Stacked(Latest(es)), sel)
  {
    assert |es| == |multiset(es)| == |sel|;
    var last := Latest(es);
    NewestBars(last, sel);
  }

  lemma NewestBars(last: seq<Entry>, sel: seq<Entry>)
    requires |last| == if |sel| < RecentCount then |sel| else RecentCount
    requires SortedBy(last, DateKey) && multiset(last) <= multiset(sel)
    requires forall e :: e in multiset(sel) - multiset(last) ==> forall i :: 0 <= i < |last| ==> DateKey(e) <= DateKey(last[i])
    ensures ShowsNewest(Stacked(last), sel)
  {
    var bars := Stacked(last);
    if AllDerived(sel) {
      DrawnRowsDerived(last, sel);
    }
    assert AllDerived(sel) ==> forall i :: 0 <= i < |last| ==> bars[i].lpgBottom + bars[i].lpg == last[i].em.total;
  }

  /** Rows drawn from a derived table are derived, so their parts add up to their totals. */
  lemma DrawnRowsDerived(last: seq<Entry>, sel: seq<Entry>)
    requires multiset(last) <= multiset(sel) && AllDerived(sel)
    ensures forall i :: 0 <= i < |last| ==> Consistent(last[i].em)
  {
    forall i | 0 <= i < |last| ensures Consistent(last[i].em) {
      assert last[i] in multiset(sel);
      assert Derived(last[i]);
    }
  }

  /** Reordering the rows changes neither the months present nor their totals. */
  lemma PermutedMonths(a: seq<Entry>, b: seq<Entry>)
    requires multiset(a) == multiset(b)
    ensures forall e :: e in a <==> e in b
    ensures forall k :: SumOf(Filter(a, InMonth(k)), Total) == SumOf(Filter(b, InMonth(k)), Total)
  {
    forall e ensures e in a <==> e in b {
      assert e in a <==> e in multiset(a);
      assert e in b <==> e in multiset(b);
    }
    forall k ensures SumOf(Filter(a, InMonth(k)), Total) == SumOf(Filter(b, InMonth(k)), Total) {
      FilteredSumOfPermutation(a, b, InMonth(k), Total);
    }
  }
}
