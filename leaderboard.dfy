/**
 * The public leaderboard: every user's entries dated from seven days before
 * today on, summed per alias, lowest total first, ten rows at most.
 */
module Leaderboard {
  import opened Wrappers
  import opened Dates
  import opened Sequences
  import opened Entries

  /** A table row: alias and its `weekly_total_kgCO2`. */
  datatype Row = Row(alias: string, weeklyTotal: real)

  const MaxRows: nat := 10

  /** `date >= today - timedelta(days=7)`; there is no upper bound. */
  function InWindow(today: Date): Entry -> bool {
    (e: Entry) => Ordinal(e.date) >= Ordinal(today) - 7
  }

  /** The rows the leaderboard reads: every copy of each row dated from `today - 7` on, in table order. */
  function Window(es: seq<Entry>, today: Date): (w: seq<Entry>)
    ensures forall e :: multiset(w)[e] == if Ordinal(e.date) >= Ordinal(today) - 7 then multiset(es)[e] else 0
  {
    Filter(es, InWindow(today))
  }

  function HasAlias(a: string): Entry -> bool {
    (e: Entry) => e.alias == Some(a)
  }

  /** The sum of `total_emission` over the entries of alias `a`. */
  function AliasTotal(es: seq<Entry>, a: string): real {
    SumOf(Filter(es, HasAlias(a)), Total)
  }

  /** The group keys: aliases present, NULL aliases dropped as `groupby` does. */
  ghost function AliasSet(es: seq<Entry>): set<string> {
    set e | e in es && e.alias.Some? :: e.alias.value
  }

  /** The distinct aliases of `es` in order of first appearance. */
  function Aliases(es: seq<Entry>): (r: seq<string>)
    ensures DistinctBy(r, (a: string) => a)
    ensures forall i :: 0 <= i < |r| ==> r[i] in AliasSet(es)
    ensures forall a :: a in AliasSet(es) ==> a in r
  {
    if es == [] then []
    else
      var n := |es| - 1;
      var prefix := Aliases(es[..n]);
      assert es == es[..n] + [es[n]];
      assert AliasSet(es) == AliasSet(es[..n]) + (if es[n].alias.Some? then {es[n].alias.value} else {});
      if es[n].alias.Some? && es[n].alias.value !in prefix then prefix + [es[n].alias.value] else prefix
  }

  lemma AliasesCount(es: seq<Entry>)
    ensures |Aliases(es)| == |AliasSet(es)|
  {
    DistinctListCardinality(Aliases(es), AliasSet(es));
  }

  function RowAlias(r: Row): string {
    r.alias
  }

  function RowTotal(r: Row): real {
    r.weeklyTotal
  }

  /**
   * `groupby('alias').agg({'total_emission': 'sum'})`: one row per non-null
   * alias present, carrying the sum of that alias's totals.
   */
  function Grouped(es: seq<Entry>): (rows: seq<Row>)
    ensures IsGroupingOf(AliasSet(es), SumFor(es), rows)
    ensures |rows| == |AliasSet(es)|
  {
    var names := Aliases(es);
    var rows := seq(|names|, i requires 0 <= i < |names| => Row(names[i], AliasTotal(es, names[i])));
    GroupingOfNames(es, rows);
    rows
  }

  /**
   * The whole pipeline: window, group, `sort_values`, `head(10)`. The result
   * is a correct leaderboard of the window, whatever the order of ties.
   */
  function Ranked(es: seq<Entry>, today: Date): (r: seq<Row>)
    ensures IsRanking(Window(es, today), r)
  {
    var window := Window(es, today);
    var grouped := Grouped(window);
    SortedIsGrouping(AliasSet(window), SumFor(window), grouped);
    HeadOfSortedGrouping(AliasSet(window), SumFor(window), SortBy(grouped, RowTotal));
    Head(SortBy(grouped, RowTotal), MaxRows)
  }

  /** What is shown: nothing at all when the table is empty. */
  function Board(es: seq<Entry>, today: Date): (r: Option<seq<Row>>)
    ensures r.None? <==> es == []
    ensures r.Some? ==> IsRanking(Window(es, today), r.value)
  {
    if es == [] then None else Some(Ranked(es, today))
  }

  /**
   * The leaderboard page: `fetch_all_local_for_user(None)` reads every row of
   * the local table, and the board ranks the window of those rows.
   */
  function LeaderboardFor(rows: seq<Entry>, today: Date): (r: Option<seq<Row>>)
    ensures r.None? <==> rows == []
    ensures r.Some? ==> IsRanking(Window(rows, today), r.value)
  {
    var fetched := FetchForUser(rows, None);
    assert |fetched| == |multiset(fetched)| == |rows|;
    var r := Board(fetched, today);
    if r.Some? then
      WindowsAgree(fetched, rows, today);
      RankingOfSameSums(AliasSet(Window(fetched, today)), SumFor(Window(fetched, today)), SumFor(Window(rows, today)), r.value);
      r
    else r
  }

  /** Reordering the table changes neither the aliases of the window nor their sums. */
  lemma WindowsAgree(a: seq<Entry>, b: seq<Entry>, today: Date)
    requires multiset(a) == multiset(b)
    ensures AliasSet(Window(a, today)) == AliasSet(Window(b, today))
    ensures forall n :: SumFor(Window(a, today))(n) == SumFor(Window(b, today))(n)
  {
    var wa, wb := Window(a, today), Window(b, today);
    assert multiset(wa) == multiset(wb);
    SameAliasSet(wa, wb);
    forall n ensures SumFor(wa)(n) == SumFor(wb)(n) {
      FilteredSumOfPermutation(wa, wb, HasAlias(n), Total);
    }
  }

  lemma SameAliasSet(a: seq<Entry>, b: seq<Entry>)
    requires multiset(a) == multiset(b)
    ensures AliasSet(a) == AliasSet(b)
  {
    forall e ensures e in a <==> e in b {
      assert e in a <==> e in multiset(a);
      assert e in b <==> e in multiset(b);
    }
  }

  lemma RankingOfSameSums(names: set<string>, s1: string -> real, s2: string -> real, rows: seq<Row>)
    requires IsRankingOf(names, s1, rows)
    requires forall n :: s1(n) == s2(n)
    ensures IsRankingOf(names, s2, rows)
  {
  }

  /** A row for each of the `names` and no other, each carrying its `sum`. */
  ghost predicate IsGroupingOf(names: set<string>, sum: string -> real, rows: seq<Row>) {
    && DistinctBy(rows, RowAlias)
    && (forall i :: 0 <= i < |rows| ==> rows[i].alias in names && rows[i].weeklyTotal == sum(rows[i].alias))
    && (forall a :: a in names ==> Row(a, sum(a)) in rows)
  }

  /**
   * The lowest-`sum` names, whatever the order of ties: one row per name up to
   * ten, each with its sum, non-decreasing, and no name left out whose sum is
   * below a shown one.
   */
  ghost predicate IsRankingOf(names: set<string>, sum: string -> real, rows: seq<Row>) {
    && |rows| == (if |names| < MaxRows then |names| else MaxRows)
    && DistinctBy(rows, RowAlias)
    && (forall i :: 0 <= i < |rows| ==> rows[i].alias in names && rows[i].weeklyTotal == sum(rows[i].alias))
    && SortedBy(rows, RowTotal)
    && (forall a :: a in names && (forall i :: 0 <= i < |rows| ==> rows[i].alias != a) ==>
          forall i :: 0 <= i < |rows| ==> rows[i].weeklyTotal <= sum(a))
  }

  function SumFor(es: seq<Entry>): string -> real {
    a => AliasTotal(es, a)
  }

  /** A correct leaderboard of the entries `window`. */
  ghost predicate IsRanking(window: seq<Entry>, rows: seq<Row>) {
    IsRankingOf(AliasSet(window), SumFor(window), rows)
  }

  /** Rows built from `Aliases(es)` with their sums form the grouping of `es`. */
  lemma GroupingOfNames(es: seq<Entry>, rows: seq<Row>)
    requires |rows| == |Aliases(es)|
    requires forall i :: 0 <= i < |rows| ==> rows[i] == Row(Aliases(es)[i], AliasTotal(es, Aliases(es)[i]))
    ensures IsGroupingOf(AliasSet(es), SumFor(es), rows)
    ensures |rows| == |AliasSet(es)|
  {
    var names := Aliases(es);
    AliasesCount(es);
    forall i, j | 0 <= i < j < |rows| ensures rows[i].alias != rows[j].alias {
      assert rows[i].alias == names[i] && rows[j].alias == names[j];
    }
    forall a | a in AliasSet(es) ensures Row(a, SumFor(es)(a)) in rows {
      var k :| 0 <= k < |names| && names[k] == a;
      assert rows[k] == Row(a, AliasTotal(es, a));
    }
  }

  /** Sorting the groups keeps them a grouping. */
  lemma SortedIsGrouping(names: set<string>, sum: string -> real, rows: seq<Row>)
    requires IsGroupingOf(names, sum, rows)
    ensures IsGroupingOf(names, sum, SortBy(rows, RowTotal))
  {
    var sorted := SortBy(rows, RowTotal);
    SortByKeepsDistinct(rows, RowTotal, RowAlias);
    forall i | 0 <= i < |sorted| ensures sorted[i].alias in names && sorted[i].weeklyTotal == sum(sorted[i].alias) {
      assert sorted[i] in multiset(rows);
    }
    forall a | a in names ensures Row(a, sum(a)) in sorted {
      assert Row(a, sum(a)) in multiset(rows);
    }
  }

  /** No name missing from the first ten rows has a smaller sum than a shown one. */
  lemma HeadIsLowest(names: set<string>, sum: string -> real, sorted: seq<Row>)
    requires forall a :: a in names ==> Row(a, sum(a)) in sorted
    requires SortedBy(sorted, RowTotal)
    ensures var shown := Head(sorted, MaxRows);
            forall a :: a in names && (forall i :: 0 <= i < |shown| ==> shown[i].alias != a) ==>
              forall i :: 0 <= i < |shown| ==> shown[i].weeklyTotal <= sum(a)
  {
    var shown := Head(sorted, MaxRows);
    forall a | a in names && (forall i :: 0 <= i < |shown| ==> shown[i].alias != a)
      ensures forall i :: 0 <= i < |shown| ==> shown[i].weeklyTotal <= sum(a)
    {
      var k :| 0 <= k < |sorted| && sorted[k] == Row(a, sum(a));
      assert k >= |shown|;
      forall i | 0 <= i < |shown| ensures shown[i].weeklyTotal <= sum(a) {
        assert shown[i] == sorted[i];
      }
    }
  }

  /** The first ten rows of a sorted grouping are a ranking. */
  lemma HeadOfSortedGrouping(names: set<string>, sum: string -> real, sorted: seq<Row>)
    requires IsGroupingOf(names, sum, sorted) && SortedBy(sorted, RowTotal) && |sorted| == |names|
    ensures IsRankingOf(names, sum, Head(sorted, MaxRows))
  {
    var shown := Head(sorted, MaxRows);
    assert forall i :: 0 <= i < |shown| ==> shown[i] == sorted[i];
    assert DistinctBy(shown, RowAlias);
    assert SortedBy(shown, RowTotal);
    HeadIsLowest(names, sum, sorted);
  }

  /** An entry older than `today - 7` never changes the leaderboard. */
  lemma OldEntryIgnored(es: seq<Entry>, e: Entry, today: Date)
    requires Ordinal(e.date) < Ordinal(today) - 7
    ensures Ranked(es + [e], today) == Ranked(es, today)
  {
    FilterAppend(es, [e], InWindow(today));
    assert [e][1..] == [];
    assert Filter([e], InWindow(today)) == [];
    assert Window(es + [e], today) == Window(es, today);
  }

  /** An entry with an alias dated `today - 7` or later, even after today, is counted. */
  lemma RecentEntryCounted(es: seq<Entry>, e: Entry, today: Date)
    requires Ordinal(e.date) >= Ordinal(today) - 7 && e.alias.Some?
    ensures e.alias.value in AliasSet(Window(es + [e], today))
    ensures AliasTotal(Window(es + [e], today), e.alias.value)
         == AliasTotal(Window(es, today), e.alias.value) + e.em.total
  {
    var a := e.alias.value;
    var p := InWindow(today);
    FilterAppend(es, [e], p);
    assert [e][1..] == [];
    assert Filter([e], p) == [e];
    assert Window(es + [e], today) == Window(es, today) + [e];
    assert e in Window(es + [e], today);
    FilterAppend(Window(es, today), [e], HasAlias(a));
    assert Filter([e], HasAlias(a)) == [e];
    SumOfAppend(Filter(Window(es, today), HasAlias(a)), [e], Total);
    assert SumOf([e], Total) == e.em.total;
  }
}
