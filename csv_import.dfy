/**
 * The CSV upload on the entry page: the whole file is refused when a required
 * column is missing; otherwise each row goes through the calculator and the
 * store-with-fallback rule, a row that raises is reported and skipped, and
 * the number of stored rows is reported.
 */
module CsvImport {
  import opened Wrappers
  import opened Dates
  import opened Emissions
  import opened Sequences
  import opened Entries
  import opened Stores

  /**
   * One parsed CSV row. A cell that `pd.to_datetime` or `float` cannot convert
   * is None; `alias` and `notes` are None for empty cells.
   */
  datatype CsvRow = CsvRow(
    date: Option<Date>,
    distance: Option<real>,
    mode: string,
    electricity: Option<real>,
    lpg: Option<real>,
    alias: Option<string>,
    notes: Option<string>)

  datatype CsvTable = CsvTable(columns: seq<string>, rows: seq<CsvRow>)

  datatype ImportOutcome = MissingColumns(missing: seq<string>) | Imported(count: nat)

  const Required: seq<string> := ["date", "distance", "transport_mode", "electricity", "lpg"]

  function Absent(columns: seq<string>): string -> bool {
    c => c !in columns
  }

  /** `[c for c in required if c not in df_csv.columns]`. */
  function Missing(columns: seq<string>): (m: seq<string>)
    ensures forall c :: c in m <==> c in Required && c !in columns
    ensures m == [] <==> forall c :: c in Required ==> c in columns
  {
    MissingMembers(columns);
    Filter(Required, Absent(columns))
  }

  lemma MissingMembers(columns: seq<string>)
    ensures forall c :: c in Filter(Required, Absent(columns)) <==> c in Required && c !in columns
    ensures Filter(Required, Absent(columns)) == [] <==> forall c :: c in Required ==> c in columns
  {
    forall c ensures c in Filter(Required, Absent(columns)) <==> c in Required && c !in columns {
      MissingMember(columns, c);
    }
  }

  lemma MissingMember(columns: seq<string>, c: string)
    ensures c in Filter(Required, Absent(columns)) <==> c in Required && c !in columns
  {
    var m := Filter(Required, Absent(columns));
    assert c in m <==> c in multiset(m);
    assert c in Required <==> c in multiset(Required);
  }

  /** The body of the `try` block raises for this row. */
  predicate RowRaises(row: CsvRow) {
    row.date.None? || row.distance.None? || row.electricity.None? || row.lpg.None?
  }

  /**
   * The record built for one row: `row.get('alias', alias)` and
   * `row.get('notes', '')` fall back only when the column is absent.
   */
  function RowRecord(columns: seq<string>, row: CsvRow, userId: Option<string>, alias: string): (r: Option<Entry>)
    ensures r.None? <==> RowRaises(row)
    ensures r.Some? ==> Derived(r.value) && Consistent(r.value.em) && r.value.userId == userId
  {
    if RowRaises(row) then None
    else
      var d, e, l := row.distance.value, row.electricity.value, row.lpg.value;
      Some(Entry(userId, if "alias" in columns then row.alias else Some(alias), row.date.value, row.mode,
                 d, e, l, Compute(d, row.mode, e, l), if "notes" in columns then row.notes else Some("")))
  }

  /**
   * A stored row keeps the file's date, mode and quantities; its alias is the
   * row's cell when the file has an alias column and the page's alias otherwise.
   */
  lemma RowRecordFields(columns: seq<string>, row: CsvRow, userId: Option<string>, alias: string)
    requires !RowRaises(row)
    ensures var e := RowRecord(columns, row, userId, alias).value;
            && e.alias == (if "alias" in columns then row.alias else Some(alias))
            && e.notes == (if "notes" in columns then row.notes else Some(""))
            && e.date == row.date.value && e.mode == row.mode
            && e.distance == row.distance.value && e.electricity == row.electricity.value && e.lpg == row.lpg.value
  {
  }

  function RecordList(columns: seq<string>, row: CsvRow, userId: Option<string>, alias: string): seq<Entry> {
    match RowRecord(columns, row, userId, alias)
    case Some(e) => [e]
    case None => []
  }

  /**
   * The records of the rows that do not raise, in file order; each went
   * through the calculator and carries the session user.
   */
  function Parsed(columns: seq<string>, rows: seq<CsvRow>, userId: Option<string>, alias: string): (r: seq<Entry>)
    ensures AllDerived(r)
    ensures forall e :: e in r ==> e.userId == userId
  {
    if rows == [] then []
    else Parsed(columns, rows[..|rows| - 1], userId, alias) + RecordList(columns, rows[|rows| - 1], userId, alias)
  }

  /**
   * The records that went to the hosted store (`toRemote`) or to the local one;
   * `accepted[i]` is the outcome of the hosted insert for row `i`.
   */
  function Routed(columns: seq<string>, rows: seq<CsvRow>, accepted: seq<bool>, userId: Option<string>,
                  alias: string, toRemote: bool): (r: seq<Entry>)
    requires |accepted| == |rows|
    ensures AllDerived(r)
    ensures forall e :: e in r ==> e.userId == userId
  {
    if rows == [] then []
    else
      var n := |rows| - 1;
      Routed(columns, rows[..n], accepted[..n], userId, alias, toRemote)
        + (if accepted[n] == toRemote then RecordList(columns, rows[n], userId, alias) else [])
  }

  /** Rows are handled independently: the records of a file are those of its parts. */
  lemma {:induction false} ParsedAppend(columns: seq<string>, a: seq<CsvRow>, b: seq<CsvRow>, userId: Option<string>, alias: string)
    ensures Parsed(columns, a + b, userId, alias) == Parsed(columns, a, userId, alias) + Parsed(columns, b, userId, alias)
    decreases |b|
  {
    if b == [] {
      assert a + b == a;
    } else {
      var n := |b| - 1;
      assert (a + b)[..|a + b| - 1] == a + b[..n];
      assert (a + b)[|a + b| - 1] == b[n];
      ParsedAppend(columns, a, b[..n], userId, alias);
    }
  }

  /** A row that raises is skipped and the rows after it are still imported. */
  lemma FailingRowIsSkipped(columns: seq<string>, a: seq<CsvRow>, row: CsvRow, b: seq<CsvRow>, userId: Option<string>, alias: string)
    requires RowRaises(row)
    ensures Parsed(columns, a + [row] + b, userId, alias) == Parsed(columns, a, userId, alias) + Parsed(columns, b, userId, alias)
  {
    ParsedAppend(columns, a + [row], b, userId, alias);
    ParsedAppend(columns, a, [row], userId, alias);
    ParsedOfFailingRow(columns, row, userId, alias);
    var pa := Parsed(columns, a, userId, alias);
    assert pa + [] == pa;
  }

  lemma ParsedOfFailingRow(columns: seq<string>, row: CsvRow, userId: Option<string>, alias: string)
    requires RowRaises(row)
    ensures Parsed(columns, [row], userId, alias) == []
  {
    assert [row][..0] == [];
    assert RecordList(columns, row, userId, alias) == [];
  }

  function Converts(): CsvRow -> bool {
    row => !RowRaises(row)
  }

  /**
   * One record per row that does not raise: the count is the number of such
   * rows, and all rows are imported iff none raises.
   */
  lemma {:induction false} ParsedCount(columns: seq<string>, rows: seq<CsvRow>, userId: Option<string>, alias: string)
    ensures |Parsed(columns, rows, userId, alias)| == |Filter(rows, Converts())|
    ensures |Parsed(columns, rows, userId, alias)| <= |rows|
    ensures |Parsed(columns, rows, userId, alias)| == |rows| <==> forall i :: 0 <= i < |rows| ==> !RowRaises(rows[i])
  {
    ParsedCountsConverting(columns, rows, userId, alias);
    ParsedCountBounds(columns, rows, userId, alias);
  }

  lemma {:induction false} ParsedCountsConverting(columns: seq<string>, rows: seq<CsvRow>, userId: Option<string>, alias: string)
    ensures |Parsed(columns, rows, userId, alias)| == |Filter(rows, Converts())|
  {
    if rows != [] {
      var n := |rows| - 1;
      var row := rows[n];
      assert rows == rows[..n] + [row];
      ParsedCountsConverting(columns, rows[..n], userId, alias);
      FilterAppend(rows[..n], [row], Converts());
      FilterSingleton(row, Converts());
      assert |RecordList(columns, row, userId, alias)| == |Filter([row], Converts())|;
      assert |Parsed(columns, rows, userId, alias)|
          == |Parsed(columns, rows[..n], userId, alias)| + |RecordList(columns, row, userId, alias)|;
    }
  }

  lemma {:induction false} ParsedCountBounds(columns: seq<string>, rows: seq<CsvRow>, userId: Option<string>, alias: string)
    ensures |Parsed(columns, rows, userId, alias)| <= |rows|
    ensures |Parsed(columns, rows, userId, alias)| == |rows| <==> forall i :: 0 <= i < |rows| ==> !RowRaises(rows[i])
  {
    if rows != [] {
      var n := |rows| - 1;
      ParsedCountBounds(columns, rows[..n], userId, alias);
      assert |Parsed(columns, rows, userId, alias)|
          == |Parsed(columns, rows[..n], userId, alias)| + |RecordList(columns, rows[n], userId, alias)|;
      assert forall i :: 0 <= i < n ==> rows[..n][i] == rows[i];
    }
  }

  /** The record of every row that does not raise is among the imported ones. */
  lemma RowIsImported(columns: seq<string>, rows: seq<CsvRow>, i: nat, userId: Option<string>, alias: string)
    requires i < |rows| && !RowRaises(rows[i])
    ensures RowRecord(columns, rows[i], userId, alias).value in Parsed(columns, rows, userId, alias)
  {
    var row := rows[i];
    assert rows == rows[..i] + [row] + rows[i + 1..];
    ParsedAppend(columns, rows[..i] + [row], rows[i + 1..], userId, alias);
    ParsedAppend(columns, rows[..i], [row], userId, alias);
    assert [row][..0] == [];
    assert Parsed(columns, [row], userId, alias) == [RowRecord(columns, row, userId, alias).value];
  }

  /** Each imported record is stored exactly once, in one of the two stores. */
  lemma {:induction false} RoutedPartition(columns: seq<string>, rows: seq<CsvRow>, accepted: seq<bool>, userId: Option<string>, alias: string)
    requires |accepted| == |rows|
    ensures var toRemote := Routed(columns, rows, accepted, userId, alias, true);
            var toLocal := Routed(columns, rows, accepted, userId, alias, false);
            && |toRemote| + |toLocal| == |Parsed(columns, rows, userId, alias)|
            && multiset(toRemote) + multiset(toLocal) == multiset(Parsed(columns, rows, userId, alias))
  {
    if rows != [] {
      var n := |rows| - 1;
      RoutedPartition(columns, rows[..n], accepted[..n], userId, alias);
    }
  }

  /** Without a working hosted store, every imported record lands locally, in file order. */
  lemma {:induction false} LocalOnlyImport(columns: seq<string>, rows: seq<CsvRow>, accepted: seq<bool>, userId: Option<string>, alias: string)
    requires |accepted| == |rows|
    requires forall i :: 0 <= i < |accepted| ==> !accepted[i]
    ensures Routed(columns, rows, accepted, userId, alias, false) == Parsed(columns, rows, userId, alias)
    ensures Routed(columns, rows, accepted, userId, alias, true) == []
  {
    if rows != [] {
      var n := |rows| - 1;
      LocalOnlyImport(columns, rows[..n], accepted[..n], userId, alias);
    }
  }

  /** What handling row `i` adds to the records and to each store's share. */
  lemma ImportStep(columns: seq<string>, rows: seq<CsvRow>, accepted: seq<bool>, userId: Option<string>, alias: string, i: nat)
    requires |accepted| == |rows| && i < |rows|
    ensures Parsed(columns, rows[..i + 1], userId, alias)
            == Parsed(columns, rows[..i], userId, alias) + RecordList(columns, rows[i], userId, alias)
    ensures Routed(columns, rows[..i + 1], accepted[..i + 1], userId, alias, false)
            == Routed(columns, rows[..i], accepted[..i], userId, alias, false)
               + (if !accepted[i] then RecordList(columns, rows[i], userId, alias) else [])
    ensures Routed(columns, rows[..i + 1], accepted[..i + 1], userId, alias, true)
            == Routed(columns, rows[..i], accepted[..i], userId, alias, true)
               + (if accepted[i] then RecordList(columns, rows[i], userId, alias) else [])
  {
    assert rows[..i + 1][..i] == rows[..i] && accepted[..i + 1][..i] == accepted[..i];
    assert rows[..i + 1][i] == rows[i] && accepted[..i + 1][i] == accepted[i];
  }

  /**
   * The `try` block for one row: a row that raises stores nothing (the
   * "Failed row" warning); any other row is stored with the fallback rule.
   */
  method ImportRow(local: LocalStore, remote: RemoteStore, columns: seq<string>, row: CsvRow,
                   userId: Option<string>, alias: string, accepted: bool)
    returns (stored: bool)
    modifies local, remote
    ensures stored == !RowRaises(row)
    ensures local.rows == old(local.rows) + (if !accepted then RecordList(columns, row, userId, alias) else [])
    ensures remote.rows == old(remote.rows) + (if accepted then RecordList(columns, row, userId, alias) else [])
  {
    var record := RowRecord(columns, row, userId, alias);
    stored := record.Some?;
    if stored {
      var _ := SaveWithFallback(local, remote, record.value, accepted);
    }
  }

  /** The row loop: `count` is the number of rows stored. */
  method ImportRows(local: LocalStore, remote: RemoteStore, columns: seq<string>, rows: seq<CsvRow>,
                    userId: Option<string>, alias: string, accepted: seq<bool>)
    returns (count: nat)
    requires |accepted| == |rows|
    modifies local, remote
    ensures count == |Parsed(columns, rows, userId, alias)|
    ensures local.rows == old(local.rows) + Routed(columns, rows, accepted, userId, alias, false)
    ensures remote.rows == old(remote.rows) + Routed(columns, rows, accepted, userId, alias, true)
    ensures old(AllDerived(local.rows)) ==> AllDerived(local.rows)
    ensures old(AllDerived(remote.rows)) ==> AllDerived(remote.rows)
  {
    count := 0;
    var i := 0;
    ghost var parsed, toLocal, toRemote := [], [], [];
    assert rows[..0] == [] && accepted[..0] == [];
    while i < |rows|
      invariant 0 <= i <= |rows|
      invariant parsed == Parsed(columns, rows[..i], userId, alias)
      invariant toLocal == Routed(columns, rows[..i], accepted[..i], userId, alias, false)
      invariant toRemote == Routed(columns, rows[..i], accepted[..i], userId, alias, true)
      invariant count == |parsed|
      invariant local.rows == old(local.rows) + toLocal
      invariant remote.rows == old(remote.rows) + toRemote
    {
      ghost var step := RecordList(columns, rows[i], userId, alias);
      ImportStep(columns, rows, accepted, userId, alias, i);
      var stored := ImportRow(local, remote, columns, rows[i], userId, alias, accepted[i]);
      AppendAssoc(old(local.rows), toLocal, if !accepted[i] then step else []);
      AppendAssoc(old(remote.rows), toRemote, if accepted[i] then step else []);
      parsed := parsed + step;
      toLocal := toLocal + (if !accepted[i] then step else []);
      toRemote := toRemote + (if accepted[i] then step else []);
      assert |step| == if stored then 1 else 0;
      if stored {
        count := count + 1;
      }
      i := i + 1;
    }
    assert rows[..i] == rows && accepted[..i] == accepted;
  }

  /** The import branch of `page_enter_data`. */
  method ImportCsv(local: LocalStore, remote: RemoteStore, table: CsvTable, userId: Option<string>, alias: string,
                   accepted: seq<bool>)
    returns (outcome: ImportOutcome)
    requires |accepted| == |table.rows|
    modifies local, remote
    ensures Missing(table.columns) != [] ==>
              outcome == MissingColumns(Missing(table.columns))
              && local.rows == old(local.rows) && remote.rows == old(remote.rows)
    ensures Missing(table.columns) == [] ==>
              outcome == Imported(|Parsed(table.columns, table.rows, userId, alias)|)
              && local.rows == old(local.rows) + Routed(table.columns, table.rows, accepted, userId, alias, false)
              && remote.rows == old(remote.rows) + Routed(table.columns, table.rows, accepted, userId, alias, true)
    ensures old(AllDerived(local.rows)) ==> AllDerived(local.rows)
    ensures old(AllDerived(remote.rows)) ==> AllDerived(remote.rows)
  {
    var missing := Missing(table.columns);
    if missing != [] {
      return MissingColumns(missing);
    }
    var count := ImportRows(local, remote, table.columns, table.rows, userId, alias, accepted);
    outcome := Imported(count);
  }
}
