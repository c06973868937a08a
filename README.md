# Carbon footprint calculator: a Dafny model of its emissions and aggregation core

The application is a single-file Streamlit app (`app.py`). Users record
a day's travel, electricity and LPG use, import the same data from a CSV file,
set a weekly CO₂ target, and look at their history, a public leaderboard and
summary insights. This project models the computational core behind those
pages and proves properties of it:

- **Emission calculator** (`Emissions`): the transport factor table, the
  electricity and LPG factors, and `compute_emissions`. An unknown transport
  mode counts as factor 0.
- **Entries and stores** (`Entries`, `Stores`): the record built by
  "Save entry". The local `daily_emissions` table and the optional hosted
  table are classes whose `Insert` methods append rows. The rule that an entry
  the hosted table refuses goes to the local table is modelled too. So is
  `fetch_all_local_for_user`: a falsy user id (none or empty) returns every
  user's rows, and the rows come back ordered by date.
  Every write keeps the data-model invariant of both tables: each row's
  emissions were computed from its own quantities, so its total is the sum
  of its three parts (`Entries.AllDerived`).
- **CSV import** (`CsvImport`): a missing required column refuses the whole
  file and stores nothing. Otherwise the row loop stores each row with the
  fallback rule. A row whose conversion raises is skipped. The count
  reported is the number of rows stored.
- **Goals** (`Goals`): the `user_goals` table as a class, with its
  first-row lookup and its insert-or-update save. Also the `current or 20.0`
  default and the weekly check: this Monday to today, compared strictly
  against the target.
- **Leaderboard** (`Leaderboard`): rows dated from `today - 7` are grouped by
  alias and summed, then sorted ascending. The first ten rows are proved to
  form a correct ranking whatever the order of ties.
- **History** (`History`): the monthly rollup and the latest fourteen
  entries, shown as stacked bars.
- **Insights** (`Insights`): the all-time sum and mean.
- **Dates** (`Dates`): calendar dates as Python's proleptic Gregorian
  ordinals, with Monday as weekday 0.
- **Scenario** (`Scenario`): a worked week, checked against the default
  target.

Amounts are Dafny `real`s. Calendar dates are compared through their ordinal.
The hosted store's answer to an insert is a boolean parameter (`accepted`).
It stands for the network call, the missing client and the exception path.
The hosted table is never read back, so only local rows reach the history,
goals, leaderboard and insights pages.

Behaviour of the code that the model keeps as written:

- The leaderboard window has no upper bound. Rows dated after today are
  counted, and the window `today - 7 .. today` spans eight calendar days.
- Rows whose alias is null are dropped by the grouping. `groupby` drops null
  keys, so the later `fillna('Anonymous')` never relabels anything.
- A saved weekly target of 0.0 is falsy. The next visit's input therefore
  starts from 20.0 again (`Goals.SavedTargetShown`).
- Saving a goal without a signed-in user inserts a row with a null user id
  every time. That row is never read back.
- The CSV `alias` and `notes` cells fall back to the page's alias and to `""`
  only when the column itself is absent. An empty cell stays null.

## Model

| member | source | states |
|---|---|---|
| Dates.WeekdayOf | app.py:304 | the weekday is in 0..6 and is the day's distance from the last Monday (ordinal 1 is a Monday) |
| Dates.WeekStart | app.py:303-304 | the week's start is the Monday at most six days before today |
| Dates.WeekWindowIsCalendarWeek | app.py:303-308 | a day is in `[start_week, today]` exactly when it is no later than today and in today's Monday-started week |
| Dates.FirstDayIsMonday | app.py:304 | 0001-01-01 has ordinal 1 and weekday 0, matching `toordinal`/`weekday` |
| Dates.NewYear2024IsMonday | app.py:304 | 2024-01-01 has ordinal 738886 and is a Monday |
| Dates.Ordinal | app.py:304-308 | no contract of its own: `FirstDayIsMonday`, `NewYear2024IsMonday` and `OrdinalOfNextDay` pin it to `toordinal()` |
| Dates.OrdinalOfNextDay | app.py:304 | the day after a valid date has the next ordinal (and is valid unless it leaves year 9999), so subtracting `timedelta(days=n)` subtracts n from the ordinal |
| Dates.MonthKey | app.py:258 | no contract of its own: `MonthStartOfDate` and `MonthKeyFollowsDates` state it is the `to_period("M")` key and follows date order |
| Dates.MonthKeyFollowsDates | app.py:258 | of two valid dates the earlier never has the later month key, so month-key order is chronological order |
| Dates.MonthStart | app.py:259 | the first day of a month key is day 1 of a month 1..12 with that key |
| Dates.MonthStartOfDate | app.py:258-259 | for a valid date, the timestamp of its month period is the first of the same year and month |
| Emissions.TransportFactor | app.py:95 | a table mode gets its table factor and any other text gets 0; every factor is in 0..0.192 |
| Emissions.ModeFactors | app.py:18-24 | each of the five modes emits its table factor per km and an unknown mode emits nothing |
| Emissions.Compute | app.py:94-105 | each part is its quantity times its factor, the total is the sum of the parts, and non-negative inputs give non-negative parts |
| Emissions.ComputeIsAdditive | app.py:94-105 | the emissions of summed quantities are the sums of the emissions |
| Emissions.ComputeIsMonotone | app.py:94-105 | more of any quantity never lowers the total |
| Sequences.Filter | app.py:308 | the kept elements are exactly those of the input satisfying the predicate, each with its multiplicity in the input |
| Sequences.SortBy | app.py:123 | the result is ordered by the key and is a permutation of the input |
| Sequences.Tail | app.py:269 | the result is the last `min(n, len)` elements |
| Sequences.Head | app.py:330 | the result is the first `min(n, len)` elements |
| Sequences.SumOfPermutation | app.py:309 | a sum does not depend on the order of its terms |
| Sequences.SumOfBounds | app.py:342 | a sum of terms in `[lo, hi]` lies between `n*lo` and `n*hi` |
| Entries.ManualRecord | app.py:189-203 | the saved record carries the form's fields and its derived emissions, whose total is the sum of the three parts |
| Entries.Truthy | app.py:122 | no contract of its own: the `if user_id:` test, which `Selected` and `Goals.Lookup` state their two cases by |
| Entries.Selected | app.py:122-125 | a truthy id selects exactly that user's rows, every copy of a repeated row included; a falsy id selects every row; a selection from a table whose rows were all derived by the calculator is such a table too |
| Entries.FetchForUser | app.py:121-128 | the fetched rows are the selected rows, reordered by date ascending |
| Stores.LocalStore.Insert | app.py:108-119 | the local table gains the record at its end |
| Stores.RemoteStore.Insert | app.py:130-138 | the hosted table gains the record exactly when the insert succeeds, and the result reports that |
| Stores.SaveWithFallback | app.py:204-205 | exactly one of the two stores gains the entry: the hosted one if it took it, else the local one; a derived entry keeps each store's rows all derived |
| Stores.SaveEntry | app.py:188-206 | "Save entry" stores the form's record by the fallback rule and reports its total; each store whose rows were all derived by the calculator stays so |
| CsvImport.Missing | app.py:214-215 | a column is reported missing exactly when it is required and absent; none are missing exactly when all required are present |
| CsvImport.RowRaises | app.py:221-242 | no contract of its own: a conversion in the `try` block fails; `RowRecord` states a row yields a record exactly when it does not |
| CsvImport.RowRecord | app.py:221-237 | a row yields a record exactly when no conversion raises, and the record's emissions are derived from its quantities |
| CsvImport.RowRecordFields | app.py:222-236 | the record keeps the row's date, mode and quantities; alias and notes come from the row only when the file has those columns |
| CsvImport.ParsedAppend | app.py:220-242 | rows are handled independently: a file's records are its parts' records, concatenated |
| CsvImport.FailingRowIsSkipped | app.py:241-242 | a row that raises adds nothing and does not stop the rows after it |
| CsvImport.Parsed | app.py:219-242 | every imported record was derived by the calculator and carries the page's user id; `ParsedCount` and `ParsedAppend` give the rest |
| CsvImport.Routed | app.py:238-239 | every record a store receives was derived by the calculator and carries the page's user id; `RoutedPartition` states the two shares partition the records |
| CsvImport.ParsedCount | app.py:219-243 | the number of records is the number of rows that do not raise; it is at most the row count, and equal to it exactly when no row raises |
| CsvImport.RowIsImported | app.py:221-240 | the record of every row that does not raise is among the imported ones |
| CsvImport.RoutedPartition | app.py:238-239 | each imported record is stored exactly once, in one of the two stores |
| CsvImport.LocalOnlyImport | app.py:238-239 | with the hosted store refusing everything, all records land locally in file order |
| CsvImport.ImportStep | app.py:220-240 | handling one more row extends the records and the chosen store's share by that row's record |
| CsvImport.ImportRow | app.py:221-242 | one row is stored, by the fallback rule, exactly when it does not raise |
| CsvImport.ImportRows | app.py:219-243 | the loop's count is the number of records, and each store gains exactly its share of them, in file order; each store whose rows were all derived stays so |
| CsvImport.ImportCsv | app.py:212-243 | a missing column gives the missing list and stores nothing; otherwise the count and the stores' shares are those of the row loop; each store whose rows were all derived stays so |
| Goals.FirstTarget | app.py:290-292 | none exactly when the user has no row; otherwise the target of the user's first row |
| Goals.Lookup | app.py:288-292 | a falsy id never looks anything up; a truthy id gets its first row's target |
| Goals.InitialTarget | app.py:293 | the input starts from the stored target, or 20.0 when none is stored or the stored one is 0.0 |
| Goals.Saved | app.py:294-298 | an insert adds one row at the end, an update keeps the row count; other users' rows stay in place, and a signed-in user's rows all carry the new target |
| Goals.SetTarget | app.py:298 | every row of the user gets the new target and every other row is kept |
| Goals.SavedLookup | app.py:294-298 | after saving, the user's lookup returns the new target (none for a falsy id) and other users' lookups are unchanged |
| Goals.SavedTargetShown | app.py:289-298 | the next input starts from the saved target, except a saved 0.0 or a guest, which start from 20.0 |
| Goals.FirstTargetAfterAppend | app.py:296 | an inserted row is found only by a user who had no row before |
| Goals.FirstTargetAfterUpdate | app.py:298 | after the update, the user finds the new target and nobody else's lookup changes |
| Goals.SavedKeepsOneRowPerUser | app.py:294-298 | saving never gives a truthy user a second row |
| Goals.GoalStore.Save | app.py:294-299 | inserts exactly when nothing was found, else updates; the user then finds the target, others are unchanged, one row per user is kept |
| Goals.WeeklyTotal | app.py:305-309 | the sum over all the rows with those outside this Monday..today counted as zero |
| Goals.Compare | app.py:311-314 | exceeded exactly when the total is strictly above the target; within exactly when it is at most the target |
| Goals.WeeklyCheck | app.py:306-314 | no alert exactly when there are no rows; exceeded exactly when there are rows and the weekly total is strictly above the target |
| Goals.WeeklyTotalAppend | app.py:308-309 | the weekly total of two batches is the sum of their totals |
| Goals.WeeklyTotalOfEntry | app.py:308-309 | one entry contributes its total exactly when it falls between this Monday and today |
| Goals.WeeklyTotalOrderFree | app.py:305-309 | the weekly total does not depend on row order |
| Goals.WeeklyTotalNonNegative | app.py:309 | non-negative entries give a non-negative weekly total |
| Goals.GoalAlert | app.py:302-314 | the alert is exceeded exactly when this week's total over the user's rows is strictly above the target; there is no alert when the user has no rows |
| Goals.ExceededPersists | app.py:311-314 | adding non-negative entries never clears an exceeded alert |
| Goals.WithinForHigherTarget | app.py:311-314 | raising the target never turns within into exceeded |
| Leaderboard.Window | app.py:324-326 | every copy of each row dated `today - 7` or later, and no other row |
| Leaderboard.Aliases | app.py:327 | each group key appears once, and the keys are exactly the non-null aliases present |
| Leaderboard.AliasesCount | app.py:327 | there are as many groups as distinct non-null aliases |
| Leaderboard.Grouped | app.py:327 | one row per alias of the window, each with that alias's summed total |
| Leaderboard.SortedIsGrouping | app.py:329 | sorting keeps the grouping |
| Leaderboard.HeadIsLowest | app.py:329-330 | no alias left out of the first ten has a smaller total than a shown one |
| Leaderboard.HeadOfSortedGrouping | app.py:329-330 | the first ten rows of a sorted grouping form a ranking |
| Leaderboard.Ranked | app.py:323-330 | the table has min(10, aliases) rows, distinct aliases with their sums, ascending, and omits no lower total |
| Leaderboard.Board | app.py:320-330 | nothing is shown for an empty table; otherwise the table is a ranking of the window |
| Leaderboard.LeaderboardFor | app.py:317-330 | the page reads every user's rows; nothing for an empty table, otherwise a ranking of the window of the local table |
| Leaderboard.WindowsAgree | app.py:319-327 | the order `fetch_all_local_for_user` returns rows in changes neither the window's aliases nor their sums |
| Leaderboard.OldEntryIgnored | app.py:324-326 | an entry dated before `today - 7` never changes the table |
| Leaderboard.RecentEntryCounted | app.py:324-327 | an entry with an alias dated `today - 7` or later adds its total to its alias's group |
| History.Monthly | app.py:258 | the rollup rows are chronological, one month per row; `MonthlyIsRollup` states each holds exactly its month's sums |
| History.AddToMonthsFacts | app.py:258 | adding an entry keeps the months chronological, adds its month, and adds it to that month's sums only |
| History.MonthlyIsRollup | app.py:258 | one row per month present, chronological, each holding the sums of exactly that month's entries |
| History.MonthlyRows | app.py:258 | each row sums its own month's entries, and its month occurs among the entries |
| History.MonthlyRowsBalanced | app.py:258 | each month's emission parts add up to its total when every entry's do |
| History.MonthlyConservesTotal | app.py:258 | the months' totals add up to the total over all entries |
| History.MonthlySeries | app.py:258-261 | one point per month present, chronological, each at the month's first day with the sum of that month's `total_emission` |
| History.Latest | app.py:269 | the fourteen newest entries (or all), oldest first, drawn from the input, none left out newer than one kept |
| History.TailOfSorted | app.py:269 | a suffix of a date-sorted list is sorted and holds its newest entries |
| History.Stacked | app.py:271-274 | one bar per entry with its transport, electricity and LPG emissions; electricity sits on transport, LPG on transport + electricity, and LPG's top is the entry's total |
| History.HistoryCharts | app.py:246-277 | no charts exactly when the user has no rows; otherwise one point per month of the user's rows, at the month's first day with that month's total, and the bars of the min(14, n) newest of those rows, oldest first, each topping at its row's total when the table's rows were all derived by the calculator |
| Insights.Summarize | app.py:341-342 | none exactly for no entries; otherwise the sum of totals, and the mean times the count is that sum |
| Insights.MeanWithinBounds | app.py:342 | the mean lies between the smallest and the largest entry total |
| Insights.SummarizeOrderFree | app.py:341-342 | neither metric depends on row order |
| Insights.InsightsFor | app.py:336-342 | the page summarises exactly the user's rows, or every row for a falsy id |
| Scenario.DriveIsRecorded | app.py:189-203 | 10 km by petrol car is saved with 1.92 kg |
| Scenario.WorkedWeek | app.py:302-314 | the worked week totals 2.82 kg, which is within the default 20 kg target, with a mean of 0.94 kg |

## Left out

- Streamlit UI, page navigation and session state: the user id, alias, form values and today's date are parameters.
- SQLite and the hosted client: tables are in-memory sequences, and the hosted insert's outcome is a parameter.
- Sign-up and sign-in are not part of this model.
- The OpenAI recommendations, including the `tail(7)` summary they are given, are external text generation.
- Chart rendering and the CSV download are presentation and export only.
- The history page's descending table (app.py:254) is display only.
- `pd.read_csv` and `pd.to_datetime` parsing is left out: a CSV row arrives with each convertible cell as a value and each failing one as none.
- Floating point is not modelled: amounts are exact reals, NaN cells are not represented, and `.2f` rounding is display only.
- Sequences.SortBy: tie order is not pandas' (`sort_values` is not stable); what is proved holds for any order of ties.
- Entries.FetchForUser: SQLite's order among rows of the same date is unspecified; the model's sort is stable and keeps insertion order, and nothing proved depends on it.
- The monthly rollup (`History.Monthly`) sums only the numeric columns. It assumes pandas drops the non-numeric ones from `.sum()` (the pandas 1.x default); with `numeric_only=False`, as in pandas 2.x, summing the `date` column would raise before any chart is drawn.
- The `number_input` lower bound of 0.0 is a UI constraint; the model accepts any real.
