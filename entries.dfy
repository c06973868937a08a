/**
 * One row of the `daily_emissions` table, how the entry form builds it, and
 * how the pages read the table back (`fetch_all_local_for_user`).
 */
module Entries {
  import opened Wrappers
  import opened Dates
  import opened Emissions
  import opened Sequences

  /**
   * A stored entry. `userId` is NULL without a session user; `alias` and
   * `notes` can be NULL when they come from empty CSV cells.
   */
  datatype Entry = Entry(
    userId: Option<string>,
    alias: Option<string>,
    date: Date,
    mode: string,
    distance: real,
    electricity: real,
    lpg: real,
    em: Emissions,
    notes: Option<string>)

  /** The derived fields were computed from the entry's own quantities. */
  predicate Derived(e: Entry) {
    e.em == Compute(e.distance, e.mode, e.electricity, e.lpg)
  }

  /**
   * The data-model invariant of a table: every row's emissions were computed
   * from its own quantities, so its total is the sum of its three parts.
   */
  predicate AllDerived(rows: seq<Entry>) {
    forall e :: e in rows ==> Derived(e)
  }

  /** The `total_emission` column. */
  function Total(e: Entry): real {
    e.em.total
  }

  /** The `date` column as a sort key (chronological order). */
  function DateKey(e: Entry): real {
    Ordinal(e.date) as real
  }

  /** Python truthiness of an optional text value: neither None nor empty. */
  predicate Truthy(u: Option<string>) {
    u.Some? && u.value != ""
  }

  /** The record `page_enter_data` builds when "Save entry" is pressed. */
  function ManualRecord(userId: Option<string>, alias: string, date: Date, distance: real, mode: string,
                        electricity: real, lpg: real, notes: string): (e: Entry)
    ensures Derived(e) && Consistent(e.em)
    ensures e.em.total == distance * TransportFactor(mode) + electricity * 0.18 + lpg * 3.0
    ensures e.userId == userId && e.alias == Some(alias) && e.date == date && e.notes == Some(notes)
    ensures e.distance == distance && e.electricity == electricity && e.lpg == lpg && e.mode == mode
  {
    Entry(userId, Some(alias), date, mode, distance, electricity, lpg,
          Compute(distance, mode, electricity, lpg), Some(notes))
  }

  function OfUser(userId: Option<string>): Entry -> bool {
    (e: Entry) => e.userId == userId
  }

  /** `WHERE user_id=?` when the id is truthy; otherwise every user's rows. */
  function Selected(rows: seq<Entry>, userId: Option<string>): (r: seq<Entry>)
    ensures Truthy(userId) ==> forall i :: 0 <= i < |r| ==> r[i] in rows && r[i].userId == userId
    ensures Truthy(userId) ==> forall i :: 0 <= i < |rows| && rows[i].userId == userId ==> rows[i] in r
    ensures Truthy(userId) ==> forall e :: multiset(r)[e] == if e.userId == userId then multiset(rows)[e] else 0
    ensures !Truthy(userId) ==> r == rows
    ensures AllDerived(rows) ==> AllDerived(r)
  {
    if Truthy(userId) then Filter(rows, OfUser(userId)) else rows
  }

  /** `fetch_all_local_for_user`: the selected rows, `ORDER BY date ASC`. */
  function FetchForUser(rows: seq<Entry>, userId: Option<string>): (r: seq<Entry>)
    ensures SortedBy(r, DateKey)
    ensures multiset(r) == multiset(Selected(rows, userId))
  {
    SortBy(Selected(rows, userId), DateKey)
  }
}
