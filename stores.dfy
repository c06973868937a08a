/**
 * The two places an entry can be written: the local `daily_emissions` table
 * (`insert_local`) and the optional hosted table (`insert_supabase`), and the
 * rule that an entry the hosted table does not take goes to the local one.
 */
module Stores {
  import opened Wrappers
  import opened Dates
  import opened Entries

  /** The local `daily_emissions` table, in insertion (row id) order. */
  class LocalStore {
    var rows: seq<Entry>

    constructor ()
      ensures rows == []
    {
      rows := [];
    }

    /** `insert_local`: appends one row. */
    method Insert(e: Entry)
      modifies this
      ensures rows == old(rows) + [e]
    {
      rows := rows + [e];
    }
  }

  /** The hosted table, which the pages never read back. */
  class RemoteStore {
    var rows: seq<Entry>

    constructor ()
      ensures rows == []
    {
      rows := [];
    }

    /**
     * `insert_supabase`: `accepted` stands for the outcome of the network call
     * (false when no client is configured or the insert raises).
     */
    method Insert(e: Entry, accepted: bool) returns (ok: bool)
      modifies this
      ensures ok == accepted
      ensures rows == if ok then old(rows) + [e] else old(rows)
    {
      ok := accepted;
      if ok {
        rows := rows + [e];
      }
    }
  }

  /** `if not insert_supabase(rec): insert_local(rec)`: the entry lands in exactly one store. */
  method SaveWithFallback(local: LocalStore, remote: RemoteStore, e: Entry, accepted: bool) returns (toRemote: bool)
    modifies local, remote
    ensures toRemote == accepted
    ensures remote.rows == old(remote.rows) + (if accepted then [e] else [])
    ensures local.rows == old(local.rows) + (if accepted then [] else [e])
    ensures |local.rows| + |remote.rows| == old(|local.rows| + |remote.rows|) + 1
    ensures Derived(e) && old(AllDerived(local.rows)) ==> AllDerived(local.rows)
    ensures Derived(e) && old(AllDerived(remote.rows)) ==> AllDerived(remote.rows)
  {
    toRemote := remote.Insert(e, accepted);
    if !toRemote {
      local.Insert(e);
    }
  }

  /** "Save entry": build the record from the form, store it, report its total. */
  method SaveEntry(local: LocalStore, remote: RemoteStore, userId: Option<string>, alias: string, date: Date,
                   distance: real, mode: string, electricity: real, lpg: real, notes: string, accepted: bool)
    returns (total: real)
    modifies local, remote
    ensures var e := ManualRecord(userId, alias, date, distance, mode, electricity, lpg, notes);
            && total == e.em.total
            && remote.rows == old(remote.rows) + (if accepted then [e] else [])
            && local.rows == old(local.rows) + (if accepted then [] else [e])
    ensures old(AllDerived(local.rows)) ==> AllDerived(local.rows)
    ensures old(AllDerived(remote.rows)) ==> AllDerived(remote.rows)
  {
    var e := ManualRecord(userId, alias, date, distance, mode, electricity, lpg, notes);
    var _ := SaveWithFallback(local, remote, e, accepted);
    total := e.em.total;
  }
}
