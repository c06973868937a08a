/** The insights page's two metrics over the user's saved entries. */
module Insights {
  import opened Wrappers
  import opened Sequences
  import opened Entries

  /** `df['total_emission'].sum()` and `.mean()`. */
  datatype Summary = Summary(total: real, mean: real)

  /** None stands for the "add entries first" notice on an empty table. */
  function Summarize(es: seq<Entry>): (r: Option<Summary>)
    ensures r.None? <==> es == []
    ensures r.Some? ==> r.value.total == SumOf(es, Total)
    ensures r.Some? ==> r.value.mean * (|es| as real) == r.value.total
  {
    if es == [] then None
    else
      var total := SumOf(es, Total);
      Some(Summary(total, total / |es| as real))
  }

  /**
   * The page reads the user's rows through the local fetch, and summarises
   * exactly those rows (every row for a falsy id).
   */
  function InsightsFor(rows: seq<Entry>, userId: Option<string>): (r: Option<Summary>)
    ensures r == Summarize(Selected(rows, userId))
  {
    SummarizeOrderFree(FetchForUser(rows, userId), Selected(rows, userId));
    Summarize(FetchForUser(rows, userId))
  }

  /** The mean lies between the smallest and the largest entry total. */
  lemma MeanWithinBounds(es: seq<Entry>, lo: real, hi: real)
    requires es != []
    requires forall i :: 0 <= i < |es| ==> lo <= es[i].em.total <= hi
    ensures lo <= Summarize(es).value.mean <= hi
  {
    SumOfBounds(es, Total, lo, hi);
    var n := |es| as real;
    var m := Summarize(es).value.mean;
    var total := SumOf(es, Total);
    assert m * n == total;
    assert n * lo <= total <= n * hi;
    assert n > 0.0;
    assert (m - lo) * n >= 0.0 && (hi - m) * n >= 0.0;
  }

  /** Neither metric depends on the order the rows come back in. */
  lemma SummarizeOrderFree(a: seq<Entry>, b: seq<Entry>)
    requires multiset(a) == multiset(b)
    ensures Summarize(a) == Summarize(b)
  {
    SumOfPermutation(a, b, Total);
    assert |a| == |multiset(a)| == |b|;
  }
}
