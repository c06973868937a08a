/**
 * The dataframe operations the aggregates are built from, over sequences:
 * boolean-mask selection, column sums and `sort_values` by a numeric key.
 */
module Sequences {

  /** `df[mask]`: the elements satisfying `p`, in their original order. */
  function Filter<T(!new)>(s: seq<T>, p: T -> bool): (r: seq<T>)
    ensures |r| <= |s|
    ensures forall i :: 0 <= i < |r| ==> r[i] in s && p(r[i])
    ensures forall i :: 0 <= i < |s| && p(s[i]) ==> s[i] in r
    ensures forall x :: multiset(r)[x] == if p(x) then multiset(s)[x] else 0
  {
    if s == [] then []
    else
      var rest := Filter(s[1..], p);
      var r := (if p(s[0]) then [s[0]] else []) + rest;
      FilterStepMembers(s, p, rest, r);
      FilterStepMultiset(s, p, rest, r);
      r
  }

  /** One step of `Filter` keeps the membership facts. */
  lemma FilterStepMembers<T>(s: seq<T>, p: T -> bool, rest: seq<T>, r: seq<T>)
    requires s != [] && r == (if p(s[0]) then [s[0]] else []) + rest
    requires forall i :: 0 <= i < |rest| ==> rest[i] in s[1..] && p(rest[i])
    requires forall i :: 0 <= i < |s[1..]| && p(s[1..][i]) ==> s[1..][i] in rest
    ensures forall i :: 0 <= i < |r| ==> r[i] in s && p(r[i])
    ensures forall i :: 0 <= i < |s| && p(s[i]) ==> s[i] in r
  {
    forall i | 0 <= i < |s| && p(s[i]) ensures s[i] in r {
      if i > 0 {
        assert s[1..][i - 1] == s[i];
      }
    }
    forall i | 0 <= i < |r| ensures r[i] in s && p(r[i]) {
      if !p(s[0]) || i > 0 {
        var j := if p(s[0]) then i - 1 else i;
        assert r[i] == rest[j];
      }
    }
  }

  /** One step of `Filter` keeps each element's multiplicity. */
  lemma FilterStepMultiset<T>(s: seq<T>, p: T -> bool, rest: seq<T>, r: seq<T>)
    requires s != [] && r == (if p(s[0]) then [s[0]] else []) + rest
    requires forall x :: multiset(rest)[x] == if p(x) then multiset(s[1..])[x] else 0
    ensures forall x :: multiset(r)[x] == if p(x) then multiset(s)[x] else 0
  {
    assert s == [s[0]] + s[1..];
    assert multiset(s) == multiset{s[0]} + multiset(s[1..]);
    assert multiset(r) == multiset(if p(s[0]) then [s[0]] else []) + multiset(rest);
  }

  /** Selecting from a single row keeps it exactly when it satisfies `p`. */
  lemma FilterSingleton<T(!new)>(x: T, p: T -> bool)
    ensures Filter([x], p) == if p(x) then [x] else []
  {
    assert [x][1..] == [];
  }

  lemma {:induction false} FilterAppend<T(!new)>(a: seq<T>, b: seq<T>, p: T -> bool)
    ensures Filter(a + b, p) == Filter(a, p) + Filter(b, p)
  {
    if a == [] {
      assert a + b == b;
    } else {
      var h := if p(a[0]) then [a[0]] else [];
      assert (a + b)[0] == a[0] && (a + b)[1..] == a[1..] + b;
      FilterAppend(a[1..], b, p);
      assert Filter(a + b, p) == h + Filter(a[1..] + b, p);
      assert Filter(a, p) == h + Filter(a[1..], p);
      AppendAssoc(h, Filter(a[1..], p), Filter(b, p));
    }
  }

  lemma AppendAssoc<T>(a: seq<T>, b: seq<T>, c: seq<T>)
    ensures (a + b) + c == a + (b + c)
  {
  }

  /** Removing the element at `i` removes one occurrence of it from the multiset. */
  lemma RemoveAt<T>(b: seq<T>, i: nat)
    requires i < |b|
    ensures b == b[..i] + [b[i]] + b[i + 1..]
    ensures multiset(b[..i] + b[i + 1..]) == multiset(b) - multiset{b[i]}
  {
    assert b == b[..i] + [b[i]] + b[i + 1..];
    assert multiset(b) == multiset(b[..i]) + multiset{b[i]} + multiset(b[i + 1..]);
  }

  /** `series.sum()` of the column `f`; zero for no rows. */
  function SumOf<T>(s: seq<T>, f: T -> real): real {
    if s == [] then 0.0 else f(s[0]) + SumOf(s[1..], f)
  }

  lemma {:induction false} SumOfAppend<T>(a: seq<T>, b: seq<T>, f: T -> real)
    ensures SumOf(a + b, f) == SumOf(a, f) + SumOf(b, f)
  {
    if a == [] {
      assert a + b == b;
    } else {
      assert (a + b)[1..] == a[1..] + b;
      SumOfAppend(a[1..], b, f);
    }
  }

  /** The sum is the removed element plus the sum of the rest. */
  lemma SumOfRemoveAt<T>(b: seq<T>, i: nat, f: T -> real)
    requires i < |b|
    ensures SumOf(b, f) == f(b[i]) + SumOf(b[..i] + b[i + 1..], f)
  {
    var left, x, right := b[..i], b[i], b[i + 1..];
    assert b == left + ([x] + right);
    SumOfAppend(left, [x] + right, f);
    SumOfCons(x, right, f);
    SumOfAppend(left, right, f);
  }

  lemma SumOfCons<T>(x: T, s: seq<T>, f: T -> real)
    ensures SumOf([x] + s, f) == f(x) + SumOf(s, f)
  {
    assert ([x] + s)[1..] == s;
  }

  /** A sum does not depend on the order of the rows. */
  lemma {:induction false} SumOfPermutation<T>(a: seq<T>, b: seq<T>, f: T -> real)
    requires multiset(a) == multiset(b)
    ensures SumOf(a, f) == SumOf(b, f)
    decreases |a|
  {
    if a == [] {
      assert |b| == |multiset(b)| == 0;
    } else {
      var x := a[0];
      assert x in multiset(b);
      var i :| 0 <= i < |b| && b[i] == x;
      RemoveAt(b, i);
      assert a == [x] + a[1..];
      assert multiset(a[1..]) == multiset(a) - multiset{x};
      SumOfPermutation(a[1..], b[..i] + b[i + 1..], f);
      SumOfRemoveAt(b, i, f);
      assert SumOf(a, f) == f(x) + SumOf(a[1..], f);
    }
  }

  /** The column `f` with the rows failing `p` zeroed out. */
  function Masked<T>(p: T -> bool, f: T -> real): T -> real {
    x => if p(x) then f(x) else 0.0
  }

  /** Summing the selected rows is summing the masked column over all rows. */
  lemma {:induction false} SumOfFilter<T(!new)>(s: seq<T>, p: T -> bool, f: T -> real)
    ensures SumOf(Filter(s, p), f) == SumOf(s, Masked(p, f))
  {
    if s != [] {
      SumOfFilter(s[1..], p, f);
      var head := if p(s[0]) then [s[0]] else [];
      SumOfAppend(head, Filter(s[1..], p), f);
      assert [s[0]][1..] == [];
    }
  }

  /** A sum over a selection does not depend on the order of the rows either. */
  lemma FilteredSumOfPermutation<T(!new)>(a: seq<T>, b: seq<T>, p: T -> bool, f: T -> real)
    requires multiset(a) == multiset(b)
    ensures SumOf(Filter(a, p), f) == SumOf(Filter(b, p), f)
  {
    SumOfFilter(a, p, f);
    SumOfFilter(b, p, f);
    SumOfPermutation(a, b, Masked(p, f));
  }

  /** A sum of non-negative terms is non-negative, and bounded by the terms' bounds. */
  lemma {:induction false} SumOfBounds<T>(s: seq<T>, f: T -> real, lo: real, hi: real)
    requires forall i :: 0 <= i < |s| ==> lo <= f(s[i]) <= hi
    ensures |s| as real * lo <= SumOf(s, f) <= |s| as real * hi
  {
    if s != [] {
      SumOfBounds(s[1..], f, lo, hi);
      assert (|s| - 1) as real * lo + lo == |s| as real * lo;
      assert (|s| - 1) as real * hi + hi == |s| as real * hi;
    }
  }

  lemma {:induction false} SumOfNonNegative<T>(s: seq<T>, f: T -> real)
    requires forall x :: x in s ==> 0.0 <= f(x)
    ensures 0.0 <= SumOf(s, f)
  {
    if s != [] {
      SumOfNonNegative(s[1..], f);
    }
  }

  /** Non-decreasing in `key`. */
  predicate SortedBy<T>(s: seq<T>, key: T -> real) {
    forall i, j :: 0 <= i < j < |s| ==> key(s[i]) <= key(s[j])
  }

  /** A suffix of a sorted sequence is sorted, and what it leaves out is no larger. */
  lemma SortedSuffix<T>(s: seq<T>, k: nat, key: T -> real)
    requires SortedBy(s, key) && k <= |s|
    ensures SortedBy(s[k..], key)
    ensures multiset(s[k..]) <= multiset(s)
    ensures forall x :: x in multiset(s) - multiset(s[k..]) ==> forall i :: 0 <= i < |s| - k ==> key(x) <= key(s[k..][i])
  {
    var newer := s[k..];
    forall i, j | 0 <= i < j < |newer| ensures key(newer[i]) <= key(newer[j]) {
      assert newer[i] == s[k + i] && newer[j] == s[k + j];
    }
    LeftOutOfSuffix(s, k);
    forall x, i | x in multiset(s) - multiset(newer) && 0 <= i < |s| - k
      ensures key(x) <= key(newer[i])
    {
      PrefixBelowSuffix(s, k, key, x, i);
    }
  }

  lemma PrefixBelowSuffix<T>(s: seq<T>, k: nat, key: T -> real, x: T, i: nat)
    requires SortedBy(s, key) && k <= |s| && x in multiset(s[..k]) && i < |s| - k
    ensures key(x) <= key(s[k..][i])
  {
    var j :| 0 <= j < k && s[..k][j] == x;
    assert s[..k][j] == s[j] && s[k..][i] == s[k + i];
  }

  /** What a suffix leaves out of the multiset is the prefix before it. */
  lemma LeftOutOfSuffix<T>(s: seq<T>, k: nat)
    requires k <= |s|
    ensures multiset(s[k..]) <= multiset(s)
    ensures multiset(s) - multiset(s[k..]) == multiset(s[..k])
  {
    assert s == s[..k] + s[k..];
    assert multiset(s) == multiset(s[..k]) + multiset(s[k..]);
  }

  /** Inserts `x` before the first element whose key is not smaller. */
  function InsertBy<T>(x: T, s: seq<T>, key: T -> real): (r: seq<T>)
    ensures |r| == |s| + 1
    ensures multiset(r) == multiset(s) + multiset{x}
    ensures s != [] ==> r[0] == x || r[0] == s[0]
  {
    if s == [] then [x]
    else if key(x) <= key(s[0]) then [x] + s
    else
      assert s == [s[0]] + s[1..];
      [s[0]] + InsertBy(x, s[1..], key)
  }

  /** Inserting into a sorted sequence keeps it sorted. */
  lemma {:induction false} InsertBySorted<T>(x: T, s: seq<T>, key: T -> real)
    requires SortedBy(s, key)
    ensures SortedBy(InsertBy(x, s, key), key)
  {
    if s != [] && key(x) > key(s[0]) {
      var t := InsertBy(x, s[1..], key);
      assert SortedBy(s[1..], key) by {
        forall i, j | 0 <= i < j < |s[1..]| ensures key(s[1..][i]) <= key(s[1..][j]) {
          assert s[1..][i] == s[i + 1] && s[1..][j] == s[j + 1];
        }
      }
      InsertBySorted(x, s[1..], key);
      if s[1..] != [] {
        assert s[1..][0] == s[1];
      }
      ConsSorted(s[0], t, key);
    } else if s != [] {
      ConsSorted(x, s, key);
    }
  }

  /** Putting an element no larger than the rest in front keeps a sequence sorted. */
  lemma ConsSorted<T>(h: T, t: seq<T>, key: T -> real)
    requires SortedBy(t, key)
    requires t != [] ==> key(h) <= key(t[0])
    ensures SortedBy([h] + t, key)
  {
    var r := [h] + t;
    forall i, j | 0 <= i < j < |r| ensures key(r[i]) <= key(r[j]) {
      if i == 0 {
        assert r[j] == t[j - 1];
        if j > 1 { assert key(t[0]) <= key(t[j - 1]); }
      } else {
        assert r[i] == t[i - 1] && r[j] == t[j - 1];
      }
    }
  }

  /**
   * `sort_values(key)`: an insertion sort that places each element in front
   * of the already sorted rest, so equal keys keep their input order
   * (`SortByKeepsTies`). pandas' default sort is not stable, so only the order
   * of keys, not the order among equal keys, is part of what the aggregates
   * promise.
   */
  function SortBy<T>(s: seq<T>, key: T -> real): (r: seq<T>)
    ensures SortedBy(r, key)
    ensures multiset(r) == multiset(s)
    ensures |r| == |s|
  {
    if s == [] then []
    else
      assert s == [s[0]] + s[1..];
      InsertBySorted(s[0], SortBy(s[1..], key), key);
      InsertBy(s[0], SortBy(s[1..], key), key)
  }

  /** Two elements with equal keys stay in their input order. */
  lemma SortByKeepsTies<T>(a: T, b: T, key: T -> real)
    requires key(a) == key(b)
    ensures SortBy([a, b], key) == [a, b]
  {
    assert [a, b][1..] == [b];
    assert [b][1..] == [];
  }

  /** `tail(n)`: the last `n` rows, or all of them when there are fewer. */
  function Tail<T>(s: seq<T>, n: nat): (r: seq<T>)
    ensures |r| == if |s| < n then |s| else n
    ensures s == s[..|s| - |r|] + r
  {
    if |s| <= n then s else s[|s| - n..]
  }

  /** `head(n)`: the first `n` rows, or all of them when there are fewer. */
  function Head<T>(s: seq<T>, n: nat): (r: seq<T>)
    ensures |r| == if |s| < n then |s| else n
    ensures s == r + s[|r|..]
  {
    if |s| <= n then s else s[..n]
  }

  /** No two positions hold the same `f`-value. */
  ghost predicate DistinctBy<T, K>(s: seq<T>, f: T -> K) {
    forall i, j :: 0 <= i < j < |s| ==> f(s[i]) != f(s[j])
  }

  lemma {:induction false} InsertByKeepsDistinct<T, K>(x: T, s: seq<T>, key: T -> real, f: T -> K)
    requires DistinctBy(s, f)
    requires forall i :: 0 <= i < |s| ==> f(s[i]) != f(x)
    ensures DistinctBy(InsertBy(x, s, key), f)
  {
    if s != [] && key(x) > key(s[0]) {
      InsertByKeepsDistinct(x, s[1..], key, f);
      var t := InsertBy(x, s[1..], key);
      assert InsertBy(x, s, key) == [s[0]] + t;
      forall k | 0 <= k < |t| ensures f(t[k]) != f(s[0]) {
        InsertedFrom(x, s[1..], key, k);
        if t[k] != x {
          var m :| 0 <= m < |s[1..]| && s[1..][m] == t[k];
          assert s[m + 1] == t[k];
        }
      }
    }
  }

  /** Each element of the result is `x` or an element of `s`. */
  lemma InsertedFrom<T>(x: T, s: seq<T>, key: T -> real, k: nat)
    requires k < |s| + 1
    ensures InsertBy(x, s, key)[k] == x || InsertBy(x, s, key)[k] in s
  {
    var r := InsertBy(x, s, key);
    assert r[k] in multiset(r);
  }

  /** Sorting keeps the `f`-values distinct. */
  lemma {:induction false} SortByKeepsDistinct<T, K>(s: seq<T>, key: T -> real, f: T -> K)
    requires DistinctBy(s, f)
    ensures DistinctBy(SortBy(s, key), f)
  {
    if s != [] {
      SortByKeepsDistinct(s[1..], key, f);
      var t := SortBy(s[1..], key);
      forall k | 0 <= k < |t| ensures f(t[k]) != f(s[0]) {
        assert t[k] in multiset(s[1..]);
        var m :| 0 <= m < |s[1..]| && s[1..][m] == t[k];
        assert s[m + 1] == t[k];
      }
      InsertByKeepsDistinct(s[0], t, key, f);
    }
  }

  /** A sequence without repetitions that lists the members of `c` has `|c|` elements. */
  lemma {:induction false} DistinctListCardinality<T>(s: seq<T>, c: set<T>)
    requires DistinctBy(s, (x: T) => x)
    requires forall i :: 0 <= i < |s| ==> s[i] in c
    requires forall x :: x in c ==> x in s
    ensures |s| == |c|
  {
    if s == [] {
      assert forall x :: x !in c;
      assert c == {};
    } else {
      var rest := c - {s[0]};
      forall i | 0 <= i < |s[1..]| ensures s[1..][i] in rest {
        assert s[1..][i] == s[i + 1] != s[0];
      }
      forall x | x in rest ensures x in s[1..] {
        var k :| 0 <= k < |s| && s[k] == x;
        assert k != 0;
        assert s[1..][k - 1] == x;
      }
      DistinctListCardinality(s[1..], rest);
    }
  }
}
