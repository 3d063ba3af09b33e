/** One side of the store: a dense list indexed by user (or item) index whose
    entries are either null (no preferences) or a list of records. The
    queries of both sides are written once here, over a view. */
module Views {
  import opened Wrappers
  import opened Records
  import opened StableSort

  type View<V, C> = seq<Option<seq<IdxPref<V, C>>>>

  /** Number of records at entry `k`: 0 for a null entry. */
  function Size<V, C>(view: View<V, C>, k: int): (n: nat)
    requires 0 <= k < |view|
    ensures n == |Entries(view, k)|
    ensures view[k].Some? ==> n == |view[k].value|
  {
    if view[k].None? then 0 else |view[k].value|
  }

  /** Records at entry `k`: the empty sequence for a null entry. */
  function Entries<V, C>(view: View<V, C>, k: int): (r: seq<IdxPref<V, C>>)
    requires 0 <= k < |view|
    ensures view[k].None? ==> r == []
    ensures view[k].Some? ==> r == view[k].value
  {
    match view[k]
    case None => []
    case Some(list) => list
  }

  /** Indices below `n` whose entry is non-null, ascending; as many as
      there are non-null entries below `n`. */
  function PopulatedBelow<V, C>(view: View<V, C>, n: nat): (r: seq<int>)
    requires n <= |view|
    ensures |r| == CountBelow(view, n)
    ensures forall i, j :: 0 <= i < j < |r| ==> r[i] < r[j]
    ensures forall i :: 0 <= i < |r| ==> 0 <= r[i] < n && view[r[i]].Some?
  {
    if n == 0 then []
    else PopulatedBelow(view, n - 1) + (if view[n - 1].Some? then [n - 1] else [])
  }

  /** Number of non-null entries below `n`. */
  function CountBelow<V, C>(view: View<V, C>, n: nat): (c: nat)
    requires n <= |view|
    ensures c <= n
  {
    if n == 0 then 0
    else CountBelow(view, n - 1) + (if view[n - 1].Some? then 1 else 0)
  }

  /** No entry below `n` is non-null exactly when the count is 0, and every
      one is exactly when the count is `n`. */
  lemma {:induction false} CountBelowExtremes<V, C>(view: View<V, C>, n: nat)
    requires n <= |view|
    ensures CountBelow(view, n) == 0 <==> forall k :: 0 <= k < n ==> view[k].None?
    ensures CountBelow(view, n) == n <==> forall k :: 0 <= k < n ==> view[k].Some?
  {
    if n > 0 {
      CountBelowExtremes(view, n - 1);
    }
  }

  /** Number of non-null entries in the whole view. */
  function CountPresent<V, C>(view: View<V, C>): (c: nat)
    ensures c <= |view|
    ensures c == 0 <==> forall k :: 0 <= k < |view| ==> view[k].None?
    ensures c == |view| <==> forall k :: 0 <= k < |view| ==> view[k].Some?
  {
    CountBelowExtremes(view, |view|);
    CountBelow(view, |view|)
  }

  /** Number of records over the entries below `n`. */
  function TotalBelow<V, C>(view: View<V, C>, n: nat): nat
    requires n <= |view|
  {
    if n == 0 then 0 else TotalBelow(view, n - 1) + Size(view, n - 1)
  }

  /** Total number of records over all entries. */
  function TotalSize<V, C>(view: View<V, C>): nat {
    TotalBelow(view, |view|)
  }

  /** Every index below `n` with a non-null entry is listed. */
  lemma {:induction false} PopulatedBelowComplete<V, C>(view: View<V, C>, n: nat, k: int)
    requires 0 <= k < n <= |view|
    requires view[k].Some?
    ensures k in PopulatedBelow(view, n)
  {
    var below := PopulatedBelow(view, n - 1);
    if k == n - 1 {
      assert PopulatedBelow(view, n)[|below|] == k;
    } else {
      PopulatedBelowComplete(view, n - 1, k);
      var i :| 0 <= i < |below| && below[i] == k;
      assert PopulatedBelow(view, n)[i] == k;
    }
  }

  /** An index below `n` is listed exactly when its entry is non-null. */
  lemma PopulatedBelowExact<V, C>(view: View<V, C>, n: nat)
    requires n <= |view|
    ensures forall k :: 0 <= k < n ==> (k in PopulatedBelow(view, n) <==> view[k].Some?)
  {
    forall k | 0 <= k < n && view[k].Some?
      ensures k in PopulatedBelow(view, n)
    {
      PopulatedBelowComplete(view, n, k);
    }
  }

  /** Fewer entries hold no more non-null ones. */
  lemma {:induction false} CountBelowMonotonic<V, C>(view: View<V, C>, m: nat, n: nat)
    requires m <= n <= |view|
    ensures CountBelow(view, m) <= CountBelow(view, n)
    decreases n - m
  {
    if m < n {
      CountBelowMonotonic(view, m, n - 1);
    }
  }

  /** Two views with equal entry sizes below `n` hold as many records there. */
  lemma {:induction false} TotalBelowOfEqualSizes<V, C>(a: View<V, C>, b: View<V, C>, n: nat)
    requires n <= |a| && n <= |b|
    requires forall k :: 0 <= k < n ==> Size(a, k) == Size(b, k)
    ensures TotalBelow(a, n) == TotalBelow(b, n)
  {
    if n > 0 {
      TotalBelowOfEqualSizes(a, b, n - 1);
    }
  }

  /** The constructor's effect on one entry: a null entry stays null, a list
      becomes its stable sort by index. */
  function SortEntry<V, C>(e: Option<seq<IdxPref<V, C>>>): (r: Option<seq<IdxPref<V, C>>>)
    ensures r.None? <==> e.None?
  {
    match e
    case None => None
    case Some(list) => Some(Sort(list))
  }

  /** `after` is `before` with every non-null list replaced by a sorted,
      stable permutation of itself. */
  ghost predicate SortedCopyOf<V, C>(after: View<V, C>, before: View<V, C>) {
    && |after| == |before|
    && forall k :: 0 <= k < |before| ==>
         && (after[k].None? <==> before[k].None?)
         && (before[k].Some? ==>
               && SortedByIdx(after[k].value)
               && multiset(after[k].value) == multiset(before[k].value)
               && forall key :: WithIdx(after[k].value, key) == WithIdx(before[k].value, key))
  }

  /** Sorts every non-null list of a view, as the constructor does. */
  function SortAll<V, C>(view: View<V, C>): (r: View<V, C>)
    ensures SortedCopyOf(r, view)
  {
    var r := seq(|view|, k requires 0 <= k < |view| => SortEntry(view[k]));
    assert forall k, key :: 0 <= k < |view| && view[k].Some? ==>
      WithIdx(r[k].value, key) == WithIdx(view[k].value, key) by {
      forall k, key | 0 <= k < |view| && view[k].Some?
        ensures WithIdx(r[k].value, key) == WithIdx(view[k].value, key)
      {
        SortStable(view[k].value, key);
      }
    }
    r
  }

  /** Sorting the lists keeps the number of records in the view. */
  lemma SortAllKeepsTotal<V, C>(view: View<V, C>)
    ensures TotalSize(SortAll(view)) == TotalSize(view)
  {
    var sorted := SortAll(view);
    forall k | 0 <= k < |view|
      ensures Size(sorted, k) == Size(view, k)
    {
      if view[k].Some? {
        assert |sorted[k].value| == |multiset(sorted[k].value)| == |multiset(view[k].value)|;
      }
    }
    TotalBelowOfEqualSizes(sorted, view, |view|);
  }
}
