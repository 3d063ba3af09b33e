/** The sort the store's constructor applies to every non-null list: a
    stable sort ascending by counterpart index. It is specified here as an
    insertion sort, and `SortIsTheStableSort` shows that any sorted sequence
    keeping every equal-index subsequence is the same sequence. */
module StableSort {
  import opened Records

  /** A record no larger than the head of a sorted sequence may go in front. */
  lemma SortedCons<V, C>(y: IdxPref<V, C>, s: seq<IdxPref<V, C>>)
    requires SortedByIdx(s)
    requires |s| > 0 ==> y.idx <= s[0].idx
    ensures SortedByIdx([y] + s)
  {
    forall i, j | 0 <= i < j < |s| + 1
      ensures ([y] + s)[i].idx <= ([y] + s)[j].idx
    {
      if i == 0 {
        assert y.idx <= s[0].idx <= s[j - 1].idx;
      }
    }
  }

  /** Inserts `x` before the first record of `t` whose index is not below
      `x.idx`, so that `x` precedes the records of equal index. */
  function Insert<V, C>(x: IdxPref<V, C>, t: seq<IdxPref<V, C>>): (r: seq<IdxPref<V, C>>)
    requires SortedByIdx(t)
    ensures SortedByIdx(r)
    ensures |r| == |t| + 1
    ensures multiset(r) == multiset(t) + multiset{x}
    ensures r[0] == x || (|t| > 0 && r[0] == t[0])
  {
    if |t| == 0 || x.idx <= t[0].idx then
      SortedCons(x, t);
      [x] + t
    else
      var rest := Insert(x, t[1..]);
      assert t == [t[0]] + t[1..];
      SortedCons(t[0], rest);
      [t[0]] + rest
  }

  /** Unfolds `WithIdx` on a sequence with a known first record. */
  lemma WithIdxCons<V, C>(x: IdxPref<V, C>, s: seq<IdxPref<V, C>>, key: int)
    ensures WithIdx([x] + s, key) == (if x.idx == key then [x] else []) + WithIdx(s, key)
  {
    assert ([x] + s)[1..] == s;
  }

  /** Inserting `x` adds it in front of its own index's subsequence and
      leaves every other subsequence alone. */
  lemma {:induction false} InsertWithIdx<V, C>(x: IdxPref<V, C>, t: seq<IdxPref<V, C>>, key: int)
    requires SortedByIdx(t)
    ensures x.idx == key ==> WithIdx(Insert(x, t), key) == [x] + WithIdx(t, key)
    ensures x.idx != key ==> WithIdx(Insert(x, t), key) == WithIdx(t, key)
  {
    if |t| == 0 || x.idx <= t[0].idx {
      WithIdxCons(x, t, key);
    } else {
      var rest := Insert(x, t[1..]);
      assert Insert(x, t) == [t[0]] + rest;
      InsertWithIdx(x, t[1..], key);
      WithIdxCons(t[0], rest, key);
      WithIdxCons(t[0], t[1..], key);
      assert t == [t[0]] + t[1..];
      if x.idx == key {
        assert WithIdx(t, key) == WithIdx(t[1..], key);
        assert WithIdx(Insert(x, t), key) == WithIdx(rest, key);
      } else if t[0].idx == key {
        assert WithIdx(Insert(x, t), key) == [t[0]] + WithIdx(rest, key);
      } else {
        assert WithIdx(Insert(x, t), key) == WithIdx(rest, key);
      }
    }
  }

  /** Sort ascending by counterpart index. */
  function Sort<V, C>(s: seq<IdxPref<V, C>>): (r: seq<IdxPref<V, C>>)
    ensures SortedByIdx(r)
    ensures |r| == |s|
    ensures multiset(r) == multiset(s)
  {
    if |s| == 0 then []
    else
      assert s == [s[0]] + s[1..];
      Insert(s[0], Sort(s[1..]))
  }

  /** The sort is stable: every equal-index subsequence is kept. */
  lemma {:induction false} SortStable<V, C>(s: seq<IdxPref<V, C>>, key: int)
    ensures WithIdx(Sort(s), key) == WithIdx(s, key)
  {
    if |s| > 0 {
      var sorted := Sort(s[1..]);
      assert Sort(s) == Insert(s[0], sorted);
      SortStable(s[1..], key);
      InsertWithIdx(s[0], sorted, key);
      WithIdxCons(s[0], s[1..], key);
      assert s == [s[0]] + s[1..];
      if s[0].idx == key {
        assert WithIdx(Sort(s), key) == [s[0]] + WithIdx(s[1..], key);
      } else {
        assert WithIdx(Sort(s), key) == WithIdx(s[1..], key);
      }
    }
  }

  /** When `a` is non-empty and shares its equal-index subsequences with
      the sorted `b`, then `b` is non-empty and starts at an index no larger
      than `a`'s first. */
  lemma HeadIdxBound<V, C>(a: seq<IdxPref<V, C>>, b: seq<IdxPref<V, C>>)
    requires SortedByIdx(b)
    requires forall key :: WithIdx(a, key) == WithIdx(b, key)
    ensures |a| > 0 ==> |b| > 0 && b[0].idx <= a[0].idx
  {
    if |a| > 0 {
      var m := a[0].idx;
      WithIdxCons(a[0], a[1..], m);
      assert a == [a[0]] + a[1..];
      WithIdxPresent(b, m);
    }
  }

  /** Two sequences sorted by index that agree on every equal-index
      subsequence are equal. */
  lemma {:induction false} SortedStableUnique<V, C>(a: seq<IdxPref<V, C>>, b: seq<IdxPref<V, C>>)
    requires SortedByIdx(a) && SortedByIdx(b)
    requires forall key :: WithIdx(a, key) == WithIdx(b, key)
    ensures a == b
    decreases |a|
  {
    HeadIdxBound(a, b);
    HeadIdxBound(b, a);
    if |a| > 0 {
      var m := a[0].idx;
      assert a == [a[0]] + a[1..];
      assert b == [b[0]] + b[1..];
      forall key
        ensures WithIdx(a, key) == (if key == m then [a[0]] else []) + WithIdx(a[1..], key)
        ensures WithIdx(b, key) == (if key == m then [b[0]] else []) + WithIdx(b[1..], key)
      {
        WithIdxCons(a[0], a[1..], key);
        WithIdxCons(b[0], b[1..], key);
      }
      assert WithIdx(a, m)[0] == a[0];
      assert WithIdx(b, m)[0] == b[0];
      forall key
        ensures WithIdx(a[1..], key) == WithIdx(b[1..], key)
      {
        if key == m {
          assert WithIdx(a[1..], m) == WithIdx(a, m)[1..];
          assert WithIdx(b[1..], m) == WithIdx(b, m)[1..];
        } else {
          assert WithIdx(a[1..], key) == WithIdx(a, key) == WithIdx(b, key) == WithIdx(b[1..], key);
        }
      }
      SortedStableUnique(a[1..], b[1..]);
    }
  }

  /** Any result a stable sort by index may produce from `s` is `Sort(s)`. */
  lemma SortIsTheStableSort<V, C>(s: seq<IdxPref<V, C>>, t: seq<IdxPref<V, C>>)
    requires SortedByIdx(t)
    requires forall key :: WithIdx(t, key) == WithIdx(s, key)
    ensures t == Sort(s)
  {
    forall key
      ensures WithIdx(Sort(s), key) == WithIdx(s, key)
    {
      SortStable(s, key);
    }
    SortedStableUnique(t, Sort(s));
  }
}
