/** Preference records as the context-aware preference store keeps them. */
module Records {

  /** One preference seen from one side of the store: the index of the
      counterpart (the item index in a user's list, the user index in an
      item's list), the preference value and the context. The value is only
      carried, never computed on, so its type is left open. */
  datatype IdxPref<V, C> = IdxPref(idx: int, v: V, cs: C)

  /** The same record with the counterpart index replaced by the
      counterpart's external identity. */
  datatype IdPref<T, V, C> = IdPref(id: T, v: V, cs: C)

  /** Ascending by counterpart index; equal indices may repeat. */
  ghost predicate SortedByIdx<V, C>(s: seq<IdxPref<V, C>>) {
    forall i, j :: 0 <= i < j < |s| ==> s[i].idx <= s[j].idx
  }

  /** No counterpart index occurs twice. */
  ghost predicate UniqueIdx<V, C>(s: seq<IdxPref<V, C>>) {
    forall i, j :: 0 <= i < j < |s| ==> s[i].idx != s[j].idx
  }

  /** True when some record of `s` has counterpart index `key`. */
  ghost predicate HasIdx<V, C>(s: seq<IdxPref<V, C>>, key: int) {
    exists i :: 0 <= i < |s| && s[i].idx == key
  }

  /** The records of `s` whose counterpart index is `key`, in their order in
      `s`. A sort is stable exactly when it keeps every one of these
      subsequences. */
  ghost function WithIdx<V, C>(s: seq<IdxPref<V, C>>, key: int): (r: seq<IdxPref<V, C>>)
    ensures |r| <= |s|
    ensures forall i :: 0 <= i < |r| ==> r[i].idx == key
  {
    if |s| == 0 then []
    else (if s[0].idx == key then [s[0]] else []) + WithIdx(s[1..], key)
  }

  /** A non-empty `key` subsequence witnesses a record with index `key`. */
  lemma {:induction false} WithIdxPresent<V, C>(s: seq<IdxPref<V, C>>, key: int)
    requires WithIdx(s, key) != []
    ensures HasIdx(s, key)
  {
    if s[0].idx != key {
      WithIdxPresent(s[1..], key);
      var i :| 0 <= i < |s[1..]| && s[1..][i].idx == key;
      assert s[i + 1].idx == key;
    }
  }

  /** `Integer.compare`: the sign of `a - b`, computed without overflow. */
  function Compare(a: int, b: int): (r: int)
    ensures r < 0 <==> a < b
    ensures r == 0 <==> a == b
    ensures r > 0 <==> a > b
  {
    if a < b then -1 else if a == b then 0 else 1
  }
}
