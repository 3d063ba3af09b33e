/** The context-aware preference store: two dense views of the same
    preference records, one by user index and one by item index, each list
    sorted by counterpart index when the store is built and read-only after. */
module PreferenceData {
  import opened Wrappers
  import opened Records
  import opened StableSort
  import opened Search
  import opened Views

  /** A user or item index: the number of dense indices, and the maps between
      external identities and indices. What the maps return for unknown
      identities is up to the index. */
  datatype Index<!T> = Index(size: nat, toIdx: T -> int, fromIdx: int -> T)

  /** The store. `numPreferences` and `contextSize` are kept as supplied. */
  datatype Data<!U, !I, V, C> = Data(
    numPreferences: int,
    uidxList: View<V, C>,
    iidxList: View<V, C>,
    users: Index<U>,
    items: Index<I>,
    contextSize: int)

  /** The constructor: keeps the count, the views, the indices and the
      context size, and sorts every non-null list of both views, stably and
      ascending by counterpart index. Nothing is validated: the count need
      not match the lists, nor the two views mirror each other. */
  function Build<U, I, V, C>(numPreferences: int, uidxList: View<V, C>, iidxList: View<V, C>,
                             users: Index<U>, items: Index<I>, contextSize: int): (d: Data<U, I, V, C>)
    ensures d.numPreferences == numPreferences && d.contextSize == contextSize
    ensures d.users == users && d.items == items
    ensures SortedCopyOf(d.uidxList, uidxList)
    ensures SortedCopyOf(d.iidxList, iidxList)
  {
    Data(numPreferences, SortAll(uidxList), SortAll(iidxList), users, items, contextSize)
  }

  /** `numUsers(iidx)`: how many user records item `iidx` holds. */
  function NumUsers<U, I, V, C>(d: Data<U, I, V, C>, iidx: int): (n: nat)
    requires 0 <= iidx < |d.iidxList|
    ensures n == |GetIidxPreferences(d, iidx)|
    ensures d.iidxList[iidx].None? ==> n == 0
  {
    Size(d.iidxList, iidx)
  }

  /** `numItems(uidx)`: how many item records user `uidx` holds. */
  function NumItems<U, I, V, C>(d: Data<U, I, V, C>, uidx: int): (n: nat)
    requires 0 <= uidx < |d.uidxList|
    ensures n == |GetUidxPreferences(d, uidx)|
    ensures d.uidxList[uidx].None? ==> n == 0
  {
    Size(d.uidxList, uidx)
  }

  /** `getUidxPreferences(uidx)`: the records of user `uidx`. */
  function GetUidxPreferences<U, I, V, C>(d: Data<U, I, V, C>, uidx: int): (r: seq<IdxPref<V, C>>)
    requires 0 <= uidx < |d.uidxList|
    ensures d.uidxList[uidx].None? ==> r == []
    ensures d.uidxList[uidx].Some? ==> r == d.uidxList[uidx].value
  {
    Entries(d.uidxList, uidx)
  }

  /** `getIidxPreferences(iidx)`: the records of item `iidx`. */
  function GetIidxPreferences<U, I, V, C>(d: Data<U, I, V, C>, iidx: int): (r: seq<IdxPref<V, C>>)
    requires 0 <= iidx < |d.iidxList|
    ensures d.iidxList[iidx].None? ==> r == []
    ensures d.iidxList[iidx].Some? ==> r == d.iidxList[iidx].value
  {
    Entries(d.iidxList, iidx)
  }

  /** `numPreferences()`: the count given to the constructor. */
  function NumPreferences<U, I, V, C>(d: Data<U, I, V, C>): int {
    d.numPreferences
  }

  /** `getContextSize()`: the context size given to the constructor. */
  function GetContextSize<U, I, V, C>(d: Data<U, I, V, C>): int {
    d.contextSize
  }

  /** `getUidxWithPreferences()`: the user indices below `numUsers()` whose
      list is non-null, ascending. */
  function GetUidxWithPreferences<U, I, V, C>(d: Data<U, I, V, C>): (r: seq<int>)
    requires d.users.size <= |d.uidxList|
    ensures forall i, j :: 0 <= i < j < |r| ==> r[i] < r[j]
    ensures forall i :: 0 <= i < |r| ==> 0 <= r[i] < d.users.size
    ensures forall k :: 0 <= k < d.users.size ==> (k in r <==> d.uidxList[k].Some?)
  {
    PopulatedBelowExact(d.uidxList, d.users.size);
    PopulatedBelow(d.uidxList, d.users.size)
  }

  /** `getIidxWithPreferences()`: the item indices below `numItems()` whose
      list is non-null, ascending. */
  function GetIidxWithPreferences<U, I, V, C>(d: Data<U, I, V, C>): (r: seq<int>)
    requires d.items.size <= |d.iidxList|
    ensures forall i, j :: 0 <= i < j < |r| ==> r[i] < r[j]
    ensures forall i :: 0 <= i < |r| ==> 0 <= r[i] < d.items.size
    ensures forall k :: 0 <= k < d.items.size ==> (k in r <==> d.iidxList[k].Some?)
  {
    PopulatedBelowExact(d.iidxList, d.items.size);
    PopulatedBelow(d.iidxList, d.items.size)
  }

  /** `numUsersWithPreferences()`: the non-null entries of the whole user
      view, whatever `numUsers()` says. */
  function NumUsersWithPreferences<U, I, V, C>(d: Data<U, I, V, C>): (c: nat)
    ensures c <= |d.uidxList|
    ensures c == 0 <==> forall k :: 0 <= k < |d.uidxList| ==> d.uidxList[k].None?
    ensures c == |d.uidxList| <==> forall k :: 0 <= k < |d.uidxList| ==> d.uidxList[k].Some?
  {
    CountPresent(d.uidxList)
  }

  /** `numItemsWithPreferences()`: the non-null entries of the whole item
      view, whatever `numItems()` says. */
  function NumItemsWithPreferences<U, I, V, C>(d: Data<U, I, V, C>): (c: nat)
    ensures c <= |d.iidxList|
    ensures c == 0 <==> forall k :: 0 <= k < |d.iidxList| ==> d.iidxList[k].None?
    ensures c == |d.iidxList| <==> forall k :: 0 <= k < |d.iidxList| ==> d.iidxList[k].Some?
  {
    CountPresent(d.iidxList)
  }

  /** Replaces the counterpart index of every record by `f` of it. */
  function Relabel<T, V, C>(prefs: seq<IdxPref<V, C>>, f: int -> T): (r: seq<IdPref<T, V, C>>)
    ensures |r| == |prefs|
    ensures forall k :: 0 <= k < |r| ==>
      r[k].id == f(prefs[k].idx) && r[k].v == prefs[k].v && r[k].cs == prefs[k].cs
  {
    seq(|prefs|, k requires 0 <= k < |prefs| => IdPref(f(prefs[k].idx), prefs[k].v, prefs[k].cs))
  }

  /** Replaces the identity of every record by `g` of it. */
  function Unlabel<T, V, C>(prefs: seq<IdPref<T, V, C>>, g: T -> int): (r: seq<IdxPref<V, C>>)
    ensures |r| == |prefs|
    ensures forall k :: 0 <= k < |r| ==>
      r[k].idx == g(prefs[k].id) && r[k].v == prefs[k].v && r[k].cs == prefs[k].cs
  {
    seq(|prefs|, k requires 0 <= k < |prefs| => IdxPref(g(prefs[k].id), prefs[k].v, prefs[k].cs))
  }

  /** `getUserPreferences(u)`: the records of user `u`, in stored order,
      each carrying the item identity of its counterpart index. */
  function GetUserPreferences<U, I, V, C>(d: Data<U, I, V, C>, u: U): (r: seq<IdPref<I, V, C>>)
    requires 0 <= d.users.toIdx(u) < |d.uidxList|
    ensures |r| == NumItems(d, d.users.toIdx(u))
    ensures forall k :: 0 <= k < |r| ==>
      var p := GetUidxPreferences(d, d.users.toIdx(u))[k];
      r[k] == IdPref(d.items.fromIdx(p.idx), p.v, p.cs)
  {
    Relabel(GetUidxPreferences(d, d.users.toIdx(u)), d.items.fromIdx)
  }

  /** `getItemPreferences(i)`: the records of item `i`, in stored order,
      each carrying the user identity of its counterpart index. */
  function GetItemPreferences<U, I, V, C>(d: Data<U, I, V, C>, i: I): (r: seq<IdPref<U, V, C>>)
    requires 0 <= d.items.toIdx(i) < |d.iidxList|
    ensures |r| == NumUsers(d, d.items.toIdx(i))
    ensures forall k :: 0 <= k < |r| ==>
      var p := GetIidxPreferences(d, d.items.toIdx(i))[k];
      r[k] == IdPref(d.users.fromIdx(p.idx), p.v, p.cs)
  {
    Relabel(GetIidxPreferences(d, d.items.toIdx(i)), d.users.fromIdx)
  }

  /** `getPreference(uidx, iidx)`: binary search of user `uidx`'s list for a
      record with item index `iidx`. The list must be non-null (`getPreference`
      dereferences it unchecked) and sorted by index (which the constructor
      establishes, see `BuiltUidxPreferences`). */
  method GetPreference<U, I, V, C>(d: Data<U, I, V, C>, uidx: int, iidx: int) returns (r: Option<IdxPref<V, C>>)
    requires 0 <= uidx < |d.uidxList|
    requires d.uidxList[uidx].Some?
    requires SortedByIdx(d.uidxList[uidx].value)
    ensures r.Some? ==> r.value in d.uidxList[uidx].value && r.value.idx == iidx
    ensures r.None? <==> !HasIdx(d.uidxList[uidx].value, iidx)
    ensures UniqueIdx(d.uidxList[uidx].value) ==>
      forall j :: 0 <= j < |d.uidxList[uidx].value| && d.uidxList[uidx].value[j].idx == iidx ==>
        r == Some(d.uidxList[uidx].value[j])
  {
    var list := d.uidxList[uidx].value;
    var i := BinarySearch(list, iidx);
    if i < 0 {
      r := None;
    } else {
      r := Some(list[i]);
    }
  }

  /** After construction, user `uidx`'s records are sorted by item index and
      are the supplied records (none for a null entry) in stable order. */
  lemma BuiltUidxPreferences<U, I, V, C>(numPreferences: int, uidxList: View<V, C>, iidxList: View<V, C>,
                                         users: Index<U>, items: Index<I>, contextSize: int, uidx: int)
    requires 0 <= uidx < |uidxList|
    ensures var r := GetUidxPreferences(Build(numPreferences, uidxList, iidxList, users, items, contextSize), uidx);
      && SortedByIdx(r)
      && multiset(r) == multiset(Entries(uidxList, uidx))
      && forall key :: WithIdx(r, key) == WithIdx(Entries(uidxList, uidx), key)
  {
  }

  /** After construction, item `iidx`'s records are sorted by user index and
      are the supplied records (none for a null entry) in stable order. */
  lemma BuiltIidxPreferences<U, I, V, C>(numPreferences: int, uidxList: View<V, C>, iidxList: View<V, C>,
                                         users: Index<U>, items: Index<I>, contextSize: int, iidx: int)
    requires 0 <= iidx < |iidxList|
    ensures var r := GetIidxPreferences(Build(numPreferences, uidxList, iidxList, users, items, contextSize), iidx);
      && SortedByIdx(r)
      && multiset(r) == multiset(Entries(iidxList, iidx))
      && forall key :: WithIdx(r, key) == WithIdx(Entries(iidxList, iidx), key)
  {
  }

  /** The stored count is the constructor's argument, whatever the lists
      hold; a count that was accurate for the supplied lists stays accurate
      for the sorted ones. */
  lemma BuildKeepsCount<U, I, V, C>(numPreferences: int, uidxList: View<V, C>, iidxList: View<V, C>,
                                      users: Index<U>, items: Index<I>, contextSize: int)
    ensures var d := Build(numPreferences, uidxList, iidxList, users, items, contextSize);
      && NumPreferences(d) == numPreferences
      && (numPreferences == TotalSize(uidxList) ==> NumPreferences(d) == TotalSize(d.uidxList))
      && (numPreferences == TotalSize(iidxList) ==> NumPreferences(d) == TotalSize(d.iidxList))
  {
    SortAllKeepsTotal(uidxList);
    SortAllKeepsTotal(iidxList);
  }

  /** The stored context size is the constructor's argument, whatever the
      lists hold. */
  lemma BuildKeepsContextSize<U, I, V, C>(numPreferences: int, uidxList: View<V, C>, iidxList: View<V, C>,
                                          users: Index<U>, items: Index<I>, contextSize: int)
    ensures GetContextSize(Build(numPreferences, uidxList, iidxList, users, items, contextSize)) == contextSize
  {
  }

  /** The populated user indices number at most the non-null user entries,
      and exactly that many when `numUsers()` covers the whole view. */
  lemma UsersWithPreferencesCount<U, I, V, C>(d: Data<U, I, V, C>)
    requires d.users.size <= |d.uidxList|
    ensures |GetUidxWithPreferences(d)| <= NumUsersWithPreferences(d)
    ensures d.users.size == |d.uidxList| ==> |GetUidxWithPreferences(d)| == NumUsersWithPreferences(d)
  {
    CountBelowMonotonic(d.uidxList, d.users.size, |d.uidxList|);
  }

  /** The populated item indices number at most the non-null item entries,
      and exactly that many when `numItems()` covers the whole view. */
  lemma ItemsWithPreferencesCount<U, I, V, C>(d: Data<U, I, V, C>)
    requires d.items.size <= |d.iidxList|
    ensures |GetIidxWithPreferences(d)| <= NumItemsWithPreferences(d)
    ensures d.items.size == |d.iidxList| ==> |GetIidxWithPreferences(d)| == NumItemsWithPreferences(d)
  {
    CountBelowMonotonic(d.iidxList, d.items.size, |d.iidxList|);
  }

  /** When the item index maps every index it covers back to itself and all
      of user `u`'s records point inside it, mapping the identities of
      `getUserPreferences(u)` back to indices recovers `getUidxPreferences`. */
  lemma UserPreferencesRoundTrip<U, I, V, C>(d: Data<U, I, V, C>, u: U)
    requires 0 <= d.users.toIdx(u) < |d.uidxList|
    requires forall j :: 0 <= j < d.items.size ==> d.items.toIdx(d.items.fromIdx(j)) == j
    requires forall p :: p in GetUidxPreferences(d, d.users.toIdx(u)) ==> 0 <= p.idx < d.items.size
    ensures Unlabel(GetUserPreferences(d, u), d.items.toIdx) == GetUidxPreferences(d, d.users.toIdx(u))
  {
  }

  /** The item-side counterpart of `UserPreferencesRoundTrip`. */
  lemma ItemPreferencesRoundTrip<U, I, V, C>(d: Data<U, I, V, C>, i: I)
    requires 0 <= d.items.toIdx(i) < |d.iidxList|
    requires forall j :: 0 <= j < d.users.size ==> d.users.toIdx(d.users.fromIdx(j)) == j
    requires forall p :: p in GetIidxPreferences(d, d.items.toIdx(i)) ==> 0 <= p.idx < d.users.size
    ensures Unlabel(GetItemPreferences(d, i), d.users.toIdx) == GetIidxPreferences(d, d.items.toIdx(i))
  {
  }
}
