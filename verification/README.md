# Context-aware preference store, modelled in Dafny

This project models `SimpleContextFastPreferenceData` from RankSys-context: a
read-only store of preference records `(idx, v, cs)` — counterpart index,
preference value, context — kept in two dense views of the same records. The
user view holds, per user index, the user's item-side records; the item view
holds, per item index, the item's user-side records. Any entry of either view
may be null, meaning "no preferences". The constructor sorts every non-null
list stably by `idx`; afterwards the store only answers queries: per-entity
counts and record lists, the stored totals, the populated indices, the
identity-mapped record lists, and a binary-search point lookup.

Layout:

- `wrappers.dfy` (`Wrappers`): `Option`, standing for a possibly-null reference.
- `records.dfy` (`Records`): the record types `IdxPref` (`IdxPrefCtx`) and
  `IdPref` (`IdPrefCtx`), sortedness by index, the equal-index subsequence
  `WithIdx` that defines stability, and `Integer.compare`.
- `stable_sort.dfy` (`StableSort`): the sort the constructor applies, with
  its proof of sortedness, permutation and stability, and the proof that
  it is the only stable sort result.
- `binary_search.dfy` (`Search`): `Collections.binarySearch` on a
  random-access list with the index comparator.
- `views.dfy` (`Views`): one view `seq<Option<seq<IdxPref>>>` and the
  side-independent queries over it.
- `preference_data.dfy` (`PreferenceData`): the store `Data`, its
  constructor `Build`, and every query of the class.

The value `v` (a Java `double`) and the context `cs` are type parameters
that are only carried. The user and item indices (`FastUserIndex`,
`FastItemIndex`) are the `Index` datatype: a size (`numUsers()`,
`numItems()`) and the two maps between identities and indices, taken as
given. Where a query would throw on an index outside its list, and where
`getPreference` would throw on a null user list, the Dafny member has a
precondition instead.

Behaviour of the code that shapes the model:

- `getPreference(uidx, iidx)` does not check whether user `uidx`'s list is
  null; it passes the list straight to `binarySearch`, which throws on null.
  So `GetPreference` requires a non-null entry.
- The constructor sorts every list but never rejects repeated indices, so
  the model allows them. With repeats, `GetPreference` returns some record
  with the wanted index.
- `numPreferences` is stored unchecked. `BuildKeepsCount` shows the stored
  count stays accurate when it was accurate to begin with.

## Model

| member | source | states |
|---|---|---|
| PreferenceData.Build | RankSys-context/src/main/java/org/ranksys/context/pref/SimpleContextFastPreferenceData.java:56-65 | keeps the count and context size as given; in both views null entries stay null, lengths are kept, and every list becomes sorted by index, a permutation of itself with each equal-index subsequence unchanged (a stable sort) |
| Views.SortAll | RankSys-context/src/main/java/org/ranksys/context/pref/SimpleContextFastPreferenceData.java:63-64 | sorting every non-null list of a view yields a view of equal length, with nulls where the input had them, and each list replaced by a stable sorted permutation of itself |
| StableSort.Sort | RankSys-context/src/main/java/org/ranksys/context/pref/SimpleContextFastPreferenceData.java:63 | the result is sorted ascending by index, has the input's length, and is a permutation of the input |
| StableSort.SortStable | RankSys-context/src/main/java/org/ranksys/context/pref/SimpleContextFastPreferenceData.java:63 | for every index value, the records with that index appear in the result in the same order as in the input |
| StableSort.SortedStableUnique | RankSys-context/src/main/java/org/ranksys/context/pref/SimpleContextFastPreferenceData.java:63-64 | two sequences sorted by index that agree on every equal-index subsequence are equal |
| StableSort.SortIsTheStableSort | RankSys-context/src/main/java/org/ranksys/context/pref/SimpleContextFastPreferenceData.java:63-64 | any sorted sequence that keeps the input's equal-index subsequences, which is what a stable sort produces, is exactly `Sort` of the input |
| Records.Compare | RankSys-context/src/main/java/org/ranksys/context/pref/SimpleContextFastPreferenceData.java:143 | the comparator's sign is negative, zero or positive exactly when the first index is below, equal to or above the second |
| PreferenceData.NumUsers | RankSys-context/src/main/java/org/ranksys/context/pref/SimpleContextFastPreferenceData.java:67-73 | the number of records item `iidx` holds: the length of its record list, and 0 for a null entry |
| PreferenceData.NumItems | RankSys-context/src/main/java/org/ranksys/context/pref/SimpleContextFastPreferenceData.java:75-81 | the number of records user `uidx` holds: the length of its record list, and 0 for a null entry |
| PreferenceData.GetUidxPreferences | RankSys-context/src/main/java/org/ranksys/context/pref/SimpleContextFastPreferenceData.java:83-90 | a null user entry yields the empty sequence |
| PreferenceData.GetIidxPreferences | RankSys-context/src/main/java/org/ranksys/context/pref/SimpleContextFastPreferenceData.java:92-99 | a null item entry yields the empty sequence |
| PreferenceData.BuiltUidxPreferences | RankSys-context/src/main/java/org/ranksys/context/pref/SimpleContextFastPreferenceData.java:83-90 | on a built store, a user's records are sorted by item index and are the supplied records (none for a null entry), permuted stably |
| PreferenceData.BuiltIidxPreferences | RankSys-context/src/main/java/org/ranksys/context/pref/SimpleContextFastPreferenceData.java:92-99 | on a built store, an item's records are sorted by user index and are the supplied records (none for a null entry), permuted stably |
| PreferenceData.BuildKeepsCount | RankSys-context/src/main/java/org/ranksys/context/pref/SimpleContextFastPreferenceData.java:101-104 | `numPreferences()` returns the constructor's argument for any lists, unvalidated; a count equal to the records supplied in a view still equals the records in the sorted view |
| PreferenceData.BuildKeepsContextSize | RankSys-context/src/main/java/org/ranksys/context/pref/SimpleContextFastPreferenceData.java:151-154 | `getContextSize()` returns the constructor's argument for any lists, unvalidated |
| PreferenceData.GetUidxWithPreferences | RankSys-context/src/main/java/org/ranksys/context/pref/SimpleContextFastPreferenceData.java:106-110 | strictly ascending user indices in `[0, numUsers())`, containing an index below `numUsers()` exactly when its entry is non-null |
| PreferenceData.GetIidxWithPreferences | RankSys-context/src/main/java/org/ranksys/context/pref/SimpleContextFastPreferenceData.java:112-116 | strictly ascending item indices in `[0, numItems())`, containing an index below `numItems()` exactly when its entry is non-null |
| PreferenceData.NumUsersWithPreferences | RankSys-context/src/main/java/org/ranksys/context/pref/SimpleContextFastPreferenceData.java:118-122 | a count of non-null entries over the whole user view: at most its length, 0 exactly when all entries are null, the full length exactly when none is |
| PreferenceData.NumItemsWithPreferences | RankSys-context/src/main/java/org/ranksys/context/pref/SimpleContextFastPreferenceData.java:124-128 | a count of non-null entries over the whole item view: at most its length, 0 exactly when all entries are null, the full length exactly when none is |
| PreferenceData.UsersWithPreferencesCount | RankSys-context/src/main/java/org/ranksys/context/pref/SimpleContextFastPreferenceData.java:106-122 | `getUidxWithPreferences` lists at most `numUsersWithPreferences()` indices, and exactly that many when `numUsers()` is the length of the user view |
| PreferenceData.ItemsWithPreferencesCount | RankSys-context/src/main/java/org/ranksys/context/pref/SimpleContextFastPreferenceData.java:112-128 | `getIidxWithPreferences` lists at most `numItemsWithPreferences()` indices, and exactly that many when `numItems()` is the length of the item view |
| PreferenceData.GetUserPreferences | RankSys-context/src/main/java/org/ranksys/context/pref/SimpleContextFastPreferenceData.java:130-133 | as many records as `numItems(user2uidx(u))`, in the same order as that user's records, each keeping `v` and `cs` and carrying `iidx2item(idx)` for its index |
| PreferenceData.GetItemPreferences | RankSys-context/src/main/java/org/ranksys/context/pref/SimpleContextFastPreferenceData.java:135-138 | as many records as `numUsers(item2iidx(i))`, in the same order as that item's records, each keeping `v` and `cs` and carrying `uidx2user(idx)` for its index |
| PreferenceData.UserPreferencesRoundTrip | RankSys-context/src/main/java/org/ranksys/context/pref/SimpleContextFastPreferenceData.java:130-133 | when `item2iidx` undoes `iidx2item` on the indices used, mapping the identities back gives exactly the user's index-based records |
| PreferenceData.ItemPreferencesRoundTrip | RankSys-context/src/main/java/org/ranksys/context/pref/SimpleContextFastPreferenceData.java:135-138 | when `user2uidx` undoes `uidx2user` on the indices used, mapping the identities back gives exactly the item's index-based records |
| Search.BinarySearch | RankSys-context/src/main/java/org/ranksys/context/pref/SimpleContextFastPreferenceData.java:143 | on a list sorted by index, a non-negative result is the position of a record with the key; a negative result `-(p+1)` means every record before `p` has a smaller index and every record from `p` on a larger one |
| PreferenceData.GetPreference | RankSys-context/src/main/java/org/ranksys/context/pref/SimpleContextFastPreferenceData.java:140-149 | on a non-null sorted user list, returns a record of that list with item index `iidx`, or null exactly when no record has that index; when indices are unique it returns the single matching record |

## Left out

- `EPC` (RankSys-novelty): a constructor that only forwards to the framework's `ItemNoveltyMetric`, whose floating-point metric code is not part of this model.
- The accessors `getUidxIidxs`, `getUidxVs`, `getIidxUidxs`, `getIidxVs`, `useIteratorsPreferentially` and `getPreference(U, I)` always throw `UnsupportedOperationException`, so there is no behaviour to model.
- `AbstractFastPreferenceData`, `FastUserIndex` and `FastItemIndex` are not part of this model. The identity maps and `numUsers()`/`numItems()` are inputs: the `Index` datatype.
- Streams are lazy in Java. Here their results are finite sequences.
- The numeric meaning of the `double` value `v`. It is a type parameter and is never computed on.
- The in-place sort mutates lists the caller still holds, and the two views may share lists. The model is value-based and has no aliasing.
- The code does not check that the two views mirror each other, or that `numPreferences` matches the lists. The model does not assume either. `BuildKeepsCount` covers the count only when it is accurate to begin with.
- Null and unmodifiable inputs cannot be expressed with `seq` values, so their exceptions are not modelled. A null outer list makes the constructor throw `NullPointerException` at lines 63-64. A null record inside an inner list makes the sort comparator throw (lists of two or more records), and so do `binarySearch` at line 143 and the identity mapping at lines 132 and 137. An unmodifiable inner list makes the in-place sort throw `UnsupportedOperationException`.
- Java `int` bounds: indices, counts and sizes are unbounded integers. `numUsersWithPreferences()` casts a `long` count to `int`, which cannot truncate, because the count is at most the list size. `(low + high) >>> 1` in the binary search equals `(low + high) / 2` here, because both are non-negative.
- `Collections.binarySearch` switches to an iterator-based search for large lists that lack random access. Both searches promise the same result, and only the index-based one is modelled.
