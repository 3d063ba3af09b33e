/** `Collections.binarySearch(list, key, c)` on a random-access list, with
    the comparator comparing counterpart indices by `Integer.compare`. */
module Search {
  import opened Records

  /** Finds a record whose index is `key` in a list sorted by index. A
      non-negative result is the position of such a record; a negative
      result `-(p + 1)` reports that there is none and that `p` is the
      insertion point: every record before `p` has a smaller index and
      every record from `p` on a larger one. */
  method BinarySearch<V, C>(list: seq<IdxPref<V, C>>, key: int) returns (r: int)
    requires SortedByIdx(list)
    ensures r >= 0 ==> r < |list| && list[r].idx == key
    ensures r < 0 ==> -(r + 1) <= |list|
    ensures r < 0 ==> forall i :: 0 <= i < -(r + 1) ==> list[i].idx < key
    ensures r < 0 ==> forall i :: -(r + 1) <= i < |list| ==> key < list[i].idx
  {
    var low, high := 0, |list| - 1;
    while low <= high
      invariant 0 <= low <= high + 1 <= |list|
      invariant forall i :: 0 <= i < low ==> list[i].idx < key
      invariant forall i :: high < i < |list| ==> key < list[i].idx
      decreases high - low
    {
      // `(low + high) >>> 1`: both are non-negative, so the unsigned shift
      // is the halving below.
      var mid := (low + high) / 2;
      var cmp := Compare(list[mid].idx, key);
      if cmp < 0 {
        low := mid + 1;
      } else if cmp > 0 {
        high := mid - 1;
      } else {
        return mid;
      }
    }
    return -(low + 1);
  }

}
