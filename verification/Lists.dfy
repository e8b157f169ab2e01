/** Two notions several components share. */
module Lists {
  /** The last `k` elements, or all when there are fewer. */
  function Last<T>(k: int, s: seq<T>): seq<T> {
    if k <= 0 then [] else if |s| <= k then s else s[|s| - k..]
  }

  predicate Distinct<T(==)>(s: seq<T>) {
    forall i, j :: 0 <= i < j < |s| ==> s[i] != s[j]
  }
}
