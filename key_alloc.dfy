/**
 * The two key-allocation loops the diagram models use: node keys are found by
 * counting up from a starting key, link keys by counting down, skipping every
 * key already in use.
 */
module KeyAlloc {
  import opened Wrappers

  /** `let k = start; while (used(k)) k++;` — the smallest unused key at or above `start`. */
  method SmallestFreeFrom(used: set<int>, start: int) returns (k: int)
    ensures start <= k && k !in used
    ensures forall j :: start <= j < k ==> j in used
  {
    k := start;
    while k in used
      invariant start <= k
      invariant forall j :: start <= j < k ==> j in used
      decreases |set j | j in used && j >= k|
    {
      assert (set j | j in used && j >= k + 1) == (set j | j in used && j >= k) - {k};
      k := k + 1;
    }
  }

  /** `let k = start; while (used(k)) k--;` — the largest unused key at or below `start`. */
  method LargestFreeFrom(used: set<int>, start: int) returns (k: int)
    ensures k <= start && k !in used
    ensures forall j :: k < j <= start ==> j in used
  {
    k := start;
    while k in used
      invariant k <= start
      invariant forall j :: k < j <= start ==> j in used
      decreases |set j | j in used && j <= k|
    {
      assert (set j | j in used && j <= k - 1) == (set j | j in used && j <= k) - {k};
      k := k - 1;
    }
  }

  /** JavaScript's `data.key || fallback`: an absent key and a key of 0 both fall back. */
  function KeyOr(requested: Option<int>, fallback: int): (k: int)
    ensures requested.Some? && requested.value != 0 ==> k == requested.value
    ensures requested.None? || requested.value == 0 ==> k == fallback
  {
    match requested
    case Some(v) => if v != 0 then v else fallback
    case None => fallback
  }

  /** The data object handed to a key function: its `key` may be absent and is overwritten. */
  class KeyedData {
    var key: Option<int>

    constructor (key: Option<int>)
      ensures this.key == key
    {
      this.key := key;
    }
  }

  /**
   * A node key function: count up from `data.key || fallback` past every used
   * key, store the result in `data.key` and return it.
   */
  method AllocateUp(used: set<int>, data: KeyedData, fallback: int) returns (k: int)
    modifies data
    ensures KeyOr(old(data.key), fallback) <= k && k !in used
    ensures forall j :: KeyOr(old(data.key), fallback) <= j < k ==> j in used
    ensures data.key == Some(k)
  {
    k := SmallestFreeFrom(used, KeyOr(data.key, fallback));
    data.key := Some(k);
  }

  /**
   * A link key function: count down from `data.key || fallback` past every used
   * key, store the result in `data.key` and return it.
   */
  method AllocateDown(used: set<int>, data: KeyedData, fallback: int) returns (k: int)
    modifies data
    ensures k <= KeyOr(old(data.key), fallback) && k !in used
    ensures forall j :: k < j <= KeyOr(old(data.key), fallback) ==> j in used
    ensures data.key == Some(k)
  {
    k := LargestFreeFrom(used, KeyOr(data.key, fallback));
    data.key := Some(k);
  }
}
