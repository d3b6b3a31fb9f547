/** Searches over sequences that several parts of the core share. */
module Seqs {
  import opened Wrappers

  /**
   * The index Python's `min` (and a `<`-guarded running minimum) picks:
   * a position of a least key, the first such position.
   */
  function MinIndex(keys: seq<int>): (r: nat)
    requires |keys| > 0
    ensures r < |keys|
    ensures forall j :: 0 <= j < |keys| ==> keys[r] <= keys[j]
    ensures forall j :: 0 <= j < r ==> keys[j] > keys[r]
  {
    if |keys| == 1 then 0
    else
      var j := MinIndex(keys[..|keys| - 1]);
      if keys[|keys| - 1] < keys[j] then |keys| - 1 else j
  }

  /** One more key extends the running minimum: the new key wins only when strictly smaller. */
  lemma MinIndexStep(keys: seq<int>, i: nat)
    requires 0 < i < |keys|
    ensures MinIndex(keys[..i + 1]) ==
      if keys[i] < keys[MinIndex(keys[..i])] then i else MinIndex(keys[..i])
  {
    assert keys[..i + 1][..i] == keys[..i];
  }

  /** A last key below all the others is the minimum. */
  lemma MinIndexLast(keys: seq<int>)
    requires |keys| > 0
    requires forall j :: 0 <= j < |keys| - 1 ==> keys[j] > keys[|keys| - 1]
    ensures MinIndex(keys) == |keys| - 1
  {
  }

  /** The first position whose element satisfies `p`, or `None` when no element does. */
  function FirstIndex<T>(xs: seq<T>, p: T -> bool): (r: Option<nat>)
    ensures r.Some? ==> r.value < |xs| && p(xs[r.value])
    ensures r.Some? ==> forall j :: 0 <= j < r.value ==> !p(xs[j])
    ensures r.None? ==> forall j :: 0 <= j < |xs| ==> !p(xs[j])
  {
    if xs == [] then None
    else if p(xs[0]) then Some(0)
    else match FirstIndex(xs[1..], p)
      case None => None
      case Some(k) => Some(k + 1)
  }

  function Min(a: int, b: int): int
  {
    if a < b then a else b
  }
}
