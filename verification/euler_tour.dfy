/**
  The Euler-tour leaf order of the reference tree and the circular index ranges
  [start, end) into it that hold the leaves of one subtree.
*/
module EulerTour {
  import opened Wrappers

  /** Number of steps `i := (i + 1) % n` takes from i to end. */
  function Distance(n: nat, i: nat, end: nat): (k: nat)
    requires i < n && end < n
    ensures k < n
    ensures k == 0 <==> i == end
  {
    if i <= end then end - i else end + n - i
  }

  /** `(i + 1) % n`, the step of every range walk in the source. */
  function Next(n: nat, i: nat): (j: nat)
    requires i < n
    ensures j < n
    ensures j == if i + 1 < n then i + 1 else 0
  {
    (i + 1) % n
  }

  /**
    The indices a walk from i visits before it reaches end, stepping by
    `(i + 1) % n`: i, i+1, ... wrapping from n-1 to 0. Empty when i == end.
  */
  function CircularRange(n: nat, i: nat, end: nat): (r: seq<nat>)
    requires i < n && end < n
    ensures |r| == Distance(n, i, end)
    ensures forall k :: 0 <= k < |r| ==> r[k] == if i + k < n then i + k else i + k - n
    decreases Distance(n, i, end)
  {
    if i == end then [] else [i] + CircularRange(n, Next(n, i), end)
  }

  /** The leaves of the subtree range [start, end) in tour order. */
  function RangeLeaves(tour: seq<nat>, start: nat, end: nat): (leaves: seq<nat>)
    requires start < |tour| && end < |tour|
    ensures |leaves| == Distance(|tour|, start, end)
    ensures forall k :: 0 <= k < |leaves| ==> leaves[k] == tour[CircularRange(|tour|, start, end)[k]]
  {
    var range := CircularRange(|tour|, start, end);
    seq(|range|, k requires 0 <= k < |range| => tour[range[k]])
  }

  /**
    One step of a walk over the range [start, end): when the walk stands at
    index i after k steps and has not reached end, it visits the k-th leaf of
    the range and continues from the next index.
  */
  lemma WalkStep(tour: seq<nat>, start: nat, end: nat, k: nat, i: nat)
    requires start < |tour| && end < |tour| && i < |tour| && i != end
    requires k <= Distance(|tour|, start, end)
    requires CircularRange(|tour|, start, end)[k..] == CircularRange(|tour|, i, end)
    ensures k < |RangeLeaves(tour, start, end)| && RangeLeaves(tour, start, end)[k] == tour[i]
    ensures CircularRange(|tour|, start, end)[k + 1..] == CircularRange(|tour|, Next(|tour|, i), end)
  {
    var range := CircularRange(|tour|, start, end);
    assert range[k] == i;
    assert range[k + 1..] == range[k..][1..];
  }

  /** A walk that has reached end has visited every leaf of the range. */
  lemma WalkEnd(tour: seq<nat>, start: nat, end: nat, k: nat)
    requires start < |tour| && end < |tour|
    requires k <= Distance(|tour|, start, end)
    requires CircularRange(|tour|, start, end)[k..] == CircularRange(|tour|, end, end)
    ensures k == |RangeLeaves(tour, start, end)|
  {
    assert |CircularRange(|tour|, start, end)[k..]| == 0;
  }

  predicate IsOneOf(x: nat, a: nat, b: nat, c: nat, d: nat) {
    x == a || x == b || x == c || x == d
  }

  /** The first of some leaves that is one of a, b, c, d, if any is. */
  function FirstOneOf(leaves: seq<nat>, a: nat, b: nat, c: nat, d: nat): (r: Option<nat>)
    ensures r.None? <==> forall k :: 0 <= k < |leaves| ==> !IsOneOf(leaves[k], a, b, c, d)
    ensures r.Some? ==> exists k :: 0 <= k < |leaves| && leaves[k] == r.value && IsOneOf(r.value, a, b, c, d) &&
                                   forall j :: 0 <= j < k ==> !IsOneOf(leaves[j], a, b, c, d)
    decreases |leaves|
  {
    if |leaves| == 0 then
      None
    else if IsOneOf(leaves[0], a, b, c, d) then
      Some(leaves[0])
    else
      var rest := FirstOneOf(leaves[1..], a, b, c, d);
      assert forall k :: 1 <= k < |leaves| ==> leaves[k] == leaves[1..][k - 1];
      rest
  }

  /**
    The first leaf of the range [start, end) that is one of a, b, c, d, in
    circular order from start; fails with LeafNotFound exactly when no leaf
    of the range is one of them (in particular when start == end).
  */
  method CheckExistenceInSubtree(tour: seq<nat>, start: nat, end: nat, a: nat, b: nat, c: nat, d: nat)
    returns (r: Result<nat>)
    requires start < |tour| && end < |tour|
    ensures var first := FirstOneOf(RangeLeaves(tour, start, end), a, b, c, d);
            (r.Success? <==> first.Some?) && (r.Success? ==> r.value == first.value)
    ensures r.Failure? ==> r.error == LeafNotFound
  {
    var n := |tour|;
    ghost var leaves := RangeLeaves(tour, start, end);
    ghost var k: nat := 0;
    var leafIndex: nat := start;
    while leafIndex != end
      invariant leafIndex < n
      invariant k <= |leaves|
      invariant CircularRange(n, start, end)[k..] == CircularRange(n, leafIndex, end)
      invariant FirstOneOf(leaves, a, b, c, d) == FirstOneOf(leaves[k..], a, b, c, d)
      decreases Distance(n, leafIndex, end)
    {
      WalkStep(tour, start, end, k, leafIndex);
      if IsOneOf(tour[leafIndex], a, b, c, d) {
        return Success(tour[leafIndex]);
      }
      assert leaves[k..][1..] == leaves[k + 1..];
      leafIndex := Next(n, leafIndex);
      k := k + 1;
    }
    WalkEnd(tour, start, end, k);
    return Failure(LeafNotFound);
  }
}
