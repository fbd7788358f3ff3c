/** The scanning loops of the kernel: the first element from some index on that has a property. */
module Search {
  const NOT_FOUND: int := -1

  function FirstFrom<T(!new)>(xs: seq<T>, p: T -> bool, i: nat): (r: int)
    requires i <= |xs|
    ensures r == NOT_FOUND || (i <= r < |xs| && p(xs[r]))
    ensures forall k :: i <= k < (if r == NOT_FOUND then |xs| else r) ==> !p(xs[k])
    decreases |xs| - i
  {
    if i == |xs| then NOT_FOUND
    else if p(xs[i]) then i
    else FirstFrom(xs, p, i + 1)
  }
}
