/** Ordered search with fall-through: the shape shared by the proxy loops and the selector
    lists of the extraction code. */
module Fallback {
  import opened Wrappers

  /** The position of the first element of `xs` that satisfies `p`, if any. */
  function FirstIndex<A>(xs: seq<A>, p: A -> bool): (r: Option<nat>)
    ensures r.Some? ==> r.value < |xs| && p(xs[r.value])
    ensures r.Some? ==> forall j :: 0 <= j < r.value ==> !p(xs[j])
    ensures r.None? <==> forall j :: 0 <= j < |xs| ==> !p(xs[j])
  {
    if |xs| == 0 then None
    else if p(xs[0]) then Some(0)
    else match FirstIndex(xs[1..], p)
      case None => None
      case Some(i) => Some(i + 1)
  }

  /** Tries `attempt` on each element of `attempts` in order and stops at the first one that
      yields a value; `tried` is how many attempts were made. Later attempts are never made,
      and the search reports failure only when every attempt has failed. */
  method FirstSuccess<A, T>(attempts: seq<A>, attempt: A -> Option<T>) returns (r: Option<T>, tried: nat)
    ensures tried <= |attempts|
    ensures r.Some? ==> 1 <= tried && attempt(attempts[tried - 1]) == r
    ensures forall j :: 0 <= j < tried - 1 ==> attempt(attempts[j]).None?
    ensures r.None? ==> tried == |attempts|
    ensures r.None? <==> forall j :: 0 <= j < |attempts| ==> attempt(attempts[j]).None?
  {
    tried := 0;
    r := None;
    while tried < |attempts|
      invariant tried <= |attempts|
      invariant forall j :: 0 <= j < tried ==> attempt(attempts[j]).None?
    {
      var outcome := attempt(attempts[tried]);
      tried := tried + 1;
      if outcome.Some? {
        r := outcome;
        return;
      }
    }
  }
}
