/** The pool selection of `calculateOptimalPool`: a weighted score per active
    pool and the pool that scores highest. */
module Scoring {
  import opened Wrappers
  import opened Numbers
  import opened Records

  /** Rate term (weight 0.6), size term capped at 10 (weight 0.3) and a
      stability term that penalises distance from a 10% rate (weight 0.1). */
  function Score(p: Pool): real
  {
    p.apy * 0.6 + Min(p.tvl / 1000000.0, 10.0) * 0.3 + (15.0 - Abs(p.apy - 10.0)) * 0.1
  }

  /** The pools in key order are filtered to the active ones, scored and
      sorted by descending score; the first one is chosen. The sort is stable,
      so among equal scores the earliest in key order wins. `None` stands for
      the exception `scored[0].id` raises when no pool is active. */
  function OptimalPool(pools: map<PoolId, Pool>, order: seq<PoolId>): (r: Option<PoolId>)
    requires forall k :: 0 <= k < |order| ==> order[k] in pools
    ensures r.None? <==> forall k :: 0 <= k < |order| ==> !pools[order[k]].active
    ensures r.Some? ==> r.value in order && r.value in pools && pools[r.value].active
    ensures r.Some? ==> forall k :: 0 <= k < |order| && pools[order[k]].active ==>
                          Score(pools[order[k]]) <= Score(pools[r.value])
  {
    if order == [] then None
    else
      var rest := OptimalPool(pools, order[1..]);
      var p := pools[order[0]];
      assert forall k :: 1 <= k < |order| ==> order[k] == order[1..][k - 1];
      if p.active && (rest.None? || Score(pools[rest.value]) <= Score(p)) then Some(order[0])
      else rest
  }
}
