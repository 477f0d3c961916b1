/** The simulated market step of the hourly cycle: every pool's rate drifts
    by a random amount and is clamped to [5, 20]. */
module Market {
  import opened Numbers
  import opened Records

  const MinApy: real := 5.0
  const MaxApy: real := 20.0

  /** `(Math.random() - 0.5) * 0.5`. */
  function Variance(random: real): (v: real)
    ensures 0.0 <= random < 1.0 ==> -0.25 <= v < 0.25
  {
    (random - 0.5) * 0.5
  }

  /** `Math.max(5, Math.min(20, apy + variance))`. */
  function DriftApy(apy: real, variance: real): (r: real)
    ensures MinApy <= r <= MaxApy
    ensures MinApy <= apy + variance <= MaxApy ==> r == apy + variance
    ensures MinApy <= apy <= MaxApy ==> Abs(r - apy) <= Abs(variance)
  {
    Max(MinApy, Min(MaxApy, apy + variance))
  }

  /** A drift step from a rate inside the band moves it by at most 0.25. */
  lemma DriftStepBound(apy: real, random: real)
    requires MinApy <= apy <= MaxApy
    requires 0.0 <= random < 1.0
    ensures Abs(DriftApy(apy, Variance(random)) - apy) <= 0.25
  {
  }

  /** `pools1` is `pools0` after one drift step per pool, `randoms[k]`
      being the `Math.random()` drawn for the k-th key. */
  predicate RatesDrifted(pools0: map<PoolId, Pool>, pools1: map<PoolId, Pool>, order: seq<PoolId>, randoms: seq<real>)
  {
    && |randoms| == |order|
    && pools1.Keys == pools0.Keys
    && forall k :: 0 <= k < |order| ==>
         order[k] in pools0 && pools1[order[k]] == pools0[order[k]].(apy := DriftApy(pools0[order[k]].apy, Variance(randoms[k])))
  }

  /** After a drift step every pool's rate lies in [5, 20]; names, value
      locked and the active flag are untouched; a rate that started in the
      band moves by at most 0.25. */
  lemma DriftedPools(pools0: map<PoolId, Pool>, pools1: map<PoolId, Pool>, order: seq<PoolId>, randoms: seq<real>)
    requires Enumerates(order, pools0.Keys)
    requires RatesDrifted(pools0, pools1, order, randoms)
    requires forall k :: 0 <= k < |randoms| ==> 0.0 <= randoms[k] < 1.0
    ensures forall p :: p in pools1 ==> MinApy <= pools1[p].apy <= MaxApy
    ensures forall p :: p in pools1 ==>
              p in pools0 && pools1[p].name == pools0[p].name && pools1[p].tvl == pools0[p].tvl && pools1[p].active == pools0[p].active
    ensures forall p :: p in pools1 && MinApy <= pools0[p].apy <= MaxApy ==> Abs(pools1[p].apy - pools0[p].apy) <= 0.25
  {
    forall p | p in pools1
      ensures p in pools0 && MinApy <= pools1[p].apy <= MaxApy
      ensures pools1[p].name == pools0[p].name && pools1[p].tvl == pools0[p].tvl && pools1[p].active == pools0[p].active
      ensures MinApy <= pools0[p].apy <= MaxApy ==> Abs(pools1[p].apy - pools0[p].apy) <= 0.25
    {
      var k :| 0 <= k < |order| && order[k] == p;
      if MinApy <= pools0[p].apy <= MaxApy {
        DriftStepBound(pools0[p].apy, randoms[k]);
      }
    }
  }
}
