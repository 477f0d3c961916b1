/** The move rule of `reallocateStakes`: a position follows the optimal pool
    only when that pool's rate beats the position's own by more than two
    points. */
module Reallocation {
  import opened Records

  /** The hysteresis threshold, in percentage points. */
  const Threshold: real := 2.0

  predicate ShouldMove(s: Stake, optimal: PoolId, target: Pool)
  {
    s.poolId != optimal && target.apy - s.currentApy > Threshold
  }

  /** One position after the rule is applied with `target == pools[optimal]`. */
  function Move(s: Stake, optimal: PoolId, target: Pool): (r: Stake)
    ensures r != s <==> ShouldMove(s, optimal, target)
    ensures r.poolId == optimal || r.poolId == s.poolId
    ensures r.id == s.id && r.amount == s.amount && r.earned == s.earned && r.shares == s.shares
    ensures r.startApy == s.startApy && r.startTime == s.startTime && r.lastCompound == s.lastCompound
  {
    if ShouldMove(s, optimal, target) then
      s.(poolId := optimal, poolName := target.name, currentApy := target.apy)
    else s
  }

  /** A moved position is bound to the optimal pool at that pool's rate. */
  lemma MovedToTarget(s: Stake, optimal: PoolId, target: Pool)
    requires Move(s, optimal, target) != s
    ensures Move(s, optimal, target) == s.(poolId := optimal, poolName := target.name, currentApy := target.apy)
    ensures target.apy > s.currentApy + Threshold
  {
  }

  function ReallocateAll(ss: seq<Stake>, optimal: PoolId, target: Pool): (r: seq<Stake>)
    ensures |r| == |ss|
    ensures forall k :: 0 <= k < |ss| ==> r[k] == Move(ss[k], optimal, target)
  {
    if ss == [] then [] else ReallocateAll(ss[..|ss| - 1], optimal, target) + [Move(ss[|ss| - 1], optimal, target)]
  }

  /** The counter `reallocated` at the end of the loop. */
  function MovedCount(ss: seq<Stake>, optimal: PoolId, target: Pool): (n: nat)
    ensures n <= |ss|
  {
    if ss == [] then 0
    else MovedCount(ss[..|ss| - 1], optimal, target) + (if ShouldMove(ss[|ss| - 1], optimal, target) then 1 else 0)
  }

  /** The count is zero exactly when no position qualifies. */
  lemma {:induction false} MovedCountZero(ss: seq<Stake>, optimal: PoolId, target: Pool)
    ensures MovedCount(ss, optimal, target) == 0 <==> forall k :: 0 <= k < |ss| ==> !ShouldMove(ss[k], optimal, target)
  {
    if ss != [] {
      var n := |ss| - 1;
      MovedCountZero(ss[..n], optimal, target);
      assert forall k :: 0 <= k < n ==> ss[..n][k] == ss[k];
    }
  }

  /** The count is zero exactly when the pass leaves the list as it was. */
  lemma NoMoveReported(ss: seq<Stake>, optimal: PoolId, target: Pool)
    ensures MovedCount(ss, optimal, target) == 0 <==> ReallocateAll(ss, optimal, target) == ss
  {
    MovedCountZero(ss, optimal, target);
    if ReallocateAll(ss, optimal, target) == ss {
      forall k | 0 <= k < |ss|
        ensures !ShouldMove(ss[k], optimal, target)
      {
        assert ReallocateAll(ss, optimal, target)[k] == ss[k];
      }
    }
  }

  /** Reallocation keeps a user linked to its positions. */
  lemma ReallocateKeepsLinks(u: User, ss: seq<Stake>, optimal: PoolId, target: Pool)
    requires UserLinked(u, ss)
    ensures UserLinked(u, ReallocateAll(ss, optimal, target))
  {
    SumEarnedSame(ss, ReallocateAll(ss, optimal, target));
    assert Ids(ReallocateAll(ss, optimal, target)) == Ids(ss);
  }

  /** The loop of `reallocateStakes` over one user's positions: each one
      that qualifies is moved to the optimal pool, and the moves counted. */
  method MoveAll(ss: seq<Stake>, optimal: PoolId, target: Pool) returns (out: seq<Stake>, n: nat)
    ensures out == ReallocateAll(ss, optimal, target)
    ensures n == MovedCount(ss, optimal, target)
  {
    out := ss;
    n := 0;
    var i := 0;
    while i < |out|
      invariant 0 <= i <= |out| == |ss|
      invariant forall k :: 0 <= k < i ==> out[k] == Move(ss[k], optimal, target)
      invariant forall k :: i <= k < |ss| ==> out[k] == ss[k]
      invariant n == MovedCount(ss[..i], optimal, target)
    {
      var stake := out[i];
      assert ss[..i + 1][..i] == ss[..i];
      if stake.poolId != optimal && target.apy - stake.currentApy > Threshold {
        stake := stake.(poolId := optimal, poolName := target.name, currentApy := target.apy);
        out := out[i := stake];
        n := n + 1;
      }
      i := i + 1;
    }
    assert ss[..|ss|] == ss;
  }
}
