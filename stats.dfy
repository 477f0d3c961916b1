/** The aggregates of the statistics command and the filter of the daily
    earnings notification. `order` plays the part of `Object.keys(users)`. */
module Stats {
  import opened Wrappers
  import opened Records
  import opened Market

  /** Notification threshold on `totalEarned`. */
  const NotifyThreshold: real := 0.001

  predicate Listed(users: map<ChatId, User>, order: seq<ChatId>)
  {
    forall k :: 0 <= k < |order| ==> order[k] in users
  }

  function SumStaked(users: map<ChatId, User>, order: seq<ChatId>): real
    requires Listed(users, order)
  {
    if order == [] then 0.0 else SumStaked(users, order[..|order| - 1]) + users[order[|order| - 1]].totalStaked
  }

  function SumEarnedOf(users: map<ChatId, User>, order: seq<ChatId>): (r: real)
    requires Listed(users, order)
    ensures (forall k :: 0 <= k < |order| ==> users[order[k]].totalEarned >= 0.0) ==> r >= 0.0
  {
    if order == [] then 0.0 else SumEarnedOf(users, order[..|order| - 1]) + users[order[|order| - 1]].totalEarned
  }

  function ActiveCount(pools: map<PoolId, Pool>, order: seq<PoolId>): (n: nat)
    requires forall k :: 0 <= k < |order| ==> order[k] in pools
    ensures n == 0 <==> forall k :: 0 <= k < |order| ==> !pools[order[k]].active
  {
    if order == [] then 0
    else ActiveCount(pools, order[..|order| - 1]) + (if pools[order[|order| - 1]].active then 1 else 0)
  }

  function ActiveApySum(pools: map<PoolId, Pool>, order: seq<PoolId>): real
    requires forall k :: 0 <= k < |order| ==> order[k] in pools
  {
    if order == [] then 0.0
    else ActiveApySum(pools, order[..|order| - 1]) + (if pools[order[|order| - 1]].active then pools[order[|order| - 1]].apy else 0.0)
  }

  /** The sum of the active rates lies between count * 5 and count * 20
      when every active rate lies in the drift band. */
  lemma {:induction false} ActiveApySumBounds(pools: map<PoolId, Pool>, order: seq<PoolId>)
    requires forall k :: 0 <= k < |order| ==> order[k] in pools
    requires forall k :: 0 <= k < |order| && pools[order[k]].active ==> MinApy <= pools[order[k]].apy <= MaxApy
    ensures ActiveCount(pools, order) as real * MinApy <= ActiveApySum(pools, order) <= ActiveCount(pools, order) as real * MaxApy
  {
    if order != [] {
      var n := |order| - 1;
      var prefix := order[..n];
      assert forall k :: 0 <= k < n ==> prefix[k] == order[k];
      ActiveApySumBounds(pools, prefix);
    }
  }

  /** The average rate of the active pools; `None` for the `0 / 0` (NaN)
      of an empty active set. */
  function AverageApy(pools: map<PoolId, Pool>, order: seq<PoolId>): (r: Option<real>)
    requires forall k :: 0 <= k < |order| ==> order[k] in pools
    ensures r.None? <==> forall k :: 0 <= k < |order| ==> !pools[order[k]].active
    ensures r.Some? ==> r.value * ActiveCount(pools, order) as real == ActiveApySum(pools, order)
  {
    var n := ActiveCount(pools, order);
    if n == 0 then None else Some(ActiveApySum(pools, order) / n as real)
  }

  /** When every active rate lies in [5, 20], so does their average. */
  lemma AverageWithinBand(pools: map<PoolId, Pool>, order: seq<PoolId>)
    requires forall k :: 0 <= k < |order| ==> order[k] in pools
    ensures ((forall k :: 0 <= k < |order| && pools[order[k]].active ==> MinApy <= pools[order[k]].apy <= MaxApy)
             && AverageApy(pools, order).Some?)
            ==> MinApy <= AverageApy(pools, order).value <= MaxApy
  {
    if forall k :: 0 <= k < |order| && pools[order[k]].active ==> MinApy <= pools[order[k]].apy <= MaxApy {
      ActiveApySumBounds(pools, order);
      var n := ActiveCount(pools, order);
      if n != 0 {
        QuotientWithin(ActiveApySum(pools, order), n as real);
      }
    }
  }

  lemma QuotientWithin(sum: real, n: real)
    requires n > 0.0
    requires n * MinApy <= sum <= n * MaxApy
    ensures MinApy <= sum / n <= MaxApy
  {
  }

  /** The users the daily sweep writes to, in key order. */
  function NotifyList(users: map<ChatId, User>, order: seq<ChatId>): (r: seq<ChatId>)
    requires Listed(users, order)
    ensures forall c :: c in r <==> c in order && users[c].totalEarned > NotifyThreshold
  {
    if order == [] then []
    else
      var c := order[|order| - 1];
      NotifyList(users, order[..|order| - 1]) + (if users[c].totalEarned > NotifyThreshold then [c] else [])
  }
}
