/** The ledger effects of user actions: creating a user, opening a
    position, and the two withdrawal options. */
module Accounts {
  import opened Records

  /** The record `createUser` stores. */
  function NewUser(c: ChatId, username: string, publicKey: string, privateKey: string, now: int): (u: User)
    ensures UserLinked(u, []) && UserSolvent(u)
    ensures u.chatId == c && u.createdAt == now
    ensures u.balance == 0.0 && u.totalStaked == 0.0 && u.totalEarned == 0.0
  {
    User(c, username, publicKey, privateKey, 0.0, 0.0, 0.0, [], now)
  }

  /** The position `addStake` builds. */
  function OpenStake(id: StakeId, amount: real, poolId: PoolId, pool: Pool, now: int): Stake
  {
    Stake(id, amount, poolId, pool.name, pool.apy, pool.apy, 0.0, amount, now, now)
  }

  /** `addStake`'s change to the user record. */
  function Staked(u: User, s: Stake): User
  {
    u.(totalStaked := u.totalStaked + s.amount, activeStakes := u.activeStakes + [s.id])
  }

  /** A new position starts with nothing earned, shares equal to the amount
      and both rates equal to the pool's; appending it keeps the user linked. */
  lemma AddStakeKeepsLinks(u: User, ss: seq<Stake>, id: StakeId, amount: real, poolId: PoolId, pool: Pool, now: int)
    requires UserLinked(u, ss)
    ensures var s := OpenStake(id, amount, poolId, pool, now);
      && s.amount == amount && s.shares == amount && s.earned == 0.0
      && s.startApy == pool.apy && s.currentApy == pool.apy
      && UserLinked(Staked(u, s), ss + [s])
  {
    var s := OpenStake(id, amount, poolId, pool, now);
    SumEarnedSnoc(ss, s);
    assert Ids(ss + [s]) == Ids(ss) + [s.id];
  }

  /** Paying from the balance an amount it covers keeps the user solvent. */
  lemma DebitKeepsSolvent(u: User, s: Stake)
    requires UserSolvent(u)
    requires s.amount <= u.balance
    ensures UserSolvent(Staked(u, s).(balance := u.balance - s.amount))
  {
  }

  /** Withdrawal option 1 on the user record. */
  function WithdrawEarnings(u: User): User
  {
    u.(balance := u.balance + u.totalEarned, totalEarned := 0.0)
  }

  /** Withdrawal option 2 on the user record. */
  function WithdrawEverything(u: User): User
  {
    u.(balance := u.balance + (u.totalStaked + u.totalEarned), totalStaked := 0.0, totalEarned := 0.0, activeStakes := [])
  }

  /** Every position with `earned := 0`. */
  function ResetEarned(ss: seq<Stake>): (r: seq<Stake>)
    ensures |r| == |ss|
    ensures forall k :: 0 <= k < |ss| ==> r[k] == ss[k].(earned := 0.0)
  {
    if ss == [] then [] else ResetEarned(ss[..|ss| - 1]) + [ss[|ss| - 1].(earned := 0.0)]
  }

  lemma {:induction false} ResetEarnedSum(ss: seq<Stake>)
    ensures SumEarned(ResetEarned(ss)) == 0.0
  {
    if ss != [] {
      ResetEarnedSum(ss[..|ss| - 1]);
    }
  }

  /** Option 1 pays out exactly the earnings the positions hold, zeroes them
      and keeps every amount, the stake list and `totalStaked`. */
  lemma EarningsWithdrawalKeepsInvariant(u: User, ss: seq<Stake>)
    requires UserLinked(u, ss) && UserSolvent(u)
    ensures var w := WithdrawEarnings(u);
      && w.balance == u.balance + SumEarned(ss)
      && w.totalStaked == u.totalStaked && w.activeStakes == u.activeStakes
      && UserLinked(w, ResetEarned(ss)) && UserSolvent(w)
  {
    ResetEarnedSum(ss);
    LinkedEarnedNonNeg(u, ss);
    assert Ids(ResetEarned(ss)) == Ids(ss);
  }

  /** Option 2 pays out `totalStaked + totalEarned`, leaves no positions and
      keeps the balance non-negative. */
  lemma FullWithdrawalKeepsInvariant(u: User, ss: seq<Stake>)
    requires UserLinked(u, ss) && UserSolvent(u)
    ensures var w := WithdrawEverything(u);
      && w.balance == u.balance + u.totalStaked + SumEarned(ss)
      && w.totalStaked == 0.0 && w.totalEarned == 0.0
      && UserLinked(w, []) && UserSolvent(w)
  {
    LinkedEarnedNonNeg(u, ss);
  }

  /** The loop of withdrawal option 1 that zeroes every position's `earned`. */
  method ClearEarned(ss: seq<Stake>) returns (out: seq<Stake>)
    ensures out == ResetEarned(ss)
  {
    out := ss;
    var i := 0;
    while i < |out|
      invariant 0 <= i <= |out| == |ss|
      invariant forall k :: 0 <= k < i ==> out[k] == ss[k].(earned := 0.0)
      invariant forall k :: i <= k < |ss| ==> out[k] == ss[k]
    {
      out := out[i := out[i].(earned := 0.0)];
      i := i + 1;
    }
  }
}
