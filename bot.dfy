/** The bot's in-memory ledger, the module-level maps `users`, `stakes` and
    `pools`, with the ledger effect of each command handler and of the hourly
    timer. Chat messages, keyboards and file persistence are not modelled. */
module Bot {
  import opened Wrappers
  import opened Records
  import opened Scoring
  import opened Accrual
  import opened Reallocation
  import opened Market
  import opened Accounts
  import opened Stats

  /** Why a stake request is refused; `NoActivePool` is the exception thrown
      by `calculateOptimalPool`. */
  datatype StakeError = NotStarted | InvalidAmount | InsufficientBalance | NoActivePool

  /** Where the withdraw command stops before asking for an option. */
  datatype WithdrawMenu = WithdrawNotStarted | NothingStaked | ChooseOption

  /** The figures of the statistics command; `avgApy` is `None` where the
      source divides `0 / 0`. */
  datatype Statistics = Statistics(totalUsers: nat, totalStaked: real, totalEarned: real, avgApy: Option<real>)

  /** The amount parses (`!isNaN`) and lies in [minStake, maxStake]. */
  predicate AmountInRange(amount: Option<real>, minStake: real, maxStake: real)
  {
    amount.Some? && minStake <= amount.value <= maxStake
  }

  /** `users1`/`stakes1` are `users0`/`stakes0` after `autoCompoundRewards(c)`. */
  predicate Compounded(users0: map<ChatId, User>, stakes0: map<ChatId, seq<Stake>>,
                       users1: map<ChatId, User>, stakes1: map<ChatId, seq<Stake>>, c: ChatId, now: int)
  {
    && users1 == (if c in users0
                  then users0[c := users0[c].(totalEarned := users0[c].totalEarned + TotalApplied(StakesIn(stakes0, c), now))]
                  else users0)
    && stakes1 == (if c in stakes0 then stakes0[c := AccrueAll(stakes0[c], now)] else stakes0)
  }

  /** User `c` after one pass of the hourly loop: compounded, then reallocated
      towards `optimal` at the rates the cycle started with. */
  predicate Cycled(users0: map<ChatId, User>, stakes0: map<ChatId, seq<Stake>>,
                   users1: map<ChatId, User>, stakes1: map<ChatId, seq<Stake>>,
                   c: ChatId, now: int, optimal: PoolId, target: Pool)
  {
    && c in users0 && c in users1
    && users1[c] == users0[c].(totalEarned := users0[c].totalEarned + TotalApplied(StakesIn(stakes0, c), now))
    && StakesIn(stakes1, c) == ReallocateAll(AccrueAll(StakesIn(stakes0, c), now), optimal, target)
  }

  /** `users1`/`stakes1` are `users0`/`stakes0` after one pass of the
      hourly loop body for `c`: compounded, then reallocated. */
  predicate UserCycled(users0: map<ChatId, User>, stakes0: map<ChatId, seq<Stake>>,
                       users1: map<ChatId, User>, stakes1: map<ChatId, seq<Stake>>,
                       c: ChatId, now: int, optimal: PoolId, target: Pool)
  {
    && c in users0
    && users1 == users0[c := users0[c].(totalEarned := users0[c].totalEarned + TotalApplied(StakesIn(stakes0, c), now))]
    && stakes1 == (if c in stakes0 then stakes0[c := ReallocateAll(AccrueAll(stakes0[c], now), optimal, target)] else stakes0)
  }

  /** Compounding `c` and then reallocating its positions is one pass of
      the hourly loop body. */
  lemma CompoundThenReallocate(users0: map<ChatId, User>, stakes0: map<ChatId, seq<Stake>>,
                               users1: map<ChatId, User>, stakes1: map<ChatId, seq<Stake>>,
                               stakes2: map<ChatId, seq<Stake>>,
                               c: ChatId, now: int, optimal: PoolId, target: Pool)
    requires c in users0
    requires Compounded(users0, stakes0, users1, stakes1, c, now)
    requires stakes2 == (if c in stakes1 then stakes1[c := ReallocateAll(stakes1[c], optimal, target)] else stakes1)
    ensures UserCycled(users0, stakes0, users1, stakes2, c, now, optimal, target)
  {
    if c in stakes0 {
      assert stakes2 == stakes0[c := ReallocateAll(AccrueAll(stakes0[c], now), optimal, target)];
    }
  }

  /** The hourly loop has handled the users in `done`, and no other. */
  predicate CycledPrefix(users0: map<ChatId, User>, stakes0: map<ChatId, seq<Stake>>,
                         users1: map<ChatId, User>, stakes1: map<ChatId, seq<Stake>>,
                         done: seq<ChatId>, now: int, optimal: PoolId, target: Pool)
  {
    && users1.Keys == users0.Keys
    && (forall k {:trigger Cycled(users0, stakes0, users1, stakes1, done[k], now, optimal, target)} ::
          0 <= k < |done| ==> Cycled(users0, stakes0, users1, stakes1, done[k], now, optimal, target))
    && (forall d {:trigger Untouched(users0, stakes0, users1, stakes1, d)} ::
          d in users0 && d !in done ==> Untouched(users0, stakes0, users1, stakes1, d))
  }

  /** User `d` still has its initial record and positions. */
  predicate Untouched(users0: map<ChatId, User>, stakes0: map<ChatId, seq<Stake>>,
                      users1: map<ChatId, User>, stakes1: map<ChatId, seq<Stake>>, d: ChatId)
  {
    d in users0 && d in users1 && users1[d] == users0[d] && StakesIn(stakes1, d) == StakesIn(stakes0, d)
  }

  /** Handling one more user, not handled before, extends the prefix and
      leaves every earlier user's outcome alone. */
  lemma CycleStep(users0: map<ChatId, User>, stakes0: map<ChatId, seq<Stake>>,
                  users1: map<ChatId, User>, stakes1: map<ChatId, seq<Stake>>,
                  users2: map<ChatId, User>, stakes2: map<ChatId, seq<Stake>>,
                  done: seq<ChatId>, c: ChatId, now: int, optimal: PoolId, target: Pool)
    requires CycledPrefix(users0, stakes0, users1, stakes1, done, now, optimal, target)
    requires c in users0 && c !in done
    requires UserCycled(users1, stakes1, users2, stakes2, c, now, optimal, target)
    ensures CycledPrefix(users0, stakes0, users2, stakes2, done + [c], now, optimal, target)
  {
    var done' := done + [c];
    forall k | 0 <= k < |done'|
      ensures Cycled(users0, stakes0, users2, stakes2, done'[k], now, optimal, target)
    {
      if k < |done| {
        var d := done[k];
        assert done'[k] == d && d != c;
        assert Cycled(users0, stakes0, users1, stakes1, done[k], now, optimal, target);
        assert users2[d] == users1[d] && StakesIn(stakes2, d) == StakesIn(stakes1, d);
      } else {
        assert done'[k] == c;
        assert Untouched(users0, stakes0, users1, stakes1, c);
        if c !in stakes1 {
          assert AccrueAll([], now) == [] && ReallocateAll([], optimal, target) == [];
        }
      }
    }
    forall d | d in users0 && d !in done'
      ensures Untouched(users0, stakes0, users2, stakes2, d)
    {
      assert d != c && d !in done;
      assert Untouched(users0, stakes0, users1, stakes1, d);
    }
  }

  /** Once every user of an enumeration is handled, every user is cycled. */
  lemma CycledAll(users0: map<ChatId, User>, stakes0: map<ChatId, seq<Stake>>,
                  users1: map<ChatId, User>, stakes1: map<ChatId, seq<Stake>>,
                  order: seq<ChatId>, now: int, optimal: PoolId, target: Pool)
    requires CycledPrefix(users0, stakes0, users1, stakes1, order, now, optimal, target)
    requires forall c :: c in users0 ==> c in order
    ensures forall c :: c in users0 ==> Cycled(users0, stakes0, users1, stakes1, c, now, optimal, target)
  {
    forall c | c in users0
      ensures Cycled(users0, stakes0, users1, stakes1, c, now, optimal, target)
    {
      var k :| 0 <= k < |order| && order[k] == c;
      assert Cycled(users0, stakes0, users1, stakes1, order[k], now, optimal, target);
    }
  }

  /** Compounding twice at the same instant: the second pass books nothing
      and changes nothing. */
  lemma CompoundTwice(users0: map<ChatId, User>, stakes0: map<ChatId, seq<Stake>>,
                      users1: map<ChatId, User>, stakes1: map<ChatId, seq<Stake>>,
                      users2: map<ChatId, User>, stakes2: map<ChatId, seq<Stake>>, c: ChatId, now: int)
    requires Compounded(users0, stakes0, users1, stakes1, c, now)
    requires Compounded(users1, stakes1, users2, stakes2, c, now)
    ensures TotalApplied(StakesIn(stakes1, c), now) == 0.0
    ensures users2 == users1 && stakes2 == stakes1
  {
    AccrueIdempotent(StakesIn(stakes0, c), now);
    if c in stakes0 {
      assert StakesIn(stakes1, c) == AccrueAll(StakesIn(stakes0, c), now);
      assert stakes2 == stakes1[c := AccrueAll(stakes1[c], now)];
    } else {
      assert StakesIn(stakes1, c) == [];
    }
    if c in users1 {
      assert users1[c].(totalEarned := users1[c].totalEarned + 0.0) == users1[c];
    }
  }

  /** In a coherent ledger every listed user's earnings are non-negative. */
  lemma ListedEarnedNonNeg(users: map<ChatId, User>, stakes: map<ChatId, seq<Stake>>,
                           pools: map<PoolId, Pool>, poolOrder: seq<PoolId>, order: seq<ChatId>)
    requires LedgerLinked(users, stakes, pools, poolOrder)
    requires Listed(users, order)
    ensures forall k :: 0 <= k < |order| ==> users[order[k]].totalEarned >= 0.0
  {
    forall k | 0 <= k < |order|
      ensures users[order[k]].totalEarned >= 0.0
    {
      assert LinkedAt(users, stakes, order[k]);
      LinkedEarnedNonNeg(users[order[k]], StakesIn(stakes, order[k]));
    }
  }

  class Ledger {
    var users: map<ChatId, User>
    var stakes: map<ChatId, seq<Stake>>
    var pools: map<PoolId, Pool>
    /** `Object.keys(pools)`; the set of pools does not change once loaded. */
    const poolOrder: seq<PoolId>

    ghost predicate Valid()
      reads this
    {
      LedgerValid(users, stakes, pools, poolOrder)
    }

    /** Valid except for solvency: what holds between `addStake` and the
        debit that follows it. */
    ghost predicate Coherent()
      reads this
    {
      LedgerLinked(users, stakes, pools, poolOrder)
    }

    /** The three maps as loaded from their files; an empty pool file is
        replaced by the five default pools. */
    constructor Load(users0: map<ChatId, User>, stakes0: map<ChatId, seq<Stake>>,
                     pools0: map<PoolId, Pool>, order0: seq<PoolId>)
      requires pools0 != map[] ==> LedgerValid(users0, stakes0, pools0, order0)
      requires pools0 == map[] ==> LedgerValid(users0, stakes0, DefaultPools, DefaultPoolOrder)
      ensures Valid()
      ensures users == users0 && stakes == stakes0
      ensures pools0 == map[] ==> pools == DefaultPools && poolOrder == DefaultPoolOrder
      ensures pools0 != map[] ==> pools == pools0 && poolOrder == order0
    {
      users := users0;
      stakes := stakes0;
      if pools0 == map[] {
        pools := DefaultPools;
        poolOrder := DefaultPoolOrder;
      } else {
        pools := pools0;
        poolOrder := order0;
      }
    }

    function GetUser(c: ChatId): (r: Option<User>)
      reads this
      ensures r.Some? <==> c in users
      ensures r.Some? ==> r.value == users[c]
    {
      if c in users then Some(users[c]) else None
    }

    /** A registered user's positions carry exactly its `activeStakes` ids
        and its `totalEarned`. */
    function GetUserStakes(c: ChatId): (r: seq<Stake>)
      reads this
      requires Valid()
      ensures c !in users ==> r == []
      ensures c in users ==> Ids(r) == users[c].activeStakes && SumEarned(r) == users[c].totalEarned
    {
      assert c in users ==> LinkedAt(users, stakes, c);
      StakesIn(stakes, c)
    }

    method CreateUser(c: ChatId, username: string, publicKey: string, privateKey: string, now: int)
      returns (u: User)
      requires Valid()
      requires c !in users
      modifies this
      ensures Valid()
      ensures u == NewUser(c, username, publicKey, privateKey, now)
      ensures users == old(users)[c := u] && stakes == old(stakes) && pools == old(pools)
    {
      u := User(c, username, publicKey, privateKey, 0.0, 0.0, 0.0, [], now);
      InsertUserKeepsValid(users, stakes, pools, poolOrder, c, u);
      users := users[c := u];
    }

    /** The `/start` handler: an existing user is reused, a new one created. */
    method Start(c: ChatId, username: string, publicKey: string, privateKey: string, now: int)
      returns (u: User)
      requires Valid()
      modifies this
      ensures Valid()
      ensures c in old(users) ==> u == old(users)[c] && users == old(users)
      ensures c !in old(users) ==> u == NewUser(c, username, publicKey, privateKey, now) && users == old(users)[c := u]
      ensures stakes == old(stakes) && pools == old(pools)
    {
      var found := GetUser(c);
      if found.Some? {
        u := found.value;
      } else {
        u := CreateUser(c, username, publicKey, privateKey, now);
      }
    }

    method AddStake(c: ChatId, amount: real, poolId: PoolId, id: StakeId, now: int) returns (s: Stake)
      requires Coherent()
      requires c in users && poolId in pools
      modifies this
      ensures Coherent()
      ensures s == OpenStake(id, amount, poolId, old(pools)[poolId], now)
      ensures stakes == old(stakes)[c := StakesIn(old(stakes), c) + [s]]
      ensures users == old(users)[c := Staked(old(users)[c], s)]
      ensures pools == old(pools)
    {
      var ss := if c in stakes then stakes[c] else [];
      s := Stake(id, amount, poolId, pools[poolId].name, pools[poolId].apy, pools[poolId].apy, 0.0, amount, now, now);
      var u := users[c].(totalStaked := users[c].totalStaked + amount, activeStakes := users[c].activeStakes + [s.id]);
      assert s == OpenStake(id, amount, poolId, pools[poolId], now) && u == Staked(users[c], s);
      assert ss == StakesIn(stakes, c);
      assert LinkedAt(old(users), old(stakes), c);
      AddStakeKeepsLinks(old(users)[c], StakesIn(old(stakes), c), id, amount, poolId, old(pools)[poolId], now);
      UpdateKeepsLinked(users, stakes, pools, poolOrder, c, u, ss + [s]);
      stakes := stakes[c := ss + [s]];
      users := users[c := u];
    }

    /** The `/stake` handler and its reply: validate the amount, pick the
        optimal pool, open the position and debit the balance. */
    method StakeCommand(c: ChatId, amount: Option<real>, minStake: real, maxStake: real, id: StakeId, now: int)
      returns (r: Result<Stake, StakeError>)
      requires Valid()
      modifies this
      ensures Valid()
      ensures pools == old(pools)
      ensures r.Failure? ==> users == old(users) && stakes == old(stakes)
      ensures r == Failure(NotStarted) <==> c !in old(users)
      ensures r == Failure(InvalidAmount) <==> c in old(users) && !AmountInRange(amount, minStake, maxStake)
      ensures r == Failure(InsufficientBalance) <==>
                c in old(users) && AmountInRange(amount, minStake, maxStake) && amount.value > old(users)[c].balance
      ensures r == Failure(NoActivePool) <==>
                c in old(users) && AmountInRange(amount, minStake, maxStake) && amount.value <= old(users)[c].balance
                && OptimalPool(old(pools), poolOrder).None?
      ensures r.Success? ==> c in old(users) && amount.Some? && OptimalPool(old(pools), poolOrder).Some?
      ensures r.Success? ==>
                var a := amount.value;
                var p := OptimalPool(old(pools), poolOrder).value;
                && r.value == OpenStake(id, a, p, old(pools)[p], now)
                && stakes == old(stakes)[c := StakesIn(old(stakes), c) + [r.value]]
                && users == old(users)[c := Staked(old(users)[c], r.value).(balance := old(users)[c].balance - a)]
    {
      if c !in users {
        return Failure(NotStarted);
      }
      if amount.None? || amount.value < minStake || amount.value > maxStake {
        return Failure(InvalidAmount);
      }
      var a := amount.value;
      if a > users[c].balance {
        return Failure(InsufficientBalance);
      }
      var optimal := OptimalPool(pools, poolOrder);
      if optimal.None? {
        return Failure(NoActivePool);
      }
      var s := OpenPosition(c, a, optimal.value, id, now);
      r := Success(s);
    }

    /** The success path of the stake handler: `addStake`, then the debit. */
    method OpenPosition(c: ChatId, a: real, p: PoolId, id: StakeId, now: int) returns (s: Stake)
      requires Valid()
      requires c in users && p in pools && a <= users[c].balance
      modifies this
      ensures Valid()
      ensures pools == old(pools)
      ensures s == OpenStake(id, a, p, pools[p], now)
      ensures stakes == old(stakes)[c := StakesIn(old(stakes), c) + [s]]
      ensures users == old(users)[c := Staked(old(users)[c], s).(balance := old(users)[c].balance - a)]
    {
      ghost var u0, ss0 := users[c], StakesIn(stakes, c);
      assert LinkedAt(users, stakes, c) && SolventAt(users, c);
      s := AddStake(c, a, p, id, now);
      users := users[c := users[c].(balance := users[c].balance - a)];
      AddStakeKeepsLinks(u0, ss0, id, a, p, old(pools)[p], now);
      DebitKeepsSolvent(u0, s);
      ghost var u1 := Staked(u0, s).(balance := u0.balance - a);
      assert UserLinked(u1, ss0 + [s]);
      UpdateKeepsValid(old(users), old(stakes), pools, poolOrder, c, u1, ss0 + [s]);
      assert users == old(users)[c := u1];
    }

    /** `autoCompoundRewards`: compound every position of `c` at `now` and
        return the total booked. */
    method AutoCompoundRewards(c: ChatId, now: int) returns (total: real)
      requires Valid()
      modifies this
      ensures Valid()
      ensures total == TotalApplied(StakesIn(old(stakes), c), now)
      ensures Compounded(old(users), old(stakes), users, stakes, c, now)
      ensures pools == old(pools)
    {
      total := 0.0;
      if c !in stakes {
        return;
      }
      var ss := stakes[c];
      var out;
      out, total := CompoundAll(ss, now);
      var u := users[c].(totalEarned := users[c].totalEarned + total);
      assert LinkedAt(users, stakes, c) && SolventAt(users, c);
      AccrueKeepsLinks(users[c], ss, now);
      UpdateKeepsValid(users, stakes, pools, poolOrder, c, u, out);
      stakes := stakes[c := out];
      users := users[c := u];
    }

    /** `reallocateStakes`: move every position of `c` that qualifies to the
        optimal pool; `None` when `calculateOptimalPool` throws. */
    method ReallocateStakes(c: ChatId) returns (moved: Option<nat>)
      requires Valid()
      modifies this
      ensures Valid()
      ensures users == old(users) && pools == old(pools)
      ensures moved.None? <==> OptimalPool(pools, poolOrder).None?
      ensures moved.None? ==> stakes == old(stakes)
      ensures moved.Some? ==>
                var p := OptimalPool(pools, poolOrder).value;
                && moved.value == MovedCount(StakesIn(old(stakes), c), p, pools[p])
                && stakes == (if c in old(stakes) then old(stakes)[c := ReallocateAll(old(stakes)[c], p, pools[p])] else old(stakes))
    {
      var ss := StakesIn(stakes, c);
      var optimal := OptimalPool(pools, poolOrder);
      if optimal.None? {
        return None;
      }
      var p := optimal.value;
      var out, n := MoveAll(ss, p, pools[p]);
      if c in stakes {
        assert LinkedAt(users, stakes, c) && SolventAt(users, c);
        ReallocateKeepsLinks(users[c], ss, p, pools[p]);
        UpdateKeepsValid(users, stakes, pools, poolOrder, c, users[c], out);
        assert users == users[c := users[c]];
        stakes := stakes[c := out];
      }
      moved := Some(n);
    }

    /** The withdraw command up to its menu: a registered user is compounded
        first and then offered the options only if it holds positions. */
    method OpenWithdraw(c: ChatId, now: int) returns (m: WithdrawMenu)
      requires Valid()
      modifies this
      ensures Valid()
      ensures pools == old(pools)
      ensures c !in old(users) ==> m == WithdrawNotStarted && users == old(users) && stakes == old(stakes)
      ensures c in old(users) ==> Compounded(old(users), old(stakes), users, stakes, c, now)
      ensures c in old(users) ==> (m == NothingStaked <==> StakesIn(old(stakes), c) == [])
      ensures c in old(users) ==> (m == ChooseOption <==> StakesIn(old(stakes), c) != [])
    {
      var found := GetUser(c);
      if found.None? {
        return WithdrawNotStarted;
      }
      var compounded := AutoCompoundRewards(c, now);
      var ss := GetUserStakes(c);
      if |ss| == 0 {
        m := NothingStaked;
      } else {
        m := ChooseOption;
      }
    }

    /** Withdrawal option 1: the earnings go to the balance and every
        position's `earned` is reset. */
    method WithdrawEarningsOption(c: ChatId) returns (paid: real)
      requires Valid()
      requires c in users
      modifies this
      ensures Valid()
      ensures pools == old(pools)
      ensures paid == SumEarned(StakesIn(old(stakes), c))
      ensures users == old(users)[c := WithdrawEarnings(old(users)[c])]
      ensures stakes == (if c in old(stakes) then old(stakes)[c := ResetEarned(old(stakes)[c])] else old(stakes))
    {
      assert LinkedAt(users, stakes, c) && SolventAt(users, c);
      var u := users[c];
      var ss := StakesIn(stakes, c);
      EarningsWithdrawalKeepsInvariant(u, ss);
      paid := u.totalEarned;
      u := u.(balance := u.balance + paid);
      u := u.(totalEarned := 0.0);
      assert u == WithdrawEarnings(users[c]);
      if c in stakes {
        var out := ClearEarned(ss);
        UpdateKeepsValid(users, stakes, pools, poolOrder, c, u, out);
        stakes := stakes[c := out];
      } else {
        assert u == users[c] && users[c := u] == users;
      }
      users := users[c := u];
    }

    /** Withdrawal option 2: stake and earnings go to the balance and every
        position is closed. */
    method WithdrawEverythingOption(c: ChatId) returns (paid: real)
      requires Valid()
      requires c in users
      modifies this
      ensures Valid()
      ensures pools == old(pools)
      ensures paid == old(users)[c].totalStaked + SumEarned(StakesIn(old(stakes), c))
      ensures users == old(users)[c := WithdrawEverything(old(users)[c])]
      ensures stakes == old(stakes)[c := []]
    {
      assert LinkedAt(users, stakes, c) && SolventAt(users, c);
      var u := users[c];
      FullWithdrawalKeepsInvariant(u, StakesIn(stakes, c));
      paid := u.totalStaked + u.totalEarned;
      u := u.(balance := u.balance + paid);
      u := u.(totalStaked := 0.0, totalEarned := 0.0, activeStakes := []);
      assert u == WithdrawEverything(users[c]);
      UpdateKeepsValid(users, stakes, pools, poolOrder, c, u, []);
      users := users[c := u];
      stakes := stakes[c := []];
    }

    /** The reply to the withdraw menu: `option` is `parseInt` of the reply
        (`None` for NaN); anything but 1 or 2 changes nothing. */
    method Withdraw(c: ChatId, option: Option<int>) returns (paid: Option<real>)
      requires Valid()
      requires c in users
      modifies this
      ensures Valid()
      ensures pools == old(pools)
      ensures option == Some(1) ==>
                && paid == Some(SumEarned(StakesIn(old(stakes), c)))
                && users == old(users)[c := WithdrawEarnings(old(users)[c])]
                && stakes == (if c in old(stakes) then old(stakes)[c := ResetEarned(old(stakes)[c])] else old(stakes))
      ensures option == Some(2) ==>
                && paid == Some(old(users)[c].totalStaked + SumEarned(StakesIn(old(stakes), c)))
                && users == old(users)[c := WithdrawEverything(old(users)[c])]
                && stakes == old(stakes)[c := []]
      ensures option != Some(1) && option != Some(2) ==> paid.None? && users == old(users) && stakes == old(stakes)
    {
      if option == Some(1) {
        var earnings := WithdrawEarningsOption(c);
        paid := Some(earnings);
      } else if option == Some(2) {
        var total := WithdrawEverythingOption(c);
        paid := Some(total);
      } else {
        paid := None;
      }
    }

    /** The rate drift at the end of the hourly cycle, one random draw per
        pool in key order. */
    method DriftRates(randoms: seq<real>)
      requires Valid()
      requires |randoms| == |poolOrder|
      modifies this
      ensures Valid()
      ensures RatesDrifted(old(pools), pools, poolOrder, randoms)
      ensures users == old(users) && stakes == old(stakes)
    {
      var i := 0;
      while i < |poolOrder|
        invariant 0 <= i <= |poolOrder|
        invariant Valid()
        invariant pools.Keys == old(pools).Keys
        invariant forall k :: 0 <= k < i ==>
                    pools[poolOrder[k]] == old(pools)[poolOrder[k]].(apy := DriftApy(old(pools)[poolOrder[k]].apy, Variance(randoms[k])))
        invariant forall k :: i <= k < |poolOrder| ==> pools[poolOrder[k]] == old(pools)[poolOrder[k]]
        invariant users == old(users) && stakes == old(stakes)
      {
        var id := poolOrder[i];
        var variance := Variance(randoms[i]);
        pools := pools[id := pools[id].(apy := DriftApy(pools[id].apy, variance))];
        i := i + 1;
      }
    }

    /** One pass of the hourly loop body for user `c`; `false` when
        `calculateOptimalPool` throws, after the compounding. */
    method CycleUser(c: ChatId, now: int) returns (ok: bool)
      requires Valid()
      requires c in users
      modifies this
      ensures Valid()
      ensures pools == old(pools)
      ensures ok <==> OptimalPool(pools, poolOrder).Some?
      ensures !ok ==> Compounded(old(users), old(stakes), users, stakes, c, now)
      ensures users.Keys == old(users).Keys && stakes.Keys == old(stakes).Keys
      ensures ok ==> var p := OptimalPool(pools, poolOrder).value;
                UserCycled(old(users), old(stakes), users, stakes, c, now, p, pools[p])
    {
      var compounded := AutoCompoundRewards(c, now);
      ghost var users1, stakes1 := users, stakes;
      var moved := ReallocateStakes(c);
      ok := moved.Some?;
      if ok {
        var p := OptimalPool(pools, poolOrder).value;
        CompoundThenReallocate(old(users), old(stakes), users1, stakes1, stakes, c, now, p, pools[p]);
      }
    }

    /** The user loop of the hourly timer, in key order. An exception from
        `calculateOptimalPool` ends it after the first user's compounding. */
    method CycleUsers(order: seq<ChatId>, now: int) returns (completed: bool)
      requires Valid()
      requires Enumerates(order, users.Keys)
      modifies this
      ensures Valid()
      ensures pools == old(pools)
      ensures users.Keys == old(users).Keys && stakes.Keys == old(stakes).Keys
      ensures completed <==> order == [] || OptimalPool(pools, poolOrder).Some?
      ensures !completed ==> order != [] && Compounded(old(users), old(stakes), users, stakes, order[0], now)
      ensures completed && order != [] ==>
                var p := OptimalPool(pools, poolOrder).value;
                forall c :: c in old(users) ==> Cycled(old(users), old(stakes), users, stakes, c, now, p, pools[p])
    {
      ghost var opt := OptimalPool(pools, poolOrder);
      var i := 0;
      while i < |order|
        invariant 0 <= i <= |order|
        invariant Valid()
        invariant pools == old(pools)
        invariant users.Keys == old(users).Keys && stakes.Keys == old(stakes).Keys
        invariant i == 0 ==> users == old(users) && stakes == old(stakes)
        invariant i > 0 ==> opt.Some? && CycledPrefix(old(users), old(stakes), users, stakes, order[..i], now, opt.value, pools[opt.value])
      {
        ghost var users1, stakes1 := users, stakes;
        var ok := CycleUser(order[i], now);
        if !ok {
          return false;
        }
        assert order[i] !in order[..i];
        assert order[..i + 1] == order[..i] + [order[i]];
        CycleStep(old(users), old(stakes), users1, stakes1, users, stakes, order[..i], order[i], now, opt.value, pools[opt.value]);
        i := i + 1;
      }
      completed := true;
      if order != [] {
        assert order[..|order|] == order;
        CycledAll(old(users), old(stakes), users, stakes, order, now, opt.value, pools[opt.value]);
      }
    }

    /** The hourly timer: the user loop, then, unless it threw, the drift of
        every pool's rate. */
    method HourlyCycle(order: seq<ChatId>, now: int, randoms: seq<real>) returns (completed: bool)
      requires Valid()
      requires Enumerates(order, users.Keys)
      requires |randoms| == |poolOrder|
      modifies this
      ensures Valid()
      ensures users.Keys == old(users).Keys && stakes.Keys == old(stakes).Keys
      ensures completed <==> order == [] || OptimalPool(old(pools), poolOrder).Some?
      ensures !completed ==> order != [] && pools == old(pools) && Compounded(old(users), old(stakes), users, stakes, order[0], now)
      ensures completed ==> RatesDrifted(old(pools), pools, poolOrder, randoms)
      ensures completed && order != [] ==>
                var p := OptimalPool(old(pools), poolOrder).value;
                forall c :: c in old(users) ==> Cycled(old(users), old(stakes), users, stakes, c, now, p, old(pools)[p])
    {
      completed := CycleUsers(order, now);
      if completed {
        DriftRates(randoms);
      }
    }

    /** The statistics command's aggregates over the users in key order
        and the pools in key order. */
    function GetStatistics(order: seq<ChatId>): (r: Statistics)
      reads this
      requires Valid()
      requires Enumerates(order, users.Keys)
      ensures r.totalUsers == |users|
      ensures r.totalEarned >= 0.0
      ensures r.avgApy.None? <==> forall p :: p in pools ==> !pools[p].active
      ensures (forall p :: p in pools ==> MinApy <= pools[p].apy <= MaxApy) && r.avgApy.Some? ==>
                MinApy <= r.avgApy.value <= MaxApy
    {
      EnumeratesSize(order, users.Keys);
      ListedEarnedNonNeg(users, stakes, pools, poolOrder, order);
      AverageWithinBand(pools, poolOrder);
      Statistics(|order|, SumStaked(users, order), SumEarnedOf(users, order), AverageApy(pools, poolOrder))
    }
  }
}
