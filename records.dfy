/** The three record kinds the bot keeps in its module-level maps (users,
    stakes, pools), and the invariants that tie a user's aggregates to the
    list of its stake positions. */
module Records {
  /** Telegram chat ids are numbers; pool ids and stake ids are strings. */
  type ChatId = int
  type PoolId = string
  type StakeId = string

  /** A yield pool: display name, annual rate in percent, value locked, selectable or not. */
  datatype Pool = Pool(name: string, apy: real, tvl: real, active: bool)

  /** A stake position. Times are milliseconds since the epoch. */
  datatype Stake = Stake(
    id: StakeId,
    amount: real,
    poolId: PoolId,
    poolName: string,
    startApy: real,
    currentApy: real,
    earned: real,
    shares: real,
    startTime: int,
    lastCompound: int)

  /** A user record; the key pair is opaque text. */
  datatype User = User(
    chatId: ChatId,
    username: string,
    publicKey: string,
    privateKey: string,
    balance: real,
    totalStaked: real,
    totalEarned: real,
    activeStakes: seq<StakeId>,
    createdAt: int)

  /** The pools installed when the pool file is empty, in key order. */
  const DefaultPoolOrder: seq<PoolId> := ["marinade", "raydium", "orca", "kamino", "drift"]

  const DefaultPools: map<PoolId, Pool> := map[
    "marinade" := Pool("Marinade Finance", 6.8, 0.0, true),
    "raydium" := Pool("Raydium", 12.5, 0.0, true),
    "orca" := Pool("Orca", 10.2, 0.0, true),
    "kamino" := Pool("Kamino", 15.3, 0.0, true),
    "drift" := Pool("Drift Protocol", 8.9, 0.0, true)
  ]

  /** `stakes[chatId] || []`. */
  function StakesIn(stakes: map<ChatId, seq<Stake>>, c: ChatId): seq<Stake>
  {
    if c in stakes then stakes[c] else []
  }

  /** Sum of the `earned` fields, added up front to back. */
  function SumEarned(ss: seq<Stake>): real
  {
    if ss == [] then 0.0 else SumEarned(ss[..|ss| - 1]) + ss[|ss| - 1].earned
  }

  /** The ids of the positions, in order. */
  function Ids(ss: seq<Stake>): (r: seq<StakeId>)
    ensures |r| == |ss|
    ensures forall k :: 0 <= k < |ss| ==> r[k] == ss[k].id
  {
    if ss == [] then [] else Ids(ss[..|ss| - 1]) + [ss[|ss| - 1].id]
  }

  predicate SharesMatch(ss: seq<Stake>)
  {
    forall k :: 0 <= k < |ss| ==> ss[k].shares == ss[k].amount
  }

  predicate EarnedNonNeg(ss: seq<Stake>)
  {
    forall k :: 0 <= k < |ss| ==> ss[k].earned >= 0.0
  }

  /** A user's aggregates agree with its positions. `totalStaked` is not
      among them: accrual raises `amount` and leaves `totalStaked` alone. */
  predicate UserLinked(u: User, ss: seq<Stake>)
  {
    && u.totalEarned == SumEarned(ss)
    && u.activeStakes == Ids(ss)
    && SharesMatch(ss)
    && EarnedNonNeg(ss)
  }

  /** The balance never goes negative, and neither does what a full
      withdrawal would leave in it. */
  predicate UserSolvent(u: User)
  {
    u.balance >= 0.0 && u.balance + u.totalStaked >= 0.0
  }

  predicate Distinct<T(==)>(s: seq<T>)
  {
    forall i, j :: 0 <= i < j < |s| ==> s[i] != s[j]
  }

  /** `s` lists every key of a map exactly once: the role of `Object.keys`. */
  predicate Enumerates<T(==)>(s: seq<T>, keys: set<T>)
  {
    && Distinct(s)
    && (forall k :: 0 <= k < |s| ==> s[k] in keys)
    && (forall x :: x in keys ==> x in s)
  }

  /** User `c` is registered under its own id and linked to its positions. */
  predicate LinkedAt(users: map<ChatId, User>, stakes: map<ChatId, seq<Stake>>, c: ChatId)
  {
    c in users && users[c].chatId == c && UserLinked(users[c], StakesIn(stakes, c))
  }

  predicate SolventAt(users: map<ChatId, User>, c: ChatId)
  {
    c in users && UserSolvent(users[c])
  }

  /** Everything the ledger keeps consistent, except solvency. The per-user
      facts are reached through `LinkedAt`, so that they are only unfolded
      for the users a proof names. */
  predicate LedgerLinked(users: map<ChatId, User>, stakes: map<ChatId, seq<Stake>>,
                         pools: map<PoolId, Pool>, poolOrder: seq<PoolId>)
  {
    && Enumerates(poolOrder, pools.Keys)
    && stakes.Keys <= users.Keys
    && forall c {:trigger LinkedAt(users, stakes, c)} :: c in users ==> LinkedAt(users, stakes, c)
  }

  predicate LedgerValid(users: map<ChatId, User>, stakes: map<ChatId, seq<Stake>>,
                        pools: map<PoolId, Pool>, poolOrder: seq<PoolId>)
  {
    && LedgerLinked(users, stakes, pools, poolOrder)
    && forall c {:trigger SolventAt(users, c)} :: c in users ==> SolventAt(users, c)
  }

  lemma SumEarnedSnoc(ss: seq<Stake>, s: Stake)
    ensures SumEarned(ss + [s]) == SumEarned(ss) + s.earned
  {
    assert (ss + [s])[..|ss|] == ss;
  }

  lemma {:induction false} SumEarnedNonNeg(ss: seq<Stake>)
    requires EarnedNonNeg(ss)
    ensures SumEarned(ss) >= 0.0
  {
    if ss != [] {
      SumEarnedNonNeg(ss[..|ss| - 1]);
    }
  }

  /** Two position lists whose `earned` fields agree have the same sum. */
  lemma {:induction false} SumEarnedSame(a: seq<Stake>, b: seq<Stake>)
    requires |a| == |b|
    requires forall k :: 0 <= k < |a| ==> a[k].earned == b[k].earned
    ensures SumEarned(a) == SumEarned(b)
  {
    if a != [] {
      SumEarnedSame(a[..|a| - 1], b[..|b| - 1]);
    }
  }

  /** A user's linked aggregates never report negative earnings. */
  lemma LinkedEarnedNonNeg(u: User, ss: seq<Stake>)
    requires UserLinked(u, ss)
    ensures u.totalEarned >= 0.0
  {
    SumEarnedNonNeg(ss);
  }

  lemma DefaultPoolsEnumerated()
    ensures Enumerates(DefaultPoolOrder, DefaultPools.Keys)
    ensures forall p :: p in DefaultPools ==> 5.0 <= DefaultPools[p].apy <= 20.0 && DefaultPools[p].active
  {
  }

  /** Replacing one user's record and position list by linked ones keeps the
      whole ledger linked. */
  lemma UpdateKeepsLinked(users: map<ChatId, User>, stakes: map<ChatId, seq<Stake>>,
                          pools: map<PoolId, Pool>, poolOrder: seq<PoolId>,
                          c: ChatId, u: User, ss: seq<Stake>)
    requires LedgerLinked(users, stakes, pools, poolOrder)
    requires c in users && u.chatId == c && UserLinked(u, ss)
    ensures LedgerLinked(users[c := u], stakes[c := ss], pools, poolOrder)
  {
    var users', stakes' := users[c := u], stakes[c := ss];
    forall d | d in users'
      ensures LinkedAt(users', stakes', d)
    {
      if d != c {
        assert LinkedAt(users, stakes, d);
        assert users'[d] == users[d] && StakesIn(stakes', d) == StakesIn(stakes, d);
      }
    }
  }

  /** The same, keeping solvency too. */
  lemma UpdateKeepsValid(users: map<ChatId, User>, stakes: map<ChatId, seq<Stake>>,
                         pools: map<PoolId, Pool>, poolOrder: seq<PoolId>,
                         c: ChatId, u: User, ss: seq<Stake>)
    requires LedgerValid(users, stakes, pools, poolOrder)
    requires c in users && u.chatId == c && UserLinked(u, ss) && UserSolvent(u)
    ensures LedgerValid(users[c := u], stakes[c := ss], pools, poolOrder)
  {
    UpdateKeepsLinked(users, stakes, pools, poolOrder, c, u, ss);
    var users' := users[c := u];
    forall d | d in users'
      ensures SolventAt(users', d)
    {
      if d != c {
        assert SolventAt(users, d);
      }
    }
  }

  /** Registering a new user with no positions keeps the ledger valid. */
  lemma InsertUserKeepsValid(users: map<ChatId, User>, stakes: map<ChatId, seq<Stake>>,
                             pools: map<PoolId, Pool>, poolOrder: seq<PoolId>, c: ChatId, u: User)
    requires LedgerValid(users, stakes, pools, poolOrder)
    requires c !in users && u.chatId == c && UserLinked(u, []) && UserSolvent(u)
    ensures LedgerValid(users[c := u], stakes, pools, poolOrder)
  {
    var users' := users[c := u];
    forall d | d in users'
      ensures LinkedAt(users', stakes, d) && SolventAt(users', d)
    {
      if d != c {
        assert LinkedAt(users, stakes, d) && SolventAt(users, d);
      }
    }
  }

  /** A duplicate-free enumeration of a set is as long as the set is large. */
  lemma {:induction false} EnumeratesSize<T>(s: seq<T>, keys: set<T>)
    requires Enumerates(s, keys)
    ensures |s| == |keys|
  {
    if s == [] {
      assert keys == {};
    } else {
      var n := |s| - 1;
      var x := s[n];
      var prefix, rest := s[..n], keys - {x};
      forall k | 0 <= k < n
        ensures prefix[k] in rest
      {
        assert prefix[k] == s[k] && s[k] != s[n];
      }
      forall y | y in rest
        ensures y in prefix
      {
        var k :| 0 <= k < |s| && s[k] == y;
        assert k != n && prefix[k] == y;
      }
      assert Distinct(prefix) by {
        forall i, j | 0 <= i < j < n
          ensures prefix[i] != prefix[j]
        {
          assert prefix[i] == s[i] && prefix[j] == s[j];
        }
      }
      EnumeratesSize(prefix, rest);
      assert keys == rest + {x};
    }
  }
}
