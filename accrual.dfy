/** The accrual of `autoCompoundRewards`: simple interest on each position for
    the hours since its last compounding, on an 8760-hour year. */
module Accrual {
  import opened Records

  /** `1000 * 60 * 60` milliseconds per hour. */
  const MsPerHour: real := 3600000.0
  const HoursPerYear: real := 8760.0

  /** `amount * (currentApy / 100) * (hoursElapsed / 8760)`. The elapsed time
      is not clamped: a clock behind `lastCompound` gives a negative time. */
  function Reward(s: Stake, now: int): real
  {
    s.amount * (s.currentApy / 100.0) * (((now - s.lastCompound) as real / MsPerHour) / HoursPerYear)
  }

  /** The reward actually booked: a reward that is not positive is dropped. */
  function Applied(s: Stake, now: int): real
  {
    if Reward(s, now) > 0.0 then Reward(s, now) else 0.0
  }

  /** One position after compounding at `now`. */
  function Accrue(s: Stake, now: int): (r: Stake)
    ensures r.amount == s.amount + Applied(s, now)
    ensures r.earned == s.earned + Applied(s, now)
    ensures s.shares == s.amount ==> r.shares == r.amount
    ensures Reward(r, now) <= 0.0
    ensures r.id == s.id && r.poolId == s.poolId && r.poolName == s.poolName
    ensures r.startApy == s.startApy && r.currentApy == s.currentApy && r.startTime == s.startTime
    ensures r == s || (Applied(s, now) > 0.0 && r.shares == r.amount && r.lastCompound == now)
  {
    var rewards := Reward(s, now);
    if rewards > 0.0 then
      var amount := s.amount + rewards;
      var r := s.(amount := amount, earned := s.earned + rewards, shares := amount, lastCompound := now);
      assert (now - r.lastCompound) as real == 0.0;
      r
    else s
  }

  /** Every position of a user compounded at the same `now`. */
  function AccrueAll(ss: seq<Stake>, now: int): (r: seq<Stake>)
    ensures |r| == |ss|
    ensures forall k :: 0 <= k < |ss| ==> r[k] == Accrue(ss[k], now)
  {
    if ss == [] then [] else AccrueAll(ss[..|ss| - 1], now) + [Accrue(ss[|ss| - 1], now)]
  }

  /** The running total `totalCompounded` at the end of the loop. */
  function TotalApplied(ss: seq<Stake>, now: int): (r: real)
    ensures r >= 0.0
  {
    if ss == [] then 0.0 else TotalApplied(ss[..|ss| - 1], now) + Applied(ss[|ss| - 1], now)
  }

  /** The rewards added to the positions are exactly the total reported. */
  lemma {:induction false} AccruedEarned(ss: seq<Stake>, now: int)
    ensures SumEarned(AccrueAll(ss, now)) == SumEarned(ss) + TotalApplied(ss, now)
  {
    if ss != [] {
      var n := |ss| - 1;
      AccruedEarned(ss[..n], now);
      SumEarnedSnoc(AccrueAll(ss[..n], now), Accrue(ss[n], now));
    }
  }

  /** Compounding keeps a user linked to its positions when the user's
      `totalEarned` grows by the reported total. */
  lemma AccrueKeepsLinks(u: User, ss: seq<Stake>, now: int)
    requires UserLinked(u, ss)
    ensures UserLinked(u.(totalEarned := u.totalEarned + TotalApplied(ss, now)), AccrueAll(ss, now))
  {
    AccruedEarned(ss, now);
    assert Ids(AccrueAll(ss, now)) == Ids(ss);
  }

  /** A list with no positive reward due books nothing. */
  lemma {:induction false} NothingDue(ss: seq<Stake>, now: int)
    requires forall k :: 0 <= k < |ss| ==> Reward(ss[k], now) <= 0.0
    ensures TotalApplied(ss, now) == 0.0
    ensures AccrueAll(ss, now) == ss
  {
    if ss != [] {
      NothingDue(ss[..|ss| - 1], now);
    }
  }

  /** Compounding twice at the same `now` books nothing the second time and
      changes nothing. */
  lemma AccrueIdempotent(ss: seq<Stake>, now: int)
    ensures TotalApplied(AccrueAll(ss, now), now) == 0.0
    ensures AccrueAll(AccrueAll(ss, now), now) == AccrueAll(ss, now)
  {
    NothingDue(AccrueAll(ss, now), now);
  }

  /** The reward has the sign of the elapsed time when amount and rate are
      not negative. */
  lemma RewardSign(s: Stake, now: int)
    requires s.amount >= 0.0 && s.currentApy >= 0.0
    ensures now <= s.lastCompound ==> Reward(s, now) <= 0.0
    ensures now >= s.lastCompound ==> Reward(s, now) >= 0.0
  {
    var rate := s.amount * (s.currentApy / 100.0);
    assert rate >= 0.0;
    var years := ((now - s.lastCompound) as real / MsPerHour) / HoursPerYear;
    assert Reward(s, now) == rate * years;
    if now <= s.lastCompound {
      assert years <= 0.0;
      assert rate * years <= 0.0;
    } else {
      assert years >= 0.0;
      assert rate * years >= 0.0;
    }
  }

  /** A clock earlier than every position's last compounding changes nothing,
      as long as amounts and rates are not negative. */
  lemma ClockBehindChangesNothing(ss: seq<Stake>, now: int)
    requires forall k :: 0 <= k < |ss| ==> ss[k].amount >= 0.0 && ss[k].currentApy >= 0.0
    requires forall k :: 0 <= k < |ss| ==> now <= ss[k].lastCompound
    ensures TotalApplied(ss, now) == 0.0
    ensures AccrueAll(ss, now) == ss
  {
    forall k | 0 <= k < |ss|
      ensures Reward(ss[k], now) <= 0.0
    {
      RewardSign(ss[k], now);
    }
    NothingDue(ss, now);
  }

  /** 5 staked at 10% for 8760 hours earns 0.5 and grows to 5.5. */
  lemma OneYearAtTenPercent(s: Stake)
    requires s.amount == 5.0 && s.currentApy == 10.0 && s.earned == 0.0 && s.lastCompound == 0
    ensures Accrue(s, 8760 * 3600000).earned == 0.5
    ensures Accrue(s, 8760 * 3600000).amount == 5.5
  {
    assert Reward(s, 8760 * 3600000) == 0.5;
  }

  /** The loop of `autoCompoundRewards` over one user's positions: each one
      with a positive reward is compounded, and the rewards are summed. */
  method CompoundAll(ss: seq<Stake>, now: int) returns (out: seq<Stake>, total: real)
    ensures out == AccrueAll(ss, now)
    ensures total == TotalApplied(ss, now)
  {
    out := ss;
    total := 0.0;
    var i := 0;
    while i < |out|
      invariant 0 <= i <= |out| == |ss|
      invariant forall k :: 0 <= k < i ==> out[k] == Accrue(ss[k], now)
      invariant forall k :: i <= k < |ss| ==> out[k] == ss[k]
      invariant total == TotalApplied(ss[..i], now)
    {
      var stake := out[i];
      var rewards := Reward(stake, now);
      assert ss[..i + 1][..i] == ss[..i];
      if rewards > 0.0 {
        stake := stake.(amount := stake.amount + rewards);
        stake := stake.(earned := stake.earned + rewards, shares := stake.amount, lastCompound := now);
        out := out[i := stake];
        total := total + rewards;
      }
      i := i + 1;
    }
    assert ss[..|ss|] == ss;
  }
}
