# Morph Mind stake ledger and yield engine, in Dafny

This project models the bookkeeping core of the Morph Mind Telegram bot (`bot.js`). The bot keeps three in-memory maps:

- `users`: balance, totalStaked, totalEarned and the list of stake ids;
- `stakes`: per user, a list of positions;
- `pools`: name, rate (apy), value locked (tvl) and an active flag.

Its commands and timers change these maps:

- `/start` registers a user.
- `/stake` validates an amount, picks the best-scoring active pool and opens a position.
- `/withdraw` first compounds, then pays out either the earnings or everything.
- `/stats` aggregates the maps.
- An hourly timer compounds every user's positions, moves positions to the best pool when it pays more than 2 points extra, and lets every pool's rate drift at random within [5, 20].
- A daily timer notifies users whose earnings exceed 0.001.

The model has one module per concern:

- `Records`: the entities and the ledger invariant.
  - Per user: `totalEarned` is the sum of the positions' `earned`, `activeStakes` lists the position ids in order, every position has `shares == amount`, and `earned >= 0`.
  - Per user: `balance >= 0` and `balance + totalStaked >= 0`.
  - The pool key order enumerates the pools.
- `Scoring`: the pool score and the choice of the optimal pool.
- `Accrual`: reward computation and compounding.
- `Reallocation`: moving positions to the optimal pool.
- `Market`: the rate drift.
- `Accounts`: new users, new positions and the two withdrawal options on a user record.
- `Stats`: the statistics reductions and the notification filter.
- `Bot`: the class `Ledger`, whose fields are the three maps. It has one method per function and handler body that changes them. Each method states its whole new state. Every method keeps `Valid()`, the invariant above, except `AddStake`. `AddStake` keeps only `Coherent()`, which is the invariant without solvency, because an accepted negative amount can leave `balance + totalStaked` negative until the debit. `OpenPosition`, which runs `AddStake` and then the debit, restores `Valid()`.

How the program's inputs appear in the model:

- Numbers are reals.
- `Date.now()` is a parameter `now` (milliseconds).
- Each `Math.random()` of the drift loop is an element of `randoms`.
- The stake id `Date.now().toString()` is a parameter `id`.
- Wallet keys are opaque strings.
- The iteration order of `Object.keys(pools)` is the ledger's `poolOrder`.
- The iteration order of `Object.keys(users)` is a parameter `order` that enumerates the users.
- The exception `calculateOptimalPool` throws when no pool is active is the `None` of an `Option`.

Points where the code behaves differently from what one might expect, and which the model follows:

- No handler checks `amount > 0`. A stake is accepted whenever it lies within [minStake, maxStake] and within the balance, so a configuration with `minStake <= 0` admits a zero or negative stake.
- Compounding raises each position's `amount` and the user's `totalEarned`, never `totalStaked`.
- The drift changes only the pools' rates. A position's `currentApy` changes only when the position is reallocated.
- The elapsed time is not clamped. With a non-negative amount and rate, a clock behind `lastCompound` gives a non-positive reward, which is simply not applied. With a negative accepted amount, the same backwards clock gives a positive reward, which is applied.
- The hourly loop computes the optimal pool once per user, at rates that do not change within the loop. The drift comes after all users.
- When no pool is active, the exception stops the hourly cycle after the first user's compounding: no reallocation and no drift happen. What happens to the process after that is not modelled (see "## Left out").

## Model

| member | source | states |
|---|---|---|
| Numbers.Min | bot.js:122 | definition; no contract of its own: `Math.min` on reals, the smaller argument |
| Numbers.Max | bot.js:577 | definition; no contract of its own: `Math.max` on reals, the larger argument |
| Numbers.Abs | bot.js:123 | definition; no contract of its own: `Math.abs` on reals |
| Records.LinkedEarnedNonNeg | bot.js:99-107 | a linked user's totalEarned is non-negative |
| Records.StakesIn | bot.js:86 | definition; no contract of its own: a user's positions, `stakes[chatId] \|\| []`, the empty list for a user without an entry |
| Records.UpdateKeepsLinked | bot.js:104-106 | replacing one user's record and positions by linked ones keeps every user linked and the pool order an enumeration |
| Records.UpdateKeepsValid | bot.js:104-106 | the same, keeping every user solvent |
| Records.InsertUserKeepsValid | bot.js:68-83 | registering a new user with no positions keeps the ledger valid |
| Records.DefaultPoolsEnumerated | bot.js:52-59 | the five default pools are enumerated by marinade, raydium, orca, kamino, drift; all are active with rates in [5, 20] |
| Records.EnumeratesSize | bot.js:462 | a duplicate-free enumeration of a key set has the set's size, so `Object.keys(users).length` counts the users |
| Records.SumEarnedNonNeg | bot.js:154 | positions with non-negative earnings sum to a non-negative total |
| Scoring.Score | bot.js:120-129 | definition; no contract of its own: 0.6 times the rate, plus 0.3 times the value locked in millions capped at 10, plus 0.1 times (15 minus the distance of the rate from 10) |
| Scoring.OptimalPool | bot.js:116-134 | `None` (the throw) exactly when no pool is active; otherwise an active pool whose score is at least the score of every active pool |
| Accrual.Reward | bot.js:141-144 | definition; no contract of its own: amount times rate/100 times elapsed hours/8760 |
| Accrual.Applied | bot.js:144-147 | definition; no contract of its own: the reward when it is positive, otherwise 0 |
| Accrual.Accrue | bot.js:140-155 | amount and earned each grow by the reward when it is positive, shares stay equal to amount, lastCompound becomes `now`; a non-positive reward leaves the position unchanged; nothing is left to accrue at `now` afterwards |
| Accrual.AccrueAll | bot.js:139-156 | every position is compounded independently, in order |
| Accrual.TotalApplied | bot.js:138-163 | the total compounded is non-negative |
| Accrual.AccruedEarned | bot.js:149-154 | the positions' earnings grow by exactly the total reported, which is what is added to totalEarned |
| Accrual.AccrueKeepsLinks | bot.js:148-154 | compounding keeps totalEarned equal to the sum of earned, the ids in order and shares equal to amount |
| Accrual.NothingDue | bot.js:147 | with no positive reward due, nothing is booked and no position changes |
| Accrual.AccrueIdempotent | bot.js:136-164 | compounding again at the same `now` books 0 and changes nothing |
| Accrual.RewardSign | bot.js:140-144 | with non-negative amount and rate, the reward has the sign of the elapsed time |
| Accrual.ClockBehindChangesNothing | bot.js:140-147 | a `now` at or before every lastCompound books 0 and changes nothing |
| Accrual.OneYearAtTenPercent | bot.js:144-149 | 5 at 10% for 8760 hours earns 0.5 and grows to 5.5 |
| Accrual.CompoundAll | bot.js:136-163 | the compounding loop computes the compounded positions and the total of the applied rewards |
| Reallocation.ShouldMove | bot.js:174 | definition; no contract of its own: another pool, and the optimal rate exceeds the position's by more than 2 |
| Reallocation.Move | bot.js:172-179 | a position moves exactly when it is in another pool and the optimal pool's rate exceeds its own by strictly more than 2; the new pool is the optimal one; amount, earned, shares, startApy, startTime and lastCompound are unchanged |
| Reallocation.MovedToTarget | bot.js:174-177 | a moved position takes the optimal pool's id, name and rate, and the gain exceeds 2 |
| Reallocation.ReallocateAll | bot.js:172-180 | every position is reallocated independently, in order |
| Reallocation.MovedCount | bot.js:178 | the count of moves never exceeds the number of positions |
| Reallocation.MovedCountZero | bot.js:178-186 | the count is 0 exactly when no position qualifies |
| Reallocation.NoMoveReported | bot.js:178-186 | the count is 0 exactly when reallocation leaves the positions unchanged |
| Reallocation.ReallocateKeepsLinks | bot.js:174-177 | reallocation keeps the user linked to its positions |
| Reallocation.MoveAll | bot.js:166-186 | the reallocation loop computes the reallocated positions and the number moved |
| Market.Variance | bot.js:576 | a draw in [0, 1) gives a variance in [-0.25, 0.25) |
| Market.DriftApy | bot.js:577 | the drifted rate lies in [5, 20], equals apy + variance when that is in the band, and moves no further than the variance from an in-band rate |
| Market.DriftStepBound | bot.js:576-577 | one drift step from an in-band rate moves it by at most 0.25 |
| Market.RatesDrifted | bot.js:575-578 | definition; no contract of its own: the same keys, and every pool in key order has its rate replaced by its clamped drift for its draw |
| Market.DriftedPools | bot.js:575-578 | after the drift loop every pool's rate is in [5, 20]; name, tvl and active are untouched; an in-band rate moved by at most 0.25 |
| Accounts.NewUser | bot.js:70-80 | a new user has zero balance and totals, no positions, is linked and solvent |
| Accounts.OpenStake | bot.js:92-103 | definition; no contract of its own: the new position record, with earned 0, shares equal to the amount and both rates equal to the pool's |
| Accounts.Staked | bot.js:106-107 | definition; no contract of its own: totalStaked grows by the amount and the id is appended to activeStakes |
| Accounts.AddStakeKeepsLinks | bot.js:92-107 | a new position has amount = shares = the amount, earned 0, startApy = currentApy = the pool's rate; appending it and its id keeps the user linked |
| Accounts.DebitKeepsSolvent | bot.js:292-301 | debiting an amount the balance covers keeps the user solvent |
| Accounts.WithdrawEarnings | bot.js:430-432 | definition; no contract of its own: balance grows by totalEarned, which becomes 0 |
| Accounts.WithdrawEverything | bot.js:442-446 | definition; no contract of its own: balance grows by totalStaked plus totalEarned; both become 0 and activeStakes is emptied |
| Accounts.ResetEarned | bot.js:435 | every position keeps everything except earned, which becomes 0 |
| Accounts.ResetEarnedSum | bot.js:431-435 | after the reset, the positions' earnings sum to 0 |
| Accounts.EarningsWithdrawalKeepsInvariant | bot.js:429-435 | option 1 pays exactly the positions' earnings, keeps totalStaked and activeStakes, and keeps the user linked and solvent |
| Accounts.FullWithdrawalKeepsInvariant | bot.js:441-447 | option 2 pays totalStaked plus the positions' earnings, zeroes both totals, and leaves the user linked to no positions and solvent |
| Accounts.ClearEarned | bot.js:435 | the loop zeroing earned computes the reset positions |
| Stats.SumStaked | bot.js:463 | definition; no contract of its own: the sum of the listed users' totalStaked |
| Stats.SumEarnedOf | bot.js:464 | the earnings total is non-negative when every user's is |
| Stats.ActiveCount | bot.js:465 | the number of active pools is 0 exactly when none is active |
| Stats.ActiveApySum | bot.js:465 | definition; no contract of its own: the sum of the active pools' rates in key order, the numerator of the average |
| Stats.ActiveApySumBounds | bot.js:465 | with active rates in [5, 20], their sum lies between 5 and 20 times their number |
| Stats.AverageApy | bot.js:465 | the average is undefined (the 0 / 0) exactly when no pool is active; otherwise it times the count is the sum |
| Stats.AverageWithinBand | bot.js:465 | with active rates in [5, 20], the average lies in [5, 20] |
| Stats.NotifyList | bot.js:585-589 | a user is notified exactly when it is listed and its totalEarned exceeds 0.001 |
| Bot.AmountInRange | bot.js:284-286 | definition; no contract of its own: the amount parses and lies in [minStake, maxStake] |
| Bot.Compounded | bot.js:136-164 | definition; no contract of its own: the users and positions maps after `autoCompoundRewards`: the user's positions compounded and its totalEarned raised by the total applied, everything else unchanged |
| Bot.Cycled | bot.js:561-567 | definition; no contract of its own: user `c`'s record and positions after one pass of the hourly loop body, compounded and then reallocated towards the pool optimal at the start |
| Bot.UserCycled | bot.js:561-567 | definition; no contract of its own: the whole users and positions maps after one pass of the hourly loop body for `c` |
| Bot.CompoundThenReallocate | bot.js:561-567 | compounding a user and then reallocating its positions is one pass of the hourly loop body |
| Bot.CycleStep | bot.js:560-571 | handling one more, not yet handled user extends the handled prefix and leaves earlier users' outcomes and unhandled users alone |
| Bot.CycledAll | bot.js:560-571 | once every user of the enumeration is handled, every user is cycled |
| Bot.CompoundTwice | bot.js:136-164 | two compoundings of the same user at the same `now`: the second books 0 and changes no map |
| Bot.ListedEarnedNonNeg | bot.js:464 | in a valid ledger every listed user's totalEarned is non-negative |
| Bot.Ledger.Load | bot.js:46-61 | the loaded maps; an empty pool map is replaced by the five default pools in their order |
| Bot.Ledger.GetUser | bot.js:64-66 | the user record when registered, `None` (null) otherwise |
| Bot.Ledger.GetUserStakes | bot.js:85-87 | the positions of a registered user carry exactly its activeStakes ids and its totalEarned; an unknown user has none |
| Bot.Ledger.CreateUser | bot.js:68-83 | the new record is stored under its id and nothing else changes; the ledger stays valid |
| Bot.Ledger.Start | bot.js:213-221 | an existing user is returned unchanged, an unknown one is created |
| Bot.Ledger.AddStake | bot.js:89-113 | exactly one position, built from the pool's name and rate, is appended; totalStaked grows by the amount and the id is appended to activeStakes |
| Bot.Ledger.StakeCommand | bot.js:248-301 | refused with no state change exactly when the user is unknown, the amount is NaN or outside [min, max], exceeds the balance, or no pool is active (each reason exactly in its case); otherwise one position is opened in the optimal pool and the balance is debited, keeping the ledger valid and solvent |
| Bot.Ledger.OpenPosition | bot.js:298-301 | addStake followed by the debit of the amount from the balance |
| Bot.Ledger.AutoCompoundRewards | bot.js:136-164 | returns the total applied; every position of the user is compounded and totalEarned grows by the total; the rest is unchanged and the ledger stays valid |
| Bot.Ledger.ReallocateStakes | bot.js:166-187 | `None` exactly when no pool is active, then no change; otherwise returns the number of positions moved and reallocates the user's positions; users and pools are unchanged |
| Bot.Ledger.OpenWithdraw | bot.js:388-404 | an unknown user changes nothing; a known one is compounded and is offered the options exactly when it holds positions |
| Bot.Ledger.WithdrawEarningsOption | bot.js:429-435 | option 1: pays the positions' earnings into the balance, zeroes totalEarned and every position's earned |
| Bot.Ledger.WithdrawEverythingOption | bot.js:441-447 | option 2: pays totalStaked plus the earnings into the balance, zeroes both totals, clears activeStakes and the positions |
| Bot.Ledger.Withdraw | bot.js:427-455 | option 1 and option 2 as above; any other reply changes nothing |
| Bot.Ledger.DriftRates | bot.js:574-578 | every pool's rate is replaced by its clamped drift for its random draw; users and positions are unchanged |
| Bot.Ledger.CycleUser | bot.js:561-571 | one loop pass for a user: compounded and reallocated when a pool is active; compounded only, and reported as failed, otherwise |
| Bot.Ledger.CycleUsers | bot.js:560-571 | completes exactly when there are no users or some pool is active, and then every user is compounded and reallocated towards the pool optimal at the start; otherwise only the first user is compounded |
| Bot.Ledger.HourlyCycle | bot.js:558-581 | as the user loop, followed on completion by the drift of every pool's rate; on the exception the pools are unchanged |
| Bot.Ledger.GetStatistics | bot.js:459-465 | the user count is the number of users, the earnings total is non-negative, the average rate is undefined exactly when no pool is active and lies in [5, 20] when all rates do |

## Left out

- Telegram I/O: message texts, number formatting, keyboards and the "Back to Menu" reply. The back reply changes nothing, as a NaN amount or an unknown option does.
- The portfolio handler: its ledger effect is one `autoCompoundRewards` call, modelled as `Bot.Ledger.AutoCompoundRewards`.
- Solana key generation and `/exportkey`: keys are opaque strings given to `CreateUser`.
- Persistence: `loadDB`/`saveDB` and the files. `Load` takes the loaded maps, which must already satisfy the ledger invariant.
- Uncaught exceptions: no code catches the TypeError of `scored[0].id` (bot.js:133) when no pool is active. Thrown from the hourly `setInterval` callback (bot.js:558), it is an uncaught exception that ends the Node process; the model stops the cycle at that point, with `HourlyCycle` returning `false`, but does not model the end of the process. Thrown from the stake reply handler, a `bot.once('message', …)` listener (bot.js:276) run by the Telegram library's polling loop, which is not part of this model, it is not caught by bot.js and no stake is opened; `StakeCommand` returns `NoActivePool` with no state change, and what the library then does with the error is not modelled.
- Timers: the `setInterval` scheduling, the interval length and overlapping runs. One hourly body is `HourlyCycle`; the daily sweep is only its filter, `NotifyList`. The console logs and the rebalance alert messages of the hourly loop are not modelled.
- IEEE floating point: numbers are reals. Rounding, Infinity and NaN arithmetic are absent. A NaN `minStake` or `maxStake` from the environment, which would make every comparison false, is not modelled; the bounds are reals.
- Time: `Date.now()` is one `now` per operation. `addStake` reads the clock three times (id, startTime, lastCompound), and the model uses one instant for all three.
- Key order: `Object.keys` lists integer-like keys first. The model takes the pool order as the ledger's `poolOrder` and the user order as a parameter, without deriving either from the keys.
- Withdrawal option 1 for a user with no position list throws after zeroing totalEarned. Under the invariant that totalEarned is already 0, so the model leaves the map unchanged and reports a payment of 0, but it does not model the missing reply.
- Bot.Ledger.CreateUser: requires that the user is not registered. Its only caller, `/start`, checks this, so the overwrite of an existing record is not modelled.
- Accrual.ClockBehindChangesNothing: requires non-negative amounts and rates. With a negative accepted stake the reward of a backwards clock can be positive.
- Scoring.OptimalPool: proves that the choice is an active pool of maximal score and that the throw happens exactly when no pool is active. Which of several equal-scoring pools the stable sort picks is not stated.
