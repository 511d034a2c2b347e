# Verified model of the mining network's server

Dafny proofs about the server's algorithms and state machines: the mining engine with its block and reward
settlement, offline credit, the content and genesis graphs, the credit economy, event delivery, and the runtime log
with its rate limiters. One module per component. Objects that the server updates in place are classes whose methods
are proved against a specification function; what the server promises is then proved about those functions, for all
inputs and over all runs.

`dafny verify dfyconfig.toml` checks everything.

## What the proofs show about the code

Most promises hold as stated. These hold only under a condition, which is proved to be exact or shown by a concrete
input:

- **Exact settlement.** Every settled block credits exactly the work it required if and only if no carried-over
  residual exceeds the requirement of the block it was carried into (`MiningService.SettlementExactness`). `add_work`
  finalizes at most one block per call, so a large tick can break the condition. Each single block then settles its
  requirement plus its own excess less that of the block before (`OverCarry.EachBlockSettles`):
  `OverCarry.OverCarryRun` is a run in which four blocks that require one unit each settle 1, 2, 1 and 0, the last one
  without anybody to pay. Over every run no work is lost (`MiningService.RunConservesWork`), and settled contributions
  cover all finalized requirements together (`OverCarry.SettledCoversRequired`).
- **Several services on one store** lose no work either (`SharedStore.ServicesConserveWork`), but only the service that
  completes a block settles it, for the players in its own buckets. What other services had credited to that block is
  never paid (`SharedStore.StrandedForever`, `SharedStore.FinisherTakesAll`).
- **Repairing rounded rewards.** Shares have 28 digits before they are rounded half up. The repair conserves the pool and
  the order of players for every reward, whatever the last digits do. One pass takes at most half the players, and that
  bound is reached at ties (`RewardSettlement.TiesLeaveHalf`): 121 units for contributions of 11, 11, 41 and 179 have
  exact shares that all end in a half and would be rounded up, but are rounded down.
- **The offline cap** cuts each window by itself, not the credit of a day (`OfflineCredit.CapIsPerWindow`).
- **A pause** takes effect at once, but holds through later events only once a tick has seen it
  (`OperationEvents.RestsUntilToldToRun`): an event takes over the state of the last tick, so a hardware change between
  the pause and the next tick lets the operation run again (`OperationEvents.UnseenPauseEnds`, and exactly when in
  `OperationEvents.PauseHoldsExactly`).
- **Splitting a tick** leaves the operation in the same state but loses up to one second of work, because every piece
  is rounded down to whole seconds. `MiningOperation.LostSeconds` states exactly when, `MiningOperation.TicksLose` how
  much any sequence of ticks loses.
- **Pool shares** are divided with 28 significant digits, and rounded down. Three equal members of a reward of 3 credits
  get 0.999999 each and all three bonus units (`PoolShares.ThirdsNeedEveryBonus`), so the remainder can be as large as
  the number of members; it stays below if any exact share has a fraction that 28 digits can show
  (`PoolShares.RemainderBelowMembers`). One bonus unit each suffices for every reward below 666 * 10^18 credits; for any
  reward the shares are exact if and only if the remainder is between zero and the number of members
  (`PoolShares.ShareOutIsExact`), which a reward of 28 digits can violate (`PoolShares.HugeRewardOverpays`).
- **NPC restocking** divides in the same way: at 3 units a day, 28800 seconds bring no unit, although 28800 / 86400 * 3
  is 1 (`StockRestock.ThirdOfADayBringsNothing`). Restocking is therefore proved against a bound, and against the exact
  floor for whole days (`StockRestock.WholeDaysRestock`).
- **Reading the NPC catalogue** locks no row, and can put units back in stock that were sold between its two
  statements. The stock stays between zero and the inventory under every interleaving
  (`NpcStock.InterleavedStockInBounds`), but sales stay within inventory and restocking under every interleaving if and
  only if the item is never restocked (`NpcStock.SalesBoundedExactlyWithoutRestock`).
- **Twice the limit per window** does not hold for the persisted rate limiter unless the limit is one request
  (`RateLimiter.TwiceTheLimitHoldsOnlyForOne`). PostgreSQL rounds `EXTRACT(EPOCH ...)::INT` to the nearest second, so a
  window can be replaced half a second early and three windows can touch an interval of window length. What does hold
  is `3 * max - 1` per window length, and `2 * max - 1` per window length less half a second.
- **Replaying the runtime log** restores exactly the running operations if and only if their hashrates have at most
  six decimals (`RuntimeLog.ReplayRestoresOperations`): the live service keeps the requested hashrate, the log column
  rounds it. Logs alternate start and stop over all runs with restarts if and only if hashrates do not round to zero
  (`RuntimeLog.AlternationNeedsStorableHashrate`).
- **Reconnecting event readers** have received every matching event up to their cursor if and only if at no poll all
  matches were out of reach, that is more than `4 * limit` positions behind the cursor or published during the poll
  (`NetworkStream.ClientReceivesOnce`). Backlogs of at most `4 * limit` events, with nothing published during a poll,
  guarantee it for whole runs (`NetworkStream.ShortBacklogsComplete`); a longer backlog can lose an event
  (`NetworkStream.LongBacklogSkips`).
- **Expired listings** keep their items for ever: items are conserved, but neither seller nor buyer can take them out
  (`Economy.ClosedListingsAreFrozen`).
- **The Merkle root** binds the list of players only because player ids are distinct
  (`Genesis.RepeatedPlayerKeepsRoot`).

## Conventions

- Amounts count units of 0.000001, as the database and the quantized values do. Where a quotient is rounded to units, in
  block rewards, pool shares, the owner's fee and restocking, it is computed with 28 significant digits as the `Decimal`
  context does (`DecimalContext`). Elsewhere values that the code leaves unrounded, such as hashrates and the difficulty
  ratio, are exact fractions.
- `ROUND_HALF_UP`, `ROUND_FLOOR` and the default half-even are separate functions; PostgreSQL's `NUMERIC` and `INT`
  casts round half away from zero.
- Times are integer microseconds. `int(total_seconds())` of a positive span is the floor of its seconds.
- A committed SQL transaction is one atomic step, a failed one leaves nothing behind. Where a request consists of
  several transactions or reads without locking (profile reads, polls of the event stream, catalogue reads), its steps
  interleave with those of others.
- Dictionaries are maps. Their iteration order is left open wherever a result could depend on it.
- SHA-256 digests and Ed25519 signatures are free constructors: different inputs, different digests.
- Clocks, the active reward and difficulty events, and the success of database writes are inputs. Player ids are
  compared as strings in canonical form; an empty player id stands for none.

## Model

| member | source | states |
|---|---|---|
| Numbers.RoundHalfUp | server/domain/economy/reward_settlement.py:79-81 | the result is the nearest whole unit, ties away from zero |
| Numbers.RoundHalfEven | server/domain/pools/service.py:317 | the result is a nearest whole unit, and an even one for ties |
| Numbers.RoundFloor | server/domain/pools/service.py:318-321 | the result is the largest whole unit not above the value |
| DecimalContext.Round28Near | server/domain/pools/service.py:326 | a result kept with 28 digits differs from the exact one by at most half a unit of the last digit, at every magnitude |
| DecimalContext.Round28Monotone | server/domain/pools/service.py:326 | rounding to 28 digits keeps order, also across powers of ten |
| DecimalContext.FloorShareClose | server/domain/pools/service.py:326-330 | a quotient times an amount, rounded down, is below the exact share by less than one unit and above it by nothing, up to three halves of the last digit |
| DecimalContext.Round28Exact | server/domain/pools/service.py:317-321 | a decimal of at most 28 digits is kept as it is |
| DecimalContext.FloorShareExact | server/domain/pools/service.py:318-321 | a part that is a decimal, of an amount small enough for the product to have 28 digits, is rounded down exactly |
| RewardSettlement.RoundingDriftOne | server/domain/economy/reward_settlement.py:43-45 | a share with 28 digits, rounded half up, is within half a unit of the exact share, up to three halves of the last digit, and only positive results were rounded up |
| RewardSettlement.BlockRewardMonotone | server/domain/economy/reward_settlement.py:21-28 | the pool never shrinks when the requirement grows, and with a positive target it is at least the minimum |
| RewardSettlement.BlockRewardProportional | server/domain/economy/reward_settlement.py:21-28 | the pool is within half a unit of base * required / target, or of the minimum where that is larger; without a target it is the base reward |
| RewardSettlement.AllocatePlayerRewards | server/domain/economy/reward_settlement.py:30-77 | terminates for every non-negative pool and contributions, however many passes the repair takes; the rewards sum to exactly the pool, or to nothing without contributions, and nobody gets less than a contributor of lower rank, that is with less contribution, or with the same and the smaller id by code points |
| RewardSettlement.RoundShares | server/domain/economy/reward_settlement.py:40-45 | every player's share is its proportional part, computed with 28 digits and rounded half up |
| RewardSettlement.OrderPlayers | server/domain/economy/reward_settlement.py:53-57 | lists each contributor once, by contribution, and those with equal contributions by the code points of their ids, whatever order the dictionary lists them in |
| RewardSettlement.RaiseLargest | server/domain/economy/reward_settlement.py:52-63 | terminates after the passes in which the largest contributors gain one unit each, until nothing is left over |
| RewardSettlement.LowerSmallest | server/domain/economy/reward_settlement.py:64-75 | terminates after the passes in which the smallest contributors with a positive share lose one unit each, until nothing is overspent; there is always somebody left to pay |
| RewardSettlement.OnePassSuffices | server/domain/economy/reward_settlement.py:47-75 | below 333 * 10^18 credits the residual is at most half the number of players upward, and at most half the players with a positive rounded share downward |
| RewardSettlement.TiesLeaveHalf | server/domain/economy/reward_settlement.py:43-48 | the upward bound is reached: 121 units for contributions of 11, 11, 41 and 179 leave two units over for four players, while exact shares would overspend two |
| RewardSettlement.AllocationConserves | server/domain/economy/reward_settlement.py:30-77 | for every pool the rewards sum to exactly it, or nothing is paid when there is no contribution |
| RewardSettlement.AllocationCloseToShare | server/domain/economy/reward_settlement.py:40-77 | below 333 * 10^18 credits every reward is within 1.5 units of the exact proportional share as long as 28 digits tell it from its neighbours, and in any case up to three halves of the last digit |
| RewardSettlement.AllocationKeepsOrder | server/domain/economy/reward_settlement.py:40-77 | for every pool, a strictly larger contribution never gets a smaller reward, after any number of repair passes |
| RewardSettlement.ZeroGetsNothing | server/domain/economy/reward_settlement.py:52-77 | below 333 * 10^18 credits a player without contribution is not rewarded: the contributors alone absorb every left-over unit |
| RewardSettlement.EqualContributionsById | server/domain/economy/reward_settlement.py:53-75 | for every pool, of two equal contributors the one whose id is smaller by code points never gets more |
| RewardSettlement.AllocationFollowsRank | server/domain/economy/reward_settlement.py:53-75 | so rewards follow the rank by contribution and then id, for every pool |
| RewardSettlement.WhoGainsAUnit | server/domain/economy/reward_settlement.py:52-63 | below 333 * 10^18 credits, when rounding leaves units over, a player gets the rounded share and one unit more exactly if fewer players rank above than units are left |
| RewardSettlement.WhoLosesAUnit | server/domain/economy/reward_settlement.py:64-75 | below 333 * 10^18 credits, when rounding overspends, a player loses one unit exactly if the rounded share is positive and fewer players with a positive share rank below than units are overspent |
| RewardSettlement.TheSmallerIdPays | server/domain/economy/reward_settlement.py:64-75 | one unit for contributions {"a": 1, "b": 1} goes to "b": both shares are rounded up and the smaller id pays first |
| PoolShares.CalculateRewardShares | server/domain/pools/service.py:297-348 | accepts exactly the valid inputs, and names the error of any other: a negative reward, then a fee outside 0 to 10, then a negative hashrate; the shares are those of the members in order of id, rounded down from 28-digit quotients, the first ones with one bonus unit; owner fee and final shares sum to exactly the quantized reward below 666 * 10^18 credits, and for any reward if and only if the remainder is between zero and the number of members |
| PoolShares.FeeBounds | server/domain/pools/service.py:317-322 | the owner fee is between zero and the quantized reward |
| PoolShares.QuantizedNearest | server/domain/pools/service.py:317 | the quantized reward is the nearest whole unit, the even one for ties |
| PoolShares.FeeFollowsPercentage | server/domain/pools/service.py:318-321 | for any fee the owner gets that percentage of the reward rounded down, up to three halves of the last of 28 digits |
| PoolShares.FeeIsExactFloor | server/domain/pools/service.py:318-321 | a fee in hundredths of a percent, as the column keeps it, is that part of the reward rounded down exactly, for rewards below 10^19 credits |
| PoolShares.RemainderBounds | server/domain/pools/service.py:324-333 | what rounding down leaves over is at least zero and at most the number of members, so one bonus unit each suffices |
| PoolShares.RemainderBelowMembers | server/domain/pools/service.py:324-333 | the remainder reaches the number of members only if every exact share is a whole number: with any fraction among them it stays below, as long as 28 digits tell the products of reward and hashrates apart |
| PoolShares.ShareOutIsExact | server/domain/pools/service.py:332-347 | the final shares sum to the whole if and only if the remainder is between zero and the number of members |
| PoolShares.ThirdsNeedEveryBonus | server/domain/pools/service.py:326-337 | for three equal members and 3 credits every share is one unit short and every member gets a bonus unit |
| PoolShares.HugeRewardOverpays | server/domain/pools/service.py:326-347 | for six equal members and a reward of 28 digits the shares exceed the reward by four units |
| PoolShares.FinalShareClose | server/domain/pools/service.py:324-347 | in every distribution, whoever gets a bonus, every final share is within one unit of the exact share as long as 28 digits tell it from its neighbours, and in any case up to three halves of the last digit |
| PoolShares.GrossSharesKeepOrder | server/domain/pools/service.py:324-330 | more hashrate never means a smaller share before the bonus |
| Difficulty.ComputeNextRequiredWork | server/domain/difficulty/service.py:28-64 | the next requirement is at least the configured minimum, for every history and every event modifier; what it is otherwise `Difficulty.NextIsProposed` states |
| Difficulty.NextIsBounded | server/domain/difficulty/service.py:28-64 | without an event, for every history, the next requirement is within the configured percentages of the current one, up to rounding, or raised to the minimum |
| Difficulty.NextIsProposed | server/domain/difficulty/service.py:28-64 | with n counting blocks that took a positive time, the next requirement is the current one scaled by target * (n - 1) over that time, or by 1 + up or 1 - down beyond the caps, rounded half up, or divided by the factor of an active event and rounded half even, and at least the minimum; otherwise it stays, raised to the minimum |
| Difficulty.OnTargetStays | server/domain/difficulty/service.py:47-64 | if the blocks took exactly target * (n - 1), the requirement stays, raised to the minimum |
| Difficulty.BetweenCapsIsProportional | server/domain/difficulty/service.py:47-64 | between the caps next * taken differs from current * target * (n - 1) by at most half of the time taken, unless raised to the minimum |
| Difficulty.SlowerHistoryNeverHarder | server/domain/difficulty/service.py:37-64 | of two histories of equal length, the one whose window took longer never asks for more work |
| Difficulty.MultiplierBounds | server/domain/difficulty/service.py:47-60 | the multiplier lies between 1 - down and 1 + up |
| Difficulty.MultiplierMonotone | server/domain/difficulty/service.py:47-60 | the multiplier does not grow with the elapsed time, across its three branches |
| BlockchainStore.InMemoryBlockchainStateStore.AddWork | server/domain/blockchain/store.py:54-95 | the whole new state and the outcome of one call, finalizing at most one block |
| BlockchainStore.WorkConserved | server/domain/blockchain/store.py:54-95 | over every sequence of calls, by any number of services, block numbers are 1..k once each, records never change, and requirements met plus work in progress equal all work added |
| BlockchainStore.RequirementsStayPositive | server/domain/blockchain/store.py:66-77 | from a positive requirement all later ones are positive, every record met its requirement, and work in progress is not negative |
| BlockLife.EveryBlocksLife | server/domain/mining/service.py:251-299 | over every run the first block requires what the chain was created with, and each finalized block belongs to one tick: it is settled at its end, its pool is the reward for its own requirement times the reward event of that tick, to the nearest unit, and the next block requires what the history up to it gives under the difficulty event of that tick |
| BlockLife.OutcomeReports | server/domain/blockchain/store.py:54-95 | the outcome of a call names the active block before it, and a finalized number exactly if that block was appended |
| BlockLife.TickReports | server/domain/mining/service.py:213-339 | the result of a tick tells by how much the work of the chain grew and which block was finalized |
| BlockchainStore.DatabaseRefinesMemory | server/domain/blockchain/store.py:133-219 | the database transaction (conditional insert, ordered select, update) takes the same step as the in-memory store |
| BlockchainStore.DatabaseRunRefines | server/domain/blockchain/store.py:133-219 | so does every run |
| IntervalSlicer.SliceProgressionIntervals | server/domain/mining/interval_slicer.py:37-96 | the loop returns the slices that the lemmas below describe; what they contribute second by second `IntervalSlicer.SlicesAreSecondBySecond` states |
| IntervalSlicer.SegmentsWork | server/domain/mining/interval_slicer.py:64-116 | kept slices contribute the rate of each piece times its whole seconds; dropping short slices loses nothing |
| IntervalSlicer.SlicesTile | server/domain/mining/interval_slicer.py:51-96 | for timestamps whole seconds apart the slices tile the window in order without gap or overlap |
| IntervalSlicer.GoverningAgrees | server/domain/mining/interval_slicer.py:51-62 | filtering and sorting the boundaries does not change which one governs an instant: the latest, and of several at one instant the one given last |
| IntervalSlicer.SlicesRefineSimulation | server/domain/mining/interval_slicer.py:37-116 | for timestamps whole seconds apart the contributions sum to a per-second simulation of the governing rate |
| IntervalSlicer.RateAdds | server/domain/mining/interval_slicer.py:107-109 | a second under a paused boundary adds nothing; under any other it adds the unit nearest to base times multiplier, ties away from zero, and no other amount |
| IntervalSlicer.SlicesAreSecondBySecond | server/domain/mining/interval_slicer.py:37-116 | for timestamps whole seconds apart the contributions sum to what the seconds of the window add, each under the boundary that governs it, with the amounts written out |
| IntervalSlicer.GoverningIsLatest | server/domain/mining/interval_slicer.py:51-62 | the governing boundary is the latest in force, and of several at one instant the one given last |
| IntervalSlicer.ValueOfText | server/domain/mining/interval_slicer.py:108 | a multiplier in decimal text has the value that its digits say |
| IntervalSlicer.DigitsRoundTrip | server/domain/mining/interval_slicer.py:108 | every number of that many digits is read back from its digits |
| MiningOperation.TickOperation | server/domain/mining/service.py:226-249 | the operation after a tick and the work it contributes |
| MiningOperation.ContributionIsWork | server/domain/mining/service.py:226-243 | a tick contributes the rates of its sorted boundaries times the whole seconds they were in force |
| MiningOperation.TickSplit | server/domain/mining/service.py:226-249 | ticking at t1 and t2 reaches the state of one tick at t2; the work falls short by zero or one second at the rate in force at t1 |
| MiningOperation.TicksLose | server/domain/mining/service.py:226-249 | any number of ticks contributes the work of one tick less zero or one second at the rate in force for each tick before the last |
| MiningOperation.LostSeconds | server/domain/mining/interval_slicer.py:107-109 | the second is lost exactly if the fractions of a second on both sides of the cut add up to one second or more |
| MiningOperation.AlignedSplit | server/domain/mining/service.py:226-249 | for timestamps whole seconds apart nothing is lost |
| MiningOperation.TicksAsOne | server/domain/mining/service.py:226-249 | any number of ticks ends in the state of one tick, with the same work for timestamps whole seconds apart |
| MiningOperation.TickIgnoresArrivalOrder | server/domain/mining/service.py:41-42 | work and state after a tick do not depend on the order in which boundaries were appended |
| MiningOperation.TickNonNegative | server/domain/mining/service.py:226-249 | with non-negative hashrate and multipliers no tick contributes negative work |
| OperationEvents.EventTakesOver | server/domain/mining/service.py:131-165 | from its time on an event decides the work: none after a pause, base times the unchanged multiplier after a resumption, what a state change carries with the rest unchanged, and the state of the last tick after any other event; the work before it stays as it was |
| OperationEvents.PausedContributesNothing | server/domain/mining/service.py:226-249 | a paused operation contributes nothing in a tick without a boundary that runs it, and stays paused |
| OperationEvents.RestsUntilToldToRun | server/domain/mining/service.py:131-249 | once a tick has seen a pause, any ticks and events contribute nothing until an event tells the operation to run |
| OperationEvents.PauseAndResume | server/domain/mining/service.py:131-249 | between a pause and a resumption nothing is contributed, and after it the work goes on at the same multiplier |
| OperationEvents.UnseenPauseEnds | server/domain/mining/service.py:136-137 | a pause that no tick has seen ends with the next event that does not itself pause |
| OperationEvents.PauseHoldsExactly | server/domain/mining/service.py:131-165 | without a tick in between, a pause holds through the next event exactly if that event pauses, or the operation was paused before and the event does not run it; after a tick, exactly if the event does not run it |
| OperationEvents.FreshOperationWorks | server/domain/mining/service.py:106-120 | a newly registered operation works at its base hashrate from its start on |
| OperationEvents.LatestWins | server/domain/mining/service.py:41-42 | after a tick the state is that of the latest boundary, of several at one instant a paused one, and of those the one with the greatest multiplier text |
| MiningService.MiningSimulationService.RegisterOperation | server/domain/mining/service.py:106-120 | the whole new state after registering |
| MiningService.MiningSimulationService.StopOperation | server/domain/mining/service.py:125-129 | the whole new state after stopping, and whether there was such an operation |
| MiningService.MiningSimulationService.ApplyBoundaryEvent | server/domain/mining/service.py:131-165 | the whole new state after a boundary event, and whether there was such an operation |
| MiningService.MiningSimulationService.AddPlayerContribution | server/domain/mining/service.py:341-345 | the bucket grows by positive amounts only |
| MiningService.MiningSimulationService.ProcessTick | server/domain/mining/service.py:213-339 | the whole new state and result of a tick, with the ledger in step with the settlements; whom it credits `PlayerWork.EachPlayersWork` states |
| MiningService.MiningSimulationService.AbsorbWork | server/domain/mining/service.py:251-339 | the locked part: add work, credit it to one or two blocks, settle a finalized block |
| MiningService.MiningSimulationService.Settle | server/domain/mining/service.py:274-299 | removes the bucket and posts pool and player rewards for exactly that block |
| MiningService.AbsorbTotals | server/domain/mining/service.py:251-277 | a completed block settles what was pending plus what fitted, and the rest is pending for the next block |
| MiningService.RunKeepsInv | server/domain/mining/service.py:213-345 | in every reachable state only the active block has a bucket, settled plus pending equals all accounted work, pending never exceeds the accumulated work, settlement i belongs to block i and pays a correct allocation |
| MiningService.RunConservesWork | server/domain/mining/service.py:213-345 | settled plus pending contributions, and likewise requirements met plus work in progress, equal the work of all ticks of the run |
| PlayerWork.RunAsRegistered | server/domain/mining/service.py:106-129 | over every run the operations are those that the actions registered and did not stop, each for the player of its last registration, or its own id where none was given |
| PlayerWork.EachPlayersWork | server/domain/mining/service.py:251-272 | over every run, for each player, what all settlements credit plus what is pending is exactly the work of those ticks whose operation was registered for that player |
| PlayerWork.StrangersGetNothing | server/domain/mining/service.py:251-299 | a player for whom no operation was ever registered is in no settlement, neither credited nor paid |
| PlayerWork.LedgerPaysEach | server/domain/economy/ledger.py:70-87 | each player is paid for a block exactly the reward that its settlement allocates to that player |
| PlayerWork.LedgerNamesOnlyRewarded | server/domain/economy/ledger.py:70-87 | a player whom no settlement rewards is in no entry of the ledger |
| MiningService.SettlementExactness | server/domain/mining/service.py:251-277 | all settled blocks credit exactly what they required if and only if no residual exceeded the requirement of the block it was carried into |
| MiningService.CompletionRestoresCredit | server/domain/mining/service.py:253-272 | after a finalization that began with accumulated at most required, pending equals accumulated |
| OverCarry.SettledCoversRequired | server/domain/mining/service.py:251-277 | over every run settled contributions cover all finalized requirements together |
| OverCarry.EachBlockSettles | server/domain/mining/service.py:251-277 | over every run, each block settles its requirement plus the carried-over work beyond it, less the same of the block before; it settles exactly its requirement if and only if the two are equal |
| OverCarry.OverCarryRun | server/domain/mining/service.py:251-277 | a run with an over-large residual in which blocks that each require 1 settle 1, 2, 1 and 0 |
| SharedStore.ServicesConserveWork | server/domain/mining/service.py:251-277 | under every interleaving of several services on one store, also between reading the active block and adding work, what all of them have settled and hold is all work of the chain |
| SharedStore.StrandedForever | server/domain/mining/service.py:274-277 | once a block is finalized, by whichever service, no service settles it again, and what another service credited to it stays in its bucket for ever |
| SharedStore.FinisherTakesAll | server/domain/mining/service.py:274-299 | two units through one service and the last one through another: the block is settled for the player of the second alone |
| SharedStore.UninterruptedTick | server/domain/mining/service.py:251-299 | a service that is not interrupted within a tick does what a service of its own does |
| MiningService.SettlementPaysPool | server/domain/mining/service.py:278-299 | a settled block pays its whole pool if anybody contributed, and nothing otherwise |
| MiningService.LedgerPays | server/domain/economy/ledger.py:70-87 | the player entries in the ledger for a block sum to the rewards of its settlement; blocks without a settlement are paid nothing |
| MiningService.LedgerBalances | server/domain/mining/service.py:278-299 | over every run, the player entries of each block sum to exactly the posted pool amount, or to zero for an empty bucket |
| MiningService.PoolRewardNonNegative | server/domain/events/service.py:401-416 | the pool after a non-negative reward multiplier is not negative |
| Ledger.NoOpLedgerPoster.PostBlockFinalization | server/domain/economy/ledger.py:51-68 | appends exactly one pool entry |
| Ledger.NoOpLedgerPoster.PostPlayerRewardEntries | server/domain/economy/ledger.py:70-87 | appends one entry for every rewarded player, each once, and changes nothing else |
| Ledger.PostsPaid | server/domain/economy/ledger.py:70-87 | a batch pays the sum of its rewards to its block and nothing to others |
| OfflineCredit.CapGrowsWithTier | server/domain/players/service.py:50-57 | a higher tier never has a lower cap |
| OfflineCredit.SimulatedWork | server/domain/mining/service.py:190-196 | simulated work is the hashrate times the whole seconds of the window |
| OfflineCredit.SimulationWellFormed | server/domain/mining/service.py:167-211 | credited plus cut-off equals simulated work, credit is between zero and the cap and reaches it when cut, and is at most hashrate times window |
| OfflineCredit.CapIsPerWindow | server/domain/mining/service.py:197-200 | every window is cut to the cap on its own: two profile reads within two seconds credit twice the cap |
| OfflineReads.UninterruptedRead | server/domain/players/service.py:149-198 | a profile read that nothing interrupts changes nothing less than a second after the marker; otherwise it moves the marker to its clock and, if there was work, records one window with rate times whole seconds, cut to the cap of the tier |
| OfflineReads.OfflineRateNearest | server/domain/mining/service.py:190-196 | offline work runs at the hashrate to the nearest unit, at nothing for a negative one |
| OfflineReads.CapOfPlayer | server/domain/players/service.py:50-57 | the cap is 1000 credits below 5 finalized blocks, 5000 below 20, and 10000 from then on |
| OfflineReads.CapDoubles | server/domain/players/service.py:50-57 | from tier 3 on every tier doubles the cap |
| OfflineCredit.PlayerRepository.UpdateEffectiveHashrateCache | server/domain/players/repository.py:202-301 | compare-and-set: marker and ledger change together, exactly if the marker is the expected one |
| OfflineCredit.PlayerRepository.CreateProfile | server/domain/players/repository.py:42-105 | sets the marker only where there is none |
| OfflineCredit.PrepareOk | server/domain/players/service.py:149-198 | what a profile request is about to commit starts at the marker it read and ends at its own clock, at least a second later |
| OfflineCredit.NoDoubleCredit | server/domain/players/service.py:149-198 | under every interleaving of profile requests, for any clocks, recorded windows are ordered and disjoint, the marker only moves forward, entries never change, and total credit is at most the maximum hashrate times the time passed |
| OfflineCredit.NoDoubleCreditFromStart | server/domain/players/repository.py:216-301 | the same from a player's first profile read on |
| OfflineCredit.LoserIsIgnored | server/domain/players/repository.py:227-230 | once a request has advanced a window, every other one computed from the same marker commits without effect, however late |
| ContentValidator.CycleSearch.Visit | server/domain/content/validator.py:95-109 | keeps the search state consistent, restores the stack, and terminates because unvisited nodes decrease |
| ContentValidator.CheckCircularDependencies | server/domain/content/validator.py:73-114 | on the pack itself: returns no error exactly if there is no cycle among the items, where a depends on b if b is a known id that the last item with id a names, stripped, as its unlock research or a prerequisite; every message spells out such a cycle; messages are sorted and distinct |
| ContentValidator.EdgeIsDependency | server/domain/content/validator.py:74-89 | the edges of the graph are exactly those dependencies |
| ContentValidator.CyclesOfThePack | server/domain/content/validator.py:73-114 | so its cycles are the cycles of the pack, and its messages spell them out |
| ContentValidator.MessageReads | server/domain/content/validator.py:99 | the message for a cycle of two items |
| Text.StripRemovesSurroundings | server/domain/content/validator.py:76 | stripping a text that has white space around it leaves exactly the text |
| ContentValidator.TopologicalExcludesCycles | server/domain/content/validator.py:91-114 | nodes finished in dependency order cannot lie on a cycle |
| ContentValidator.ClosingCycle | server/domain/content/validator.py:96-99 | the tail of the stack from the repeated node on is a cycle of graph edges |
| Genesis.ComputeMerkleRoot | server/domain/genesis/service.py:684-712 | terminates and returns the root of the padded tree over the leaves |
| Genesis.RootBinding | server/domain/genesis/service.py:703-712 | equal roots come from equal levels, of whatever lengths |
| Genesis.MerkleRootBinding | server/domain/genesis/service.py:684-712 | snapshot lists with distinct players and equal roots are equal entry for entry |
| Genesis.RepeatedPlayerKeepsRoot | server/domain/genesis/service.py:704-705 | with a repeated player the padding is ambiguous: two different lists have one root |
| GenesisInput.SmallTrees | server/domain/genesis/service.py:684-712 | the roots of one, two and three players, an odd digest paired with itself |
| GenesisInput.RootOfHalves | server/domain/genesis/service.py:703-712 | the root of a full tree is the pair of the roots of its halves, left before right |
| GenesisInput.EveryPlayerOnce | server/domain/genesis/service.py:635-682 | the genesis holds every player that was loaded, with the balance to the nearest unit and a tier of at least 1, in code-point order |
| GenesisInput.LoadOrderIsIrrelevant | server/domain/genesis/service.py:635-682 | with one entry for each player, the order of loading changes neither snapshots nor root, hash and signature |
| GenesisInput.ChainIdDependsOn | server/domain/genesis/service.py:78-88 | white space around the environment and the case of its letters do not change the chain id; another second of launch does |
| Genesis.GenesisService.CreateGenesisBlock | server/domain/genesis/service.py:105-160 | the whole new state or the error; a created genesis verifies |
| Genesis.GenesisService.AnnounceGenesis | server/domain/genesis/service.py:162-183 | the whole new state or the error; a verifying genesis still verifies |
| Genesis.GenesisService.RollbackGenesis | server/domain/genesis/service.py:210-231 | the whole new state or the error; a rolled back genesis no longer verifies |
| Genesis.GenesisService.VerifyGenesisSignature | server/domain/genesis/service.py:185-208 | decides whether the given record, or the current one, is not archived, matches the snapshots stored for it and is signed |
| Genesis.CurrentAlwaysVerifies | server/domain/genesis/service.py:105-231 | in every lifecycle the record that is not archived verifies |
| GenesisLifecycle.StageByHistory | server/domain/genesis/service.py:105-231 | over every history of requests the record is at the stage (missing, draft, announced, archived) that the requests say, and every request is answered by that stage |
| GenesisLifecycle.WhatIsRecorded | server/domain/genesis/service.py:162-231 | announcing and rolling back keep all that was signed and note time and stripped text; a refused request records nothing |
| Genesis.AnnouncedIsFinal | server/domain/genesis/service.py:162-231 | after announcement no action changes record or snapshots |
| Genesis.TamperingIsDetected | server/domain/genesis/service.py:185-208 | with a genuine signature, a record and snapshots verify if and only if every snapshot, chain id, creation time, root and hash are genuine and the record is not archived |
| Genesis.OtherKeysFail | server/domain/genesis/service.py:201-207 | a signature of another key never verifies |
| NpcStock.StockInBounds | server/domain/market/service.py:463-504 | with reads as single steps, in every reachable state the stock is between zero and the inventory, and restocked units are covered by rate times time |
| StockRestock.RestockIsFloor | server/domain/market/service.py:488-503 | the units that arrive are the rate times the days passed, rounded down, up to the last of 28 digits; with none the row stays, with any the clock moves to now and the stock rises to the inventory at most |
| StockRestock.WholeDaysRestock | server/domain/market/service.py:488-503 | after whole days exactly the daily units of each arrive |
| StockRestock.PartOfAUnitWaits | server/domain/market/service.py:491-492 | less than a unit does not move the clock |
| StockRestock.ThirdOfADayBringsNothing | server/domain/market/service.py:491 | at three units a day a third of a day brings none |
| NpcStock.SalesAreBounded | server/domain/market/service.py:140-154 | with reads as single steps, over every run units sold are at most inventory plus units restocked, and, as long as 28 digits suffice, at most the inventory plus floor(rate * elapsed / day) |
| NpcStock.InterleavedStockInBounds | server/domain/market/service.py:463-504 | under every interleaving of purchases and reads without lock the stock is between zero and the inventory |
| NpcStock.SalesBoundedExactlyWithoutRestock | server/domain/market/service.py:463-504 | units sold are at most the inventory plus floor(rate * elapsed / day) under every interleaving if and only if the item is never restocked |
| NpcStock.UninterruptedReads | server/domain/market/service.py:463-504 | a run whose reads are not interrupted goes through the same states as one whose reads are single steps |
| NpcStock.UnlockedReadForgetsSale | server/domain/market/service.py:471-503 | a run of five steps in which an inventory of 2 with one unit a day sells 4 units within one day |
| Economy.Database.ListEquipment | server/domain/marketplace/service.py:68-127 | the whole new state or the error of a listing |
| Economy.Database.UnlistEquipment | server/domain/marketplace/service.py:129-166 | the whole new state or the error of a withdrawal |
| Economy.Database.PurchaseEquipment | server/domain/marketplace/service.py:257-462 | the whole new state or the error of a trade; an expired listing is marked |
| Economy.Database.ExecutePurchase | server/domain/market/service.py:95-243 | the whole new state or the error of an NPC purchase; failures leave no restock behind |
| Economy.BalancesStayNonNegative | server/domain/market/service.py:135-138 | over every run no balance is negative, inventories are positive, listings offer between nothing and what was listed |
| Economy.TradeMovesCredits | server/domain/marketplace/service.py:311-429 | a trade takes the price from the buyer, gives the seller the price less the fee, touches nobody else, and changes total credits by exactly minus the fee |
| Economy.FeeWithinPrice | server/domain/marketplace/service.py:313-317 | the fee is five percent of the price to the nearest unit, and fee and proceeds are both non-negative |
| MarketplaceEffects.TradeSucceeds | server/domain/marketplace/service.py:257-330 | a trade succeeds exactly if the listing is active, not expired, of somebody else, holds the quantity, and the buyer can pay all of it |
| MarketplaceEffects.PurchaseSucceeds | server/domain/market/service.py:118-154 | an NPC purchase succeeds exactly if the item is unlocked for the player, paid for, and in stock after restocking |
| MarketplaceEffects.HoldingsOverRuns | server/domain/marketplace/service.py:95-429 | over every run, what a player holds of an item is what was held plus what that player bought and took back, less what that player listed and upgrades replaced |
| MarketplaceEffects.BalancesOverRuns | server/domain/marketplace/service.py:311-429 | over every run, a balance is what it was plus rewards and sales less the fee, minus what that player paid |
| MarketplaceEffects.NewListing | server/domain/marketplace/service.py:95-127 | a listing offers what was taken from the seller at the price to the nearest unit, for 30 days, and changes no other listing |
| MarketplaceEffects.ListingAfter | server/domain/marketplace/service.py:129-429 | no action changes whose listing it is, what it offers, its price or its expiry; what is left falls by what was sold; it closes exactly by being sold out, withdrawn by its seller, or found expired by a buyer |
| MarketplaceEffects.ListingOverRuns | server/domain/marketplace/service.py:257-429 | over every run what is left of a listing is what was left less what was traded out of it |
| MarketplaceEffects.InstalledAfter | server/domain/market/service.py:156-196 | only a tier upgrade changes a player, and installs what its buyer bought |
| MarketplaceEffects.FeeTiesToEven | server/domain/marketplace/service.py:313-317 | half units of the fee go to the even neighbour |
| Economy.MarketplaceConservesItems | server/domain/marketplace/service.py:95-429 | listing, unlisting and trading keep, for each item, inventories plus what listings not withdrawn still hold |
| Economy.ItemsConserved | server/domain/marketplace/service.py:95-429 | so does every run without NPC purchases |
| Economy.ItemsTracked | server/domain/market/service.py:162-196 | over every run, NPC purchases included, the total of an item grows by what was bought less the hardware rows that upgrades dropped |
| Economy.ClosedListingsAreFrozen | server/domain/marketplace/service.py:141-148 | a listing that is not active never changes again, so the items of an expired one stay in it |
| Economy.CreditsConserved | server/domain/market/service.py:198-243 | over every run credits in circulation are the initial ones plus rewards minus fees and NPC purchases |
| Economy.StockFollowsHistory | server/domain/market/service.py:140-154 | purchases and reads drive each stock row exactly as the histories of NpcStock do |
| Economy.StockRunFollowsHistory | server/domain/market/service.py:140-154 | over every run of the economy the stock row of an item is that of its stock history, and units bought are the units sold in it |
| Economy.StockStaysInBounds | server/domain/market/service.py:140-154 | over every run of the economy the stock is between zero and the inventory, and units bought are at most the inventory plus the units restocked |
| NetworkStream.InMemoryNetworkEventStream.Publish | server/domain/blockchain/network_stream.py:36-46 | appends one event with the next sequence number, which stays its position in the stream |
| NetworkStream.InMemoryNetworkEventStream.ListAfterSequence | server/domain/blockchain/network_stream.py:48-52 | the slice of the stream at the positions from the given sequence number on, at most `limit` long; fewer than `limit` events only if that is all there is behind the number |
| NetworkStream.DeliveredProperties | server/domain/blockchain/read_models.py:217-244 | a poll delivers matches behind the cursor in increasing order without leaving one out before the last, and delivers something if and only if a match lies at most 4 * limit positions behind the cursor |
| NetworkStream.ClientReceivesOnce | server/domain/blockchain/read_models.py:217-250 | over every run of publications and polls, also with publications inside a poll, received sequences are strictly increasing, and every match up to the cursor was received if and only if at no poll all matches were out of reach |
| NetworkStream.PollCompleteness | server/domain/blockchain/read_models.py:233-244 | one poll keeps a client complete if and only if there is no match behind the cursor, or one at most 4 * limit positions behind it when the poll began |
| NetworkStream.ShortBacklogNeverSkips | server/domain/blockchain/read_models.py:217-244 | an atomic poll with at most 4 * limit events behind the cursor never skips |
| NetworkStream.ShortBacklogsComplete | server/domain/blockchain/read_models.py:217-250 | if at every poll at most 4 * limit events follow the cursor and nothing is published during it, every matching event is delivered exactly once or still lies behind the cursor |
| NetworkDelivery.ChannelsByKind | server/domain/blockchain/read_models.py:218-231 | progress and finalizations are for the global channel, a reward is for its own player, everything else is for nobody |
| NetworkDelivery.NobodyReceivesForeignEvents | server/domain/blockchain/read_models.py:209-250 | over every run a subscriber to rewards receives only rewards of its own player, a subscriber to the global channel only progress and finalizations, and any other channel nothing |
| NetworkDelivery.PollFillsUp | server/domain/blockchain/read_models.py:217-233 | a poll delivers at most `limit` events, and fewer only if it delivers every match at most 4 * limit positions behind the cursor |
| NetworkDelivery.PollCursor | server/domain/blockchain/read_models.py:233-250 | the new cursor is the last event delivered, or the end of the stream as the second read saw it |
| NetworkStream.LongBacklogSkips | server/domain/blockchain/read_models.py:217-244 | with a longer backlog a matching event is lost |
| RateLimiter.SlidingWindow.Request | server/api/v1/blockchain.py:672-683 | the list kept in memory and the decision of one request |
| RateLimiter.SlidingWindowBound | server/api/v1/blockchain.py:672-683 | for every request sequence in time order, at most max are accepted in any half-open interval of window length |
| RateVerdicts.SlidingAcceptsExactly | server/api/v1/blockchain.py:672-683 | over every run a request is accepted exactly if fewer than max were accepted within the window before it |
| RateLimiter.FixedWindow.Request | server/api/v1/blockchain.py:263-315 | the stored row and the decision of one request |
| RateLimiter.HistoryMatchesRow | server/api/v1/blockchain.py:273-312 | the stored row is the last window of the history of accepted requests |
| RateLimiter.FixedWindowsOk | server/api/v1/blockchain.py:287-312 | every window accepts at most max requests and lasts at least its length less half a second |
| RateLimiter.FixedWindowBound | server/api/v1/blockchain.py:263-315 | at most 3 * max - 1 accepted requests in any interval of window length, and 2 * max - 1 in one half a second shorter |
| RateVerdicts.VerdictsAreHistory | server/api/v1/blockchain.py:263-315 | over every run the requests told to go on are exactly the accepted ones of the history of windows |
| RateVerdicts.VerdictBound | server/api/v1/blockchain.py:263-315 | so fewer than 3 * max requests are told to go on in any interval of window length, and fewer than 2 * max in one half a second shorter |
| RateVerdicts.RejectedOnlyAtLimit | server/api/v1/blockchain.py:296-299 | a rejected request finds max accepted ones within the window before it |
| RateVerdicts.RetryAfterIsExact | server/api/v1/blockchain.py:296-299 | the advised wait is between one second and the window; repeating the request after it succeeds, repeating it a second or more earlier is rejected |
| RateLimiter.BurstCount | server/api/v1/blockchain.py:273-298 | a run that reaches 3 * max - 1 within one window length |
| RateLimiter.TwiceTheLimitHoldsOnlyForOne | server/api/v1/blockchain.py:273-298 | at most 2 * max per window length holds for all runs if and only if max is one |
| RuntimeLog.RuntimeMiningService.RecoverRuntimeOperations | server/api/v1/blockchain.py:117-163 | replays the selected rows once, and does nothing afterwards |
| RuntimeLog.RuntimeMiningService.StartOperationIntent | server/api/v1/blockchain.py:503-562 | the whole new state and status of a start intent; nothing starts that could not be logged |
| RuntimeLog.RuntimeMiningService.StopOperationIntent | server/api/v1/blockchain.py:570-606 | the whole new state and status of a stop intent; nothing stops that could not be logged |
| OperationOwners.OneIntent | server/api/v1/blockchain.py:503-606 | in every reachable state, restarts included: an operation that disappears was stopped by its own player or lost by a restart because its hashrate rounds to zero; one that appears was started by its player at its hashrate; one that stays keeps both, up to rounding by a restart |
| OperationOwners.OwnerByHistory | server/api/v1/blockchain.py:503-606 | over every run with restarts an operation runs for exactly the player that its history of starts and stops says, if its accepted starts do not round to zero |
| OperationOwners.AnswerByHistory | server/api/v1/blockchain.py:503-606 | and every intent is answered by that player: already running, conflict, started, stopped, not found |
| OperationOwners.AcceptedIsLogged | server/api/v1/blockchain.py:527-599 | the log grows by one row naming the intent exactly if it was accepted |
| OperationOwners.SelectedInOrder | server/api/v1/blockchain.py:117-163 | replay takes every row once, by time, and rows of one instant in the order of insertion |
| RuntimeLog.ReplayRestoresOperations | server/api/v1/blockchain.py:117-163 | for every sequential run of intents and restarts with increasing times, replaying the log into an empty service yields the live operations with player and hashrate if and only if every live hashrate has at most six decimals |
| RuntimeLog.TinyHashrateIsLost | server/api/v1/blockchain.py:140-141 | an operation too slow for six decimals runs, but is gone after a restart |
| RuntimeLog.LogsAlternate | server/api/v1/blockchain.py:516-599 | while one service runs, for any hashrates and clocks, each operation's log alternates start and stop, and ends with a start exactly if it runs |
| RuntimeLog.LogsAlternateAcrossRestarts | server/api/v1/blockchain.py:117-163 | the same over runs with restarts, if no accepted start of the operation had a hashrate that rounds to zero |
| RuntimeLog.TwoStartsInARow | server/api/v1/blockchain.py:140-141 | for every hashrate that rounds to zero: start, restart, start logs two starts in a row |
| RuntimeLog.AlternationNeedsStorableHashrate | server/api/v1/blockchain.py:117-163 | operations of one hashrate alternate over all runs with restarts if and only if it does not round to zero |
| RuntimeLog.ReplayIdempotent | server/api/v1/blockchain.py:136-162 | replaying any log a second time changes nothing |
| Sorting.SortCorrect | server/domain/mining/interval_slicer.py:51-62 | sorting yields a sorted permutation |
| Sorting.SortIgnoresOrder | server/domain/mining/service.py:231 | under an antisymmetric key the sorted list does not depend on the original order |
| Sorting.TextLeMeans | server/domain/economy/reward_settlement.py:54-57 | text is ordered by code points: a proper prefix comes first, otherwise the first differing character decides |
| Sorting.CodePointOrder | server/domain/economy/reward_settlement.py:54-57 | of two different texts exactly one is smaller by code points |

## Left out

- RewardSettlement.AllocatePlayerRewards: a negative pool or negative contributions, which settlement never passes; the downward loop need not end there.
- MiningService.MiningSimulationService.ProcessTick: negative reward multipliers and pool settings, for which the downward loop of the allocation need not end.
- MiningService.MiningSimulationService.AbsorbWork: the same.
- MiningService.MiningSimulationService.Settle: the same.
- MiningService.RunKeepsInv: negative hashrates, multipliers and reward events, which would turn work or pools negative.
- RuntimeLog.ReplayRestoresOperations: `last_processed_at` and multiplier after a replay, since recovery restores the start time; concurrent intents for one operation, which are not serialized by the code.
- RuntimeLog.RuntimeMiningService.RecoverRuntimeOperations: rows with equal `occurred_at` are replayed in the order of insertion; a tie in `created_at` as well, which the code breaks by a random id, is left out; so are rows with a malformed payload, which stop the operation, and the boundaries that state changes replay.
- RuntimeLog.RuntimeMiningService.StartOperationIntent: the answer 401 for a session that is bound to no player; the player is an input.
- RuntimeLog.RuntimeMiningService.StopOperationIntent: the same.
- NetworkStream.ClientReceivesOnce: several clients share no state, so one is modelled; `reset` of the stream, and the database stream, whose sequence numbers may have gaps.
- RateLimiter.FixedWindowBound: changing settings, and transaction clocks that run backwards.
- MiningOperation.TickOperation: the operation is a value in a map that is written back, not an object that other holders of a reference see change.
- MiningOperation.TickSplit: multipliers that are NaN or infinite, and the parsing of event payloads; a boundary keeps its multiplier as canonical decimal text, because the sort key compares that text.
- ContentValidator.CheckCircularDependencies: the interpreter's recursion limit, which a chain of about a thousand dependencies exceeds; non-string ids in a pack and whitespace outside ASCII; the other checks of the validator compare lists and ranges.
- RewardSettlement.OnePassSuffices: rewards from 333 * 10^18 credits on, where more than one pass can be needed; conservation and order hold for them too.
- RewardSettlement.AllocationCloseToShare: the same rewards.
- RewardSettlement.ZeroGetsNothing: the same rewards.
- PoolShares.CalculateRewardShares: rewards and sums of hashrates with more than 28 digits, for which quantizing raises an error or the sum itself is rounded.
- PoolShares.RemainderBounds: rewards from 666 * 10^18 credits on, where the exact condition of `PoolShares.ShareOutIsExact` takes over.
- NpcStock.SalesAreBounded: interleaved reads, which `NpcStock.SalesBoundedExactlyWithoutRestock` covers.
- OfflineCredit.PlayerRepository.CreateProfile: the other columns that are filled in, which offline credit does not read.
- Genesis.GenesisService.RollbackGenesis: database mode, and whitespace outside ASCII in the reason.
- Genesis.GenesisService.AnnounceGenesis: database mode, and whitespace outside ASCII in the message.
- Genesis.GenesisService.CreateGenesisBlock: database mode, readiness probes, status payload, and balances or tiers given by dictionary.
- Genesis.TamperingIsDetected: the announcement message and the administrator's name are not covered by the hash, so changing them is not detected and not claimed to be.
- Economy.Database.ExecutePurchase: which item ids are hardware tiers, power and heat columns, and the telemetry after a purchase.
- Economy.Database.PurchaseEquipment: the reputation table, which counts trades and decides nothing, and the retry after a serialization failure.
- Events published from ticks and events: the stream is modelled by itself.
- Pool membership, browsing and pagination of listings, reward histories and status read models: thin queries.
- Heat, throttle and power formulas in floating point; the effective hashrate is an input of offline credit.
- Selection of the active event by `EventService`, leaderboards, moderation, accounts, sessions and transport.
- The database ledger poster: the in-memory one has the same fields.
