/** What every single block settles (server/domain/mining/service.py): its requirement, plus the carried-over work
beyond that, less the same of the block before. At the end a run in which four blocks that each require one unit settle
contributions of 1, 2, 1 and 0. */
module OverCarry {
  import opened Numbers
  import opened Totals
  import opened Difficulty
  import opened BlockchainStore
  import opened IntervalSlicer
  import opened MiningOperation
  import opened MiningService

  const CALM := Modifiers(None, None)

  /** Over every run, settled contributions cover all finalized requirements together, if not each of them. */
  lemma SettledCoversRequired(setup: Setup, requiredWork: int, actions: seq<Action>)
    requires SetupOk(setup) && 0 < requiredWork
    requires forall i :: 0 <= i < |actions| ==> Benign(actions[i])
    ensures var e := RunActions(setup, FreshEngine(requiredWork), actions);
      RequiredTotal(e.chain.finalized) <= SettledTotal(e.settlements)
  {
    RunKeepsInv(setup, requiredWork, actions);
    hide RunActions, Pending, SettledTotal, RequiredTotal;
  }

  // ---------------------------------------------------------------- block by block

  /** The residual that was carried into block i. */
  ghost function Carried(blocks: seq<FinalizedBlock>, i: int): int
    requires 0 <= i <= |blocks|
  {
    if i == 0 then 0 else blocks[i - 1].totalWork - blocks[i - 1].requiredWork
  }

  /** How far it exceeded the requirement of block i. */
  ghost function Excess(blocks: seq<FinalizedBlock>, i: int): int
    requires 0 <= i < |blocks|
  {
    Max(Carried(blocks, i) - blocks[i].requiredWork, 0)
  }

  ghost function ExcessBefore(blocks: seq<FinalizedBlock>, i: int): int
    requires 0 <= i <= |blocks|
  {
    if i == 0 then 0 else Excess(blocks, i - 1)
  }

  /** Settlement i credits what block i required, plus its excess, less that of the block before. */
  ghost predicate SettlesWithExcess(settlements: seq<Settlement>, blocks: seq<FinalizedBlock>) {
    && |settlements| == |blocks|
    && forall i :: 0 <= i < |blocks| ==>
      Sum(settlements[i].contributions) == blocks[i].requiredWork + Excess(blocks, i) - ExcessBefore(blocks, i)
  }

  ghost predicate BlocksInv(e: Engine) {
    && SettlesWithExcess(e.settlements, e.chain.finalized)
    && Pending(e) == e.chain.active.accumulatedWork - ExcessBefore(e.chain.finalized, |e.chain.finalized|)
  }

  lemma ExcessAppend(blocks: seq<FinalizedBlock>, next: FinalizedBlock)
    ensures forall i :: 0 <= i < |blocks| ==> Excess(blocks + [next], i) == Excess(blocks, i)
    ensures forall i :: 0 <= i <= |blocks| ==> ExcessBefore(blocks + [next], i) == ExcessBefore(blocks, i)
    ensures ExcessBefore(blocks + [next], |blocks| + 1) == Excess(blocks + [next], |blocks|)
      == Max(Carried(blocks, |blocks|) - next.requiredWork, 0)
  {
  }

  lemma SettlesOneMore(settlements: seq<Settlement>, blocks: seq<FinalizedBlock>, s: Settlement, next: FinalizedBlock)
    requires SettlesWithExcess(settlements, blocks)
    requires Sum(s.contributions)
      == next.requiredWork + Max(Carried(blocks, |blocks|) - next.requiredWork, 0) - ExcessBefore(blocks, |blocks|)
    ensures SettlesWithExcess(settlements + [s], blocks + [next])
    ensures ExcessBefore(blocks + [next], |blocks| + 1) == Max(Carried(blocks, |blocks|) - next.requiredWork, 0)
  {
    ExcessAppend(blocks, next);
    hide Excess, ExcessBefore, Carried, Sum;
  }

  /** What fits into a block and what is left, when the block holds just its residual, or less than it requires. */
  lemma FitsExactly(active: ActiveBlock, carried: int, contribution: int)
    requires 0 <= contribution && 0 < active.requiredWork <= active.accumulatedWork + contribution
    requires carried <= active.accumulatedWork
    requires active.accumulatedWork == carried || active.accumulatedWork < active.requiredWork
    ensures var own, excess := OwnPart(active, contribution), Max(carried - active.requiredWork, 0);
      && active.accumulatedWork + own == active.requiredWork + excess
      && contribution - own == active.accumulatedWork + contribution - active.requiredWork - excess
  {
  }

  lemma {:induction false} AbsorbKeepsBlocks(setup: Setup, e: Engine, player: string, work: BlockchainStore.Work,
                                             event: Option<Rational>)
    requires CarryInv(e) && BlocksInv(e) && 0 <= work.contribution
    ensures BlocksInv(Absorb(setup, e, player, work, event))
  {
    var active, after := e.chain.active, Absorb(setup, e, player, work, event);
    ActivePositive(e);
    if active.requiredWork <= active.accumulatedWork + work.contribution {
      AbsorbCompletes(setup, e, player, work, event);
      hide Completed, CarryInv, BlocksInv, Inv, Absorb, Pending;
      CompletionKeepsBlocks(e, after, work.contribution);
    } else {
      AbsorbTotals(setup, e, player, work, event);
      AbsorbAppends(setup, e, player, work, event);
      hide Inv, CarryInv, Sum, Absorb, Pending, ExcessBefore, SettlesWithExcess;
    }
  }

  lemma {:induction false} CompletionKeepsBlocks(e: Engine, after: Engine, contribution: int)
    requires CarryInv(e) && BlocksInv(e) && 0 <= contribution && 0 < e.chain.active.requiredWork
    requires Completed(e, after, contribution)
    ensures BlocksInv(after)
  {
    hide *;
    var blocks := e.chain.finalized;
    CarryBounds(e);
    CompletedReached(e, after, contribution);
    FitsExactly(e.chain.active, Carried(blocks, |blocks|), contribution);
    CompletedNumbers(e, after, contribution, Carried(blocks, |blocks|));
    BlocksUnfold(e);
    SettlesOneMore(e.settlements, blocks, after.settlements[|e.settlements|], after.chain.finalized[|blocks|]);
    BlocksFold(after);
  }

  lemma CompletedReached(e: Engine, after: Engine, contribution: int)
    requires Completed(e, after, contribution)
    ensures e.chain.active.requiredWork <= e.chain.active.accumulatedWork + contribution
  {
    hide Sum, Pending, OwnPart;
  }

  /** Completed, in numbers. */
  lemma CompletedNumbers(e: Engine, after: Engine, contribution: int, carried: int)
    requires Completed(e, after, contribution)
    requires var own, excess := OwnPart(e.chain.active, contribution), Max(carried - e.chain.active.requiredWork, 0);
      && e.chain.active.accumulatedWork + own == e.chain.active.requiredWork + excess
      && contribution - own == e.chain.active.accumulatedWork + contribution - e.chain.active.requiredWork - excess
    ensures var n, k := |e.chain.finalized|, |e.settlements|;
      && |after.chain.finalized| == n + 1 && |after.settlements| == k + 1
      && after.settlements == e.settlements + [after.settlements[k]]
      && after.chain.finalized == e.chain.finalized + [after.chain.finalized[n]]
      && Sum(after.settlements[k].contributions) - Pending(e)
        == after.chain.finalized[n].requiredWork - e.chain.active.accumulatedWork
           + Max(carried - after.chain.finalized[n].requiredWork, 0)
      && Pending(after)
        == after.chain.active.accumulatedWork - Max(carried - after.chain.finalized[n].requiredWork, 0)
  {
    hide Sum, Pending, OwnPart, Max;
  }

  lemma BlocksUnfold(e: Engine)
    requires BlocksInv(e)
    ensures SettlesWithExcess(e.settlements, e.chain.finalized)
    ensures Pending(e) == e.chain.active.accumulatedWork - ExcessBefore(e.chain.finalized, |e.chain.finalized|)
  {
  }

  lemma BlocksFold(e: Engine)
    requires SettlesWithExcess(e.settlements, e.chain.finalized)
    requires Pending(e) == e.chain.active.accumulatedWork - ExcessBefore(e.chain.finalized, |e.chain.finalized|)
    ensures BlocksInv(e)
  {
  }

  lemma CarryBounds(e: Engine)
    requires CarryInv(e)
    ensures var active, carried := e.chain.active, Carried(e.chain.finalized, |e.chain.finalized|);
      && carried <= active.accumulatedWork
      && (active.accumulatedWork == carried || active.accumulatedWork < active.requiredWork)
  {
    OpeningIsCarried(e.chain);
    hide Inv, NoOverCarry, ExactlySettled, Opening, Carried, Pending;
  }

  lemma OpeningIsCarried(chain: Chain)
    ensures Opening(chain) == Carried(chain.finalized, |chain.finalized|)
  {
  }

  lemma SameBlocks(e: Engine, ready: Engine)
    requires ready == e.(operations := ready.operations)
    ensures CarryInv(e) && BlocksInv(e) ==> CarryInv(ready) && BlocksInv(ready)
  {
    hide Inv, Sum;
    if CarryInv(e) {
      SameInv(e, ready);
    }
  }

  lemma {:induction false} ActionKeepsBlocks(setup: Setup, e: Engine, a: Action)
    requires CarryInv(e) && BlocksInv(e) && OperationsOk(e) && SetupOk(setup) && Benign(a)
    ensures BlocksInv(ActionStep(setup, e, a))
  {
    hide Inv, CarryInv, BlocksInv, Value, NonNegativeRates;
    if a.Tick? && a.id in e.operations && e.operations[a.id].lastProcessedAt < a.end {
      var op := e.operations[a.id];
      TickNonNegative(op, a.end);
      var ready := e.(operations := e.operations[a.id := Advance(op, a.end)]);
      SameBlocks(e, ready);
      hide Contribution, Advance, Absorb;
      var work := BlockchainStore.Work(Contribution(op, a.end), a.end, a.modifiers.difficulty);
      AbsorbKeepsBlocks(setup, ready, op.playerId, work, a.modifiers.reward);
    } else {
      SameBlocks(e, ActionStep(setup, e, a));
    }
  }

  lemma FreshBlocks(requiredWork: int)
    ensures BlocksInv(FreshEngine(requiredWork))
  {
    assert BucketOf(map[], 1) == map[];
  }

  lemma {:induction false} RunKeepsBlocks(setup: Setup, requiredWork: int, actions: seq<Action>)
    requires SetupOk(setup) && 0 < requiredWork
    requires forall i :: 0 <= i < |actions| ==> Benign(actions[i])
    ensures BlocksInv(RunActions(setup, FreshEngine(requiredWork), actions))
  {
    FreshBlocks(requiredWork);
    if actions != [] {
      hide CarryInv, Inv, OperationsOk, BlocksInv, Benign;
      var before := actions[..|actions| - 1];
      RunKeepsInv(setup, requiredWork, before);
      RunKeepsCarry(setup, requiredWork, before);
      RunKeepsBlocks(setup, requiredWork, before);
      ActionKeepsBlocks(setup, RunActions(setup, FreshEngine(requiredWork), before), actions[|actions| - 1]);
    }
  }

  /** In every run each block settles exactly what it required plus its excess less that of the block before; so it
  settles its requirement if and only if the two are equal, whatever other blocks did. */
  lemma {:induction false} EachBlockSettles(setup: Setup, requiredWork: int, actions: seq<Action>, i: nat)
    requires SetupOk(setup) && 0 < requiredWork
    requires forall k :: 0 <= k < |actions| ==> Benign(actions[k])
    requires i < |RunActions(setup, FreshEngine(requiredWork), actions).chain.finalized|
    ensures var e := RunActions(setup, FreshEngine(requiredWork), actions);
      && |e.settlements| == |e.chain.finalized|
      && Sum(e.settlements[i].contributions)
        == e.chain.finalized[i].requiredWork + Excess(e.chain.finalized, i) - ExcessBefore(e.chain.finalized, i)
      && (Sum(e.settlements[i].contributions) == e.chain.finalized[i].requiredWork
          <==> Excess(e.chain.finalized, i) == ExcessBefore(e.chain.finalized, i))
  {
    RunKeepsBlocks(setup, requiredWork, actions);
    hide RunActions, Excess, ExcessBefore, Sum, Pending;
  }

  // ---------------------------------------------------------------- a run

  /** Without boundaries a tick of one second contributes the base hashrate, here a whole number of units. */
  lemma OneSecond(player: string, units: int, from: int)
    requires 0 <= units
    ensures var op := NewOperation(player, Ratio(units, MICRO), from);
      Contribution(op, from + SECOND) == units
      && Advance(op, from + SECOND) == NewOperation(player, Ratio(units, MICRO), from + SECOND)
  {
    var op := NewOperation(player, Ratio(units, MICRO), from);
    assert InWindow([], from, from + SECOND) == [] && Retained([], from + SECOND) == [];
    assert Applied(op, from + SECOND) == [];
    ContributionIsWork(op, from + SECOND);
    PlainRate(units, from);
    hide Rate, Contribution, Applied;
    assert Seconds(from, from + SECOND) == 1;
  }

  lemma PlainRate(units: int, at: int)
    ensures Rate(Ratio(units, MICRO), Boundary(at, "1", false)) == units
  {
    PlainMultiplier();
    hide Value;
    RoundExact(units, MICRO);
  }

  /** A tick that completes a block, in numbers. */
  lemma Completes(setup: Setup, e: Engine, id: string, end: int, units: int)
    requires Inv(e) && setup.adjuster.None? && id in e.operations && e.operations[id].lastProcessedAt < end
    requires units == Contribution(e.operations[id], end) && 0 <= units
    requires e.chain.active.requiredWork <= e.chain.active.accumulatedWork + units
    ensures var after := TickStep(setup, e, id, end, CALM);
      && after.operations == e.operations[id := Advance(e.operations[id], end)]
      && after.chain.active.requiredWork == e.chain.active.requiredWork
      && Completed(e, after, units)
  {
    var op := e.operations[id];
    var ready := e.(operations := e.operations[id := Advance(op, end)]);
    var work := BlockchainStore.Work(units, end, None);
    SameInv(e, ready);
    AbsorbCompletes(setup, ready, op.playerId, work, None);
    AbsorbKeepsOperations(setup, ready, op.playerId, work, None);
    FixedRequirement(setup, ready, op.playerId, work);
    hide Inv, Absorb, Sum, OwnPart, Contribution, Advance;
  }

  lemma FixedRequirement(setup: Setup, e: Engine, player: string, work: BlockchainStore.Work)
    requires setup.adjuster.None?
    ensures Absorb(setup, e, player, work, None).chain.active.requiredWork == e.chain.active.requiredWork
  {
    hide AfterCredit, SettlementOf;
  }

  lemma RunOne(setup: Setup, e: Engine, actions: seq<Action>, a: Action)
    ensures RunActions(setup, e, actions + [a]) == ActionStep(setup, RunActions(setup, e, actions), a)
  {
    assert (actions + [a])[..|actions|] == actions;
  }

  function Miner(id: string, units: int, from: int): Operation {
    NewOperation(id, Ratio(units, MICRO), from)
  }

  ghost function Registrations(): seq<Action> {
    [] + [Register("a", None, Ratio(3, MICRO), 0)] + [Register("b", None, Ratio(1, MICRO), 0)]
    + [Register("c", None, Ratio(0, MICRO), 0)]
  }

  /** a contributes 3 units, then b contributes 1, then c contributes nothing, twice. */
  ghost function TickOf(k: nat): Action {
    if k == 0 then Tick("a", SECOND, CALM)
    else if k == 1 then Tick("b", SECOND, CALM)
    else if k == 2 then Tick("c", SECOND, CALM)
    else Tick("c", 2 * SECOND, CALM)
  }

  ghost function Actions(k: nat): seq<Action> {
    if k == 0 then Registrations() else Actions(k - 1) + [TickOf(k - 1)]
  }

  ghost function After(setup: Setup, k: nat): Engine {
    RunActions(setup, FreshEngine(1), Actions(k))
  }

  lemma {:induction false} ActionsBenign(k: nat)
    ensures forall i :: 0 <= i < |Actions(k)| ==> Benign(Actions(k)[i])
  {
    if 0 < k {
      ActionsBenign(k - 1);
    }
  }

  lemma AfterNext(setup: Setup, k: nat)
    requires SetupOk(setup)
    ensures Inv(After(setup, k)) && After(setup, k + 1) == ActionStep(setup, After(setup, k), TickOf(k))
  {
    ActionsBenign(k);
    RunKeepsInv(setup, 1, Actions(k));
    RunOne(setup, FreshEngine(1), Actions(k), TickOf(k));
  }

  lemma AfterRegistrations(setup: Setup)
    ensures After(setup, 0)
      == FreshEngine(1).(operations := map["a" := Miner("a", 3, 0), "b" := Miner("b", 1, 0), "c" := Miner("c", 0, 0)])
  {
    var e := FreshEngine(1);
    RunOne(setup, e, [], Register("a", None, Ratio(3, MICRO), 0));
    RunOne(setup, e, [] + [Register("a", None, Ratio(3, MICRO), 0)], Register("b", None, Ratio(1, MICRO), 0));
    RunOne(setup, e, [] + [Register("a", None, Ratio(3, MICRO), 0)] + [Register("b", None, Ratio(1, MICRO), 0)],
           Register("c", None, Ratio(0, MICRO), 0));
    assert RunActions(setup, e, []) == e;
  }

  /** What matters of a state here. */
  ghost predicate Shows(e: Engine, blocks: int, accumulated: int, pending: int) {
    && |e.chain.finalized| == |e.settlements| == blocks
    && e.chain.active.requiredWork == 1 && e.chain.active.accumulatedWork == accumulated && Pending(e) == pending
    && forall i :: 0 <= i < blocks ==> e.settlements[i].requiredWork == 1
  }

  ghost function Settled(e: Engine, i: int): int
    requires 0 <= i < |e.settlements|
  {
    Sum(e.settlements[i].contributions)
  }

  /** after follows e by a tick of one second that contributed `units` and completed the block: it is settled with what
  was pending and what fitted. */
  ghost predicate Follows(e: Engine, after: Engine, id: string, units: int, end: int, blocks: nat, accumulated: int,
                          pending: int) {
    var own := Min(units, Max(1 - accumulated, 0));
    && Shows(after, blocks + 1, accumulated + units - 1, units - own)
    && after.operations == e.operations[id := Miner(id, units, end)]
    && blocks < |after.settlements| && blocks < |after.chain.finalized|
    && after.settlements == e.settlements + [after.settlements[blocks]]
    && Settled(after, blocks) == pending + own
    && after.chain.finalized == e.chain.finalized + [after.chain.finalized[blocks]]
    && after.chain.finalized[blocks].totalWork == accumulated + units
    && after.chain.finalized[blocks].requiredWork == 1
  }

  lemma TickFollows(setup: Setup, e: Engine, id: string, units: int, end: int, blocks: nat, accumulated: int,
                    pending: int)
    requires Inv(e) && setup.adjuster.None? && Shows(e, blocks, accumulated, pending)
    requires id in e.operations && e.operations[id] == Miner(id, units, end - SECOND)
    requires 0 <= units && 1 <= accumulated + units
    ensures Follows(e, TickStep(setup, e, id, end, CALM), id, units, end, blocks, accumulated, pending)
  {
    hide *;
    var after := TickStep(setup, e, id, end, CALM);
    OneSecond(id, units, end - SECOND);
    MinerFields(id, units, end);
    ShowsNumbers(e, blocks, accumulated, pending);
    Completes(setup, e, id, end, units);
    CompletedShows(e, after, units, blocks, accumulated, pending);
    FollowsFrom(e, after, id, units, end, blocks, accumulated, pending);
  }

  lemma MinerFields(id: string, units: int, end: int)
    ensures Miner(id, units, end - SECOND).lastProcessedAt < end && end - SECOND + SECOND == end
    ensures Miner(id, units, end) == NewOperation(id, Ratio(units, MICRO), end)
    ensures Miner(id, units, end - SECOND) == NewOperation(id, Ratio(units, MICRO), end - SECOND)
  {
  }

  /** What completing a block that requires one unit shows. */
  lemma CompletedShows(e: Engine, after: Engine, units: int, blocks: nat, accumulated: int, pending: int)
    requires Shows(e, blocks, accumulated, pending) && Completed(e, after, units)
    requires after.chain.active.requiredWork == 1
    ensures var own := Min(units, Max(1 - accumulated, 0));
      && Shows(after, blocks + 1, accumulated + units - 1, units - own)
      && |after.settlements| == |after.chain.finalized| == blocks + 1
      && after.settlements == e.settlements + [after.settlements[blocks]]
      && Settled(after, blocks) == pending + own
      && after.chain.finalized == e.chain.finalized + [after.chain.finalized[blocks]]
      && after.chain.finalized[blocks].totalWork == accumulated + units
      && after.chain.finalized[blocks].requiredWork == 1
  {
    ShowsNumbers(e, blocks, accumulated, pending);
    hide Pending, Sum, OwnPart, Shows, Settled;
    OwnPartOf(e.chain.active, units);
    ShowsNext(e, after, blocks, accumulated + units - 1, Pending(after));
    SettledSum(after, blocks);
  }

  lemma FollowsFrom(e: Engine, after: Engine, id: string, units: int, end: int, blocks: nat, accumulated: int,
                    pending: int)
    requires var own := Min(units, Max(1 - accumulated, 0));
      && Shows(after, blocks + 1, accumulated + units - 1, units - own)
      && |after.settlements| == |after.chain.finalized| == blocks + 1
      && after.settlements == e.settlements + [after.settlements[blocks]]
      && Settled(after, blocks) == pending + own
      && after.chain.finalized == e.chain.finalized + [after.chain.finalized[blocks]]
      && after.chain.finalized[blocks].totalWork == accumulated + units
      && after.chain.finalized[blocks].requiredWork == 1
    requires after.operations == e.operations[id := Miner(id, units, end)]
    ensures Follows(e, after, id, units, end, blocks, accumulated, pending)
  {
    hide Shows, Settled, Miner, Min, Max;
  }

  lemma TickShows(setup: Setup, k: nat, blocks: nat, accumulated: int, pending: int, units: int)
    requires SetupOk(setup) && setup.adjuster.None? && Shows(After(setup, k), blocks, accumulated, pending)
    requires var tick := TickOf(k);
      && tick.id in After(setup, k).operations
      && After(setup, k).operations[tick.id] == Miner(tick.id, units, tick.end - SECOND)
    requires 0 <= units && 1 <= accumulated + units
    ensures var tick := TickOf(k);
      Follows(After(setup, k), After(setup, k + 1), tick.id, units, tick.end, blocks, accumulated, pending)
  {
    var tick := TickOf(k);
    AfterNext(setup, k);
    assert tick.Tick? && tick.modifiers == CALM;
    UnfoldTick(setup, After(setup, k), tick);
    hide *;
    TickFollows(setup, After(setup, k), tick.id, units, tick.end, blocks, accumulated, pending);
  }

  lemma UnfoldTick(setup: Setup, e: Engine, tick: Action)
    requires tick.Tick? && tick.modifiers == CALM
    ensures ActionStep(setup, e, tick) == TickStep(setup, e, tick.id, tick.end, CALM)
  {
  }

  lemma OwnPartOf(active: ActiveBlock, units: int)
    requires active.requiredWork == 1 && 1 <= active.accumulatedWork + units
    ensures OwnPart(active, units) == Min(units, Max(1 - active.accumulatedWork, 0))
  {
  }

  lemma ShowsNumbers(e: Engine, blocks: int, accumulated: int, pending: int)
    requires Shows(e, blocks, accumulated, pending)
    ensures |e.chain.finalized| == |e.settlements| == blocks
    ensures e.chain.active.requiredWork == 1 && e.chain.active.accumulatedWork == accumulated && Pending(e) == pending
  {
  }

  lemma ShowsNext(e: Engine, after: Engine, blocks: int, accumulated: int, pending: int)
    requires |e.chain.finalized| == |e.settlements| == blocks
    requires Shows(e, blocks, e.chain.active.accumulatedWork, Pending(e))
    requires |after.chain.finalized| == |after.settlements| == blocks + 1
    requires after.settlements == e.settlements + [after.settlements[blocks]]
    requires after.settlements[blocks].requiredWork == 1 == after.chain.active.requiredWork
    requires after.chain.active.accumulatedWork == accumulated && Pending(after) == pending
    ensures Shows(after, blocks + 1, accumulated, pending)
  {
    hide Pending;
  }

  lemma SettledSum(e: Engine, i: int)
    requires 0 <= i < |e.settlements|
    ensures Settled(e, i) == Sum(e.settlements[i].contributions)
  {
  }

  /** The first block carries 2 units into a block that requires 1. That block settles 2, and the blocks after it still
  get to 1 and to nothing: its pool is posted, but nobody is paid. */
  lemma OverCarryRun(setup: Setup)
    requires SetupOk(setup) && setup.adjuster.None?
    ensures var e := After(setup, 4);
      && Shows(e, 4, 0, 0)
      && Settled(e, 0) == 1 && Settled(e, 1) == 2 && Settled(e, 2) == 1 && Settled(e, 3) == 0
      && !NoOverCarry(e.chain.finalized) && !ExactlySettled(e.settlements)
  {
    AfterRegistrations(setup);
    NothingShown();
    hide After, Shows, Settled, FreshEngine, NoOverCarry, ExactlySettled;
    TickShows(setup, 0, 0, 0, 0, 3);
    TickShows(setup, 1, 1, 2, 2, 1);
    TickShows(setup, 2, 2, 2, 1, 0);
    TickShows(setup, 3, 3, 1, 0, 0);
    var e := After(setup, 4);
    assert e.settlements[0] == After(setup, 1).settlements[0] && e.settlements[1] == After(setup, 2).settlements[1]
      && e.settlements[2] == After(setup, 3).settlements[2];
    SameSettled(e, After(setup, 1), 0);
    SameSettled(e, After(setup, 2), 1);
    SameSettled(e, After(setup, 3), 2);
    RequiredOne(e, 4, 0, 0);
    assert e.chain.finalized[0] == After(setup, 1).chain.finalized[0];
    assert e.chain.finalized[1] == After(setup, 2).chain.finalized[1];
    OverCarried(e);
  }

  lemma NothingShown()
    ensures forall ops :: Shows(FreshEngine(1).(operations := ops), 0, 0, 0)
  {
  }

  lemma RequiredOne(e: Engine, blocks: int, accumulated: int, pending: int)
    requires Shows(e, blocks, accumulated, pending)
    ensures forall i :: 0 <= i < |e.settlements| ==> e.settlements[i].requiredWork == 1
  {
  }

  lemma SameSettled(e: Engine, before: Engine, i: int)
    requires 0 <= i < |before.settlements| && i < |e.settlements| && e.settlements[i] == before.settlements[i]
    ensures Settled(e, i) == Settled(before, i)
  {
  }

  lemma OverCarried(e: Engine)
    requires 2 <= |e.chain.finalized| && 2 <= |e.settlements|
    requires Settled(e, 1) == 2 && e.settlements[1].requiredWork == 1
    requires e.chain.finalized[0].totalWork == 3 && e.chain.finalized[0].requiredWork == 1
    requires e.chain.finalized[1].requiredWork == 1
    ensures !NoOverCarry(e.chain.finalized) && !ExactlySettled(e.settlements)
  {
    assert e.chain.finalized[0 + 1].requiredWork == 1;
  }
}
