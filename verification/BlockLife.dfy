/** What each finalized block required, when it was settled and what it paid, over whole runs
(server/domain/mining/service.py, server/domain/blockchain/store.py). */
module BlockLife {
  import opened Numbers
  import opened Difficulty
  import opened BlockchainStore
  import opened MiningOperation
  import opened MiningService
  import RewardSettlement

  /** The whole unit nearest to num / den, the even one of two. */
  ghost predicate NearestEven(got: int, num: int, den: int) {
    && 2 * num - den <= 2 * (got * den) <= 2 * num + den
    && (2 * (got * den) == 2 * num - den || 2 * (got * den) == 2 * num + den ==> got % 2 == 0)
  }

  /** The pool of a block: the reward for what the block required, times the event of that moment. */
  ghost predicate PoolIs(reward: int, rewards: RewardSettlement.Config, requiredWork: int, event: Option<Rational>) {
    var base := RewardSettlement.ComputeBlockReward(rewards, requiredWork);
    match event
    case None => reward == base
    case Some(factor) => NearestEven(reward, base * factor.num, factor.den)
  }

  /** What the block after the first k ones requires. */
  ghost function RequirementAfter(e: Engine, k: nat): int {
    if k < |e.chain.finalized| then e.chain.finalized[k].requiredWork else e.chain.active.requiredWork
  }

  /** Block i was finalized by this tick: settled at its time, with the pool of its reward event, and followed by the
  requirement that the history up to and including block i gives under its difficulty event. */
  ghost predicate FinalizedBy(setup: Setup, e: Engine, i: nat, a: Action) {
    && i < |e.chain.finalized| && i < |e.settlements| && a.Tick?
    && var block, s := e.chain.finalized[i], e.settlements[i];
    && block.finalizedAt == a.end == s.at
    && PoolIs(s.reward, setup.rewards, block.requiredWork, a.modifiers.reward)
    && RequirementAfter(e, i + 1)
      == match setup.adjuster
         case None => block.requiredWork
         case Some(config) =>
           ComputeNextRequiredWork(config, block.requiredWork, e.chain.finalized[..i + 1], a.modifiers.difficulty)
  }

  ghost predicate SomeTickFinalized(setup: Setup, e: Engine, i: nat, actions: seq<Action>) {
    exists j :: 0 <= j < |actions| && FinalizedBy(setup, e, i, actions[j])
  }

  ghost predicate LifeInv(setup: Setup, e: Engine, actions: seq<Action>, requiredWork: int) {
    && |e.settlements| == |e.chain.finalized|
    && RequirementAfter(e, 0) == requiredWork
    && forall i :: 0 <= i < |e.chain.finalized| ==> SomeTickFinalized(setup, e, i, actions)
  }

  lemma PoolRewardIs(setup: Setup, requiredWork: int, event: Option<Rational>)
    ensures PoolIs(PoolReward(setup, requiredWork, event), setup.rewards, requiredWork, event)
  {
  }

  /** after follows e without a finalization. */
  ghost predicate SameBlocks(e: Engine, after: Engine) {
    && after.chain.finalized == e.chain.finalized && after.settlements == e.settlements
    && after.chain.active.requiredWork == e.chain.active.requiredWork
  }

  /** after follows e by the finalization of the active block. */
  ghost predicate OneMoreBlock(setup: Setup, e: Engine, after: Engine, a: Action) {
    var n := |e.chain.finalized|;
    && |after.chain.finalized| == n + 1 && after.chain.finalized[..n] == e.chain.finalized
    && |after.settlements| == |e.settlements| + 1 && after.settlements[..|e.settlements|] == e.settlements
    && after.chain.finalized[n].requiredWork == e.chain.active.requiredWork
    && (|e.settlements| == n ==> FinalizedBy(setup, after, n, a))
  }

  lemma {:induction false} AbsorbBlocks(setup: Setup, e: Engine, player: string, a: Action, contribution: int)
    requires a.Tick?
    ensures var after := Absorb(setup, e, player, BlockchainStore.Work(contribution, a.end, a.modifiers.difficulty),
                                a.modifiers.reward);
      SameBlocks(e, after) || OneMoreBlock(setup, e, after, a)
  {
    var active := e.chain.active;
    var total := active.accumulatedWork + contribution;
    var work := BlockchainStore.Work(contribution, a.end, a.modifiers.difficulty);
    var after := Absorb(setup, e, player, work, a.modifiers.reward);
    PoolRewardIs(setup, active.requiredWork, a.modifiers.reward);
    hide PoolReward, PoolIs, AfterCredit, ComputeNextRequiredWork, RewardSettlement.Allocation;
    if active.requiredWork <= total {
      var block := FinalizedBlock(active.number, active.requiredWork, total, a.end);
      assert after.chain.finalized == e.chain.finalized + [block];
      assert after.chain.finalized[..|e.chain.finalized| + 1] == after.chain.finalized;
    }
  }

  lemma {:induction false} StepBlocks(setup: Setup, e: Engine, a: Action)
    ensures SameBlocks(e, ActionStep(setup, e, a)) || OneMoreBlock(setup, e, ActionStep(setup, e, a), a)
  {
    hide Absorb, OneMoreBlock, Contribution, Advance, WithBoundary;
    if a.Tick? && a.id in e.operations && e.operations[a.id].lastProcessedAt < a.end {
      var op := e.operations[a.id];
      var ready := e.(operations := e.operations[a.id := Advance(op, a.end)]);
      AbsorbBlocks(setup, ready, op.playerId, a, Contribution(op, a.end));
      SameChain(setup, e, ready, ActionStep(setup, e, a), a);
    }
  }

  lemma SameChain(setup: Setup, e: Engine, ready: Engine, after: Engine, a: Action)
    requires ready.chain == e.chain && ready.settlements == e.settlements
    requires SameBlocks(ready, after) || OneMoreBlock(setup, ready, after, a)
    ensures SameBlocks(e, after) || OneMoreBlock(setup, e, after, a)
  {
    hide FinalizedBy;
  }

  lemma {:induction false} SameBlocksKeepLife(setup: Setup, e: Engine, after: Engine, i: nat, a: Action)
    requires SameBlocks(e, after) && FinalizedBy(setup, e, i, a)
    ensures FinalizedBy(setup, after, i, a)
  {
    hide PoolIs, ComputeNextRequiredWork;
  }

  lemma {:induction false} EarlierBlockKeepsLife(setup: Setup, e: Engine, after: Engine, i: nat, a: Action,
                                              last: Action)
    requires OneMoreBlock(setup, e, after, last) && FinalizedBy(setup, e, i, a)
    requires |e.settlements| == |e.chain.finalized|
    ensures FinalizedBy(setup, after, i, a)
  {
    hide PoolIs, ComputeNextRequiredWork;
    var n := |e.chain.finalized|;
    assert after.chain.finalized[i] == e.chain.finalized[i] && after.settlements[i] == e.settlements[i];
    assert after.chain.finalized[..i + 1] == e.chain.finalized[..i + 1];
    assert i + 1 < n ==> after.chain.finalized[i + 1] == e.chain.finalized[i + 1];
  }

  lemma {:induction false} StepKeepsLife(setup: Setup, e: Engine, actions: seq<Action>, a: Action, requiredWork: int)
    requires LifeInv(setup, e, actions, requiredWork)
    ensures LifeInv(setup, ActionStep(setup, e, a), actions + [a], requiredWork)
  {
    var after, all := ActionStep(setup, e, a), actions + [a];
    StepBlocks(setup, e, a);
    hide ActionStep, FinalizedBy;
    assert all[|actions|] == a;
    assert |after.chain.finalized| > 0 && |e.chain.finalized| > 0 ==>
      after.chain.finalized[0].requiredWork == e.chain.finalized[0].requiredWork;
    forall i | 0 <= i < |after.chain.finalized|
      ensures SomeTickFinalized(setup, after, i, all)
    {
      if i < |e.chain.finalized| {
        assert SomeTickFinalized(setup, e, i, actions);
        var j :| 0 <= j < |actions| && FinalizedBy(setup, e, i, actions[j]);
        assert all[j] == actions[j];
        if SameBlocks(e, after) {
          SameBlocksKeepLife(setup, e, after, i, actions[j]);
        } else {
          EarlierBlockKeepsLife(setup, e, after, i, actions[j], a);
        }
      }
    }
  }

  /** Over every run the first block requires what the chain was created with, and each finalized block belongs to one
  tick of the run: it is settled at that tick's end, its pool is the reward for its own requirement under that tick's
  reward event, and the block after it requires what its history gives under that tick's difficulty event. */
  lemma {:induction false} EveryBlocksLife(setup: Setup, requiredWork: int, actions: seq<Action>)
    ensures LifeInv(setup, RunActions(setup, FreshEngine(requiredWork), actions), actions, requiredWork)
  {
    if actions != [] {
      var before, last := actions[..|actions| - 1], actions[|actions| - 1];
      EveryBlocksLife(setup, requiredWork, before);
      hide LifeInv, ActionStep;
      StepKeepsLife(setup, RunActions(setup, FreshEngine(requiredWork), before), before, last, requiredWork);
      assert before + [last] == actions;
    }
  }

  // ---------------------------------------------------------------- what callers are told

  /** The result of a tick tells what happened to the state: the active block before it, by how much the work of the
  chain grew, and the block that was finalized. */
  lemma {:induction false} TickReports(setup: Setup, e: Engine, id: string, end: int, modifiers: Modifiers)
    requires Numbered(e.chain)
    ensures var after, result := TickStep(setup, e, id, end, modifiers), ResultOf(e, id, end);
      match result
      case NotRegistered => id !in e.operations && after == e
      case Ticked(activeBlock, contribution, finalizedBlock) =>
        && id in e.operations && activeBlock == e.chain.active.number
        && Accounted(after.chain) == Accounted(e.chain) + contribution
        && after.finalizedNumbers
          == (if finalizedBlock.Some? then e.finalizedNumbers + [finalizedBlock.value] else e.finalizedNumbers)
        && (finalizedBlock.Some? ==>
              finalizedBlock.value == e.chain.active.number && after.chain.active.number == e.chain.active.number + 1)
  {
    hide Contribution, Advance, Accounted, AfterCredit, SettlementOf, ComputeNextRequiredWork;
    if id in e.operations && e.operations[id].lastProcessedAt < end {
      var work := BlockchainStore.Work(Contribution(e.operations[id], end), end, modifiers.difficulty);
      StepKeepsWork(setup.adjuster, e.chain, work);
    }
  }

  /** Likewise for the store: a finalized number is returned exactly if that block was appended. */
  lemma {:induction false} OutcomeReports(adjuster: Option<Config>, chain: Chain, work: BlockchainStore.Work)
    ensures var after, outcome := AddWorkStep(adjuster, chain, work), AddWorkResult(chain, work);
      && outcome.activeBefore == chain.active.number && outcome.requiredWork == chain.active.requiredWork
      && after.finalized == chain.finalized
           + (match (outcome.finalizedNumber, outcome.totalWork)
              case (Some(number), Some(total)) => [FinalizedBlock(number, outcome.requiredWork, total, work.at)]
              case _ => [])
      && (outcome.finalizedNumber.Some? <==> outcome.totalWork.Some?)
      && (outcome.finalizedNumber.Some?
          <==> chain.active.requiredWork <= chain.active.accumulatedWork + work.contribution)
  {
    hide ComputeNextRequiredWork;
  }
}
