/** The mining engine: ticks turn time into work, work fills blocks, finalized blocks pay their pool
(server/domain/mining/service.py). */
module MiningService {
  import opened Numbers
  import opened Totals
  import opened Difficulty
  import opened BlockchainStore
  import opened Ledger
  import opened IntervalSlicer
  import opened MiningOperation
  import RewardSettlement

  /** What is posted for one finalized block. */
  datatype Settlement = Settlement(
    block: int, requiredWork: int, totalWork: int, reward: int,
    contributions: map<string, int>, rewards: map<string, int>, at: int)

  type Buckets = map<int, map<string, int>>

  datatype Engine = Engine(
    operations: map<string, Operation>, chain: Chain, buckets: Buckets,
    finalizedNumbers: seq<int>, settlements: seq<Settlement>)

  /** Settings that do not change during a run. */
  datatype Setup = Setup(adjuster: Option<Config>, rewards: RewardSettlement.Config)

  /** Events of the outside world during a tick. */
  datatype Modifiers = Modifiers(difficulty: Option<Rational>, reward: Option<Rational>)

  datatype TickResult = NotRegistered | Ticked(activeBlock: int, contribution: int, finalizedBlock: Option<int>)

  function BucketOf(buckets: Buckets, block: int): map<string, int> {
    if block in buckets then buckets[block] else map[]
  }

  /** _add_player_contribution. */
  function Credited(buckets: Buckets, block: int, player: string, amount: int): Buckets {
    if amount <= 0 then buckets
    else
      var bucket := BucketOf(buckets, block);
      buckets[block := bucket[player := Get(bucket, player) + amount]]
  }

  /** events/service.py, apply_reward_multiplier. */
  function ApplyRewardMultiplier(reward: int, event: Option<Rational>): int {
    match event
    case None => reward
    case Some(value) => RoundHalfEven(reward * value.num, value.den)
  }

  function PoolReward(setup: Setup, requiredWork: int, event: Option<Rational>): int {
    ApplyRewardMultiplier(RewardSettlement.ComputeBlockReward(setup.rewards, requiredWork), event)
  }

  /** Work that still fits into the active block. */
  function Room(active: ActiveBlock): int {
    Max(active.requiredWork - active.accumulatedWork, 0)
  }

  /** The part of a contribution that goes to the active block. */
  function OwnPart(active: ActiveBlock, contribution: int): int {
    if active.requiredWork <= active.accumulatedWork + contribution
      then Min(contribution, Room(active)) else contribution
  }

  /** Buckets after crediting one tick, before a finalized block is settled. */
  function AfterCredit(buckets: Buckets, active: ActiveBlock, player: string, contribution: int): Buckets {
    var own := OwnPart(active, contribution);
    Credited(Credited(buckets, active.number, player, own), active.number + 1, player, contribution - own)
  }

  /** What settling the active block posts. */
  ghost function SettlementOf(setup: Setup, active: ActiveBlock, contributions: map<string, int>,
                              work: BlockchainStore.Work, event: Option<Rational>): Settlement {
    var reward := PoolReward(setup, active.requiredWork, event);
    Settlement(active.number, active.requiredWork, active.accumulatedWork + work.contribution, reward,
               contributions, RewardSettlement.Allocation(reward, contributions), work.at)
  }

  /** The locked part of a tick: add the work, credit it, settle the block if it is complete. */
  ghost function Absorb(setup: Setup, e: Engine, player: string, work: BlockchainStore.Work,
                        event: Option<Rational>): Engine {
    var active := e.chain.active;
    var buckets := AfterCredit(e.buckets, active, player, work.contribution);
    var chain := AddWorkStep(setup.adjuster, e.chain, work);
    if active.requiredWork <= active.accumulatedWork + work.contribution then
      e.(chain := chain, buckets := buckets - {active.number},
         finalizedNumbers := e.finalizedNumbers + [active.number],
         settlements := e.settlements + [SettlementOf(setup, active, BucketOf(buckets, active.number), work, event)])
    else
      e.(chain := chain, buckets := buckets)
  }

  /** process_tick. */
  ghost function TickStep(setup: Setup, e: Engine, id: string, end: int, modifiers: Modifiers): Engine {
    if id !in e.operations || end <= e.operations[id].lastProcessedAt then e
    else
      var op := e.operations[id];
      var work := BlockchainStore.Work(Contribution(op, end), end, modifiers.difficulty);
      Absorb(setup, e.(operations := e.operations[id := Advance(op, end)]), op.playerId, work, modifiers.reward)
  }

  ghost function ResultOf(e: Engine, id: string, end: int): TickResult {
    if id !in e.operations then NotRegistered
    else if end <= e.operations[id].lastProcessedAt then Ticked(e.chain.active.number, 0, None)
    else
      var contribution := Contribution(e.operations[id], end);
      var done := e.chain.active.requiredWork <= e.chain.active.accumulatedWork + contribution;
      Ticked(e.chain.active.number, contribution, if done then Some(e.chain.active.number) else None)
  }

  ghost predicate SetupOk(setup: Setup) {
    && 0 <= setup.rewards.baseBlockReward && 0 <= setup.rewards.minimumBlockReward
    && (setup.adjuster.Some? ==> 0 < setup.adjuster.value.minimumRequiredWork)
  }

  ghost predicate RewardEventOk(event: Option<Rational>) {
    event.Some? ==> 0 <= event.value.num
  }

  ghost predicate PositiveBuckets(buckets: Buckets) {
    forall n :: n in buckets ==> PositiveBucket(buckets[n])
  }

  ghost predicate PositiveBucket(bucket: map<string, int>) {
    forall p :: p in bucket ==> 0 < bucket[p]
  }

  lemma PoolRewardNonNegative(setup: Setup, requiredWork: int, event: Option<Rational>)
    requires SetupOk(setup) && RewardEventOk(event)
    ensures 0 <= PoolReward(setup, requiredWork, event)
  {
    var reward := RewardSettlement.ComputeBlockReward(setup.rewards, requiredWork);
    if event.Some? {
      ProductMonotone(0, reward, event.value.num);
      RoundExact(0, event.value.den);
      HalfEvenMonotone(0, reward * event.value.num, event.value.den);
    }
  }

  lemma CreditedPositive(buckets: Buckets, block: int, player: string, amount: int)
    requires PositiveBuckets(buckets)
    ensures PositiveBuckets(Credited(buckets, block, player, amount))
  {
  }

  // ---------------------------------------------------------------- the ledger holds the settlements

  function PoolEntryOf(s: Settlement): PoolEntry {
    PoolEntry(s.block, s.requiredWork, s.totalWork, s.reward, s.at)
  }

  ghost predicate PoolsPosted(entries: seq<PoolEntry>, settlements: seq<Settlement>) {
    && |entries| == |settlements|
    && forall i :: 0 <= i < |settlements| ==> entries[i] == PoolEntryOf(settlements[i])
  }

  /** The player entries are one batch per settlement, in order. */
  ghost predicate PlayersPosted(entries: seq<PlayerEntry>, settlements: seq<Settlement>)
    decreases |settlements|
  {
    if settlements == [] then entries == []
    else
      var last := settlements[|settlements| - 1];
      var k := |entries| - |last.rewards|;
      && 0 <= k
      && Posts(entries[k..], last.block, last.rewards, last.contributions, last.at)
      && PlayersPosted(entries[..k], settlements[..|settlements| - 1])
  }

  lemma {:induction false} BatchPosted(before: seq<PlayerEntry>, after: seq<PlayerEntry>, settlements: seq<Settlement>,
                                       last: Settlement)
    requires PlayersPosted(before, settlements) && before <= after
    requires Posts(after[|before|..], last.block, last.rewards, last.contributions, last.at)
    ensures PlayersPosted(after, settlements + [last])
  {
    assert |after[|before|..]| == |last.rewards|;
    hide PlayersPosted, Posts;
    var all := settlements + [last];
    assert all[..|all| - 1] == settlements;
    assert after[..|before|] == before;
    PlayersPostedStep(after, all, |before|);
  }

  lemma PoolPosted(pools: seq<PoolEntry>, settlements: seq<Settlement>, last: Settlement)
    requires PoolsPosted(pools, settlements)
    ensures PoolsPosted(pools + [PoolEntryOf(last)], settlements + [last])
  {
  }

  lemma PlayersPostedStep(entries: seq<PlayerEntry>, settlements: seq<Settlement>, k: nat)
    requires settlements != [] && k <= |entries|
    requires var last := settlements[|settlements| - 1];
      k == |entries| - |last.rewards| && Posts(entries[k..], last.block, last.rewards, last.contributions, last.at)
    requires PlayersPosted(entries[..k], settlements[..|settlements| - 1])
    ensures PlayersPosted(entries, settlements)
  {
    hide Posts;
  }

  // ---------------------------------------------------------------- the code

  class MiningSimulationService {
    var operations: map<string, Operation>
    var finalizedBlockNumbers: seq<int>
    var blockContributions: Buckets
    ghost var settlements: seq<Settlement>
    const store: InMemoryBlockchainStateStore
    const ledger: NoOpLedgerPoster
    const rewardConfig: RewardSettlement.Config

    ghost function State(): Engine
      reads this, store
    {
      Engine(operations, store.State(), blockContributions, finalizedBlockNumbers, settlements)
    }

    ghost function Settings(): Setup {
      Setup(store.adjuster, rewardConfig)
    }

    ghost predicate Valid()
      reads this, store, ledger
    {
      && SetupOk(Settings())
      && PositiveBuckets(blockContributions)
      && PoolsPosted(ledger.entries, settlements)
      && PlayersPosted(ledger.playerEntries, settlements)
    }

    constructor (requiredWork: int, adjuster: Option<Config>, rewardConfig: RewardSettlement.Config)
      requires SetupOk(Setup(adjuster, rewardConfig))
      ensures Valid() && Settings() == Setup(adjuster, rewardConfig) && fresh(store) && fresh(ledger)
      ensures State() == FreshEngine(requiredWork)
    {
      var newStore := new InMemoryBlockchainStateStore(requiredWork, adjuster);
      var newLedger := new NoOpLedgerPoster();
      store := newStore;
      ledger := newLedger;
      this.rewardConfig := rewardConfig;
      operations := map[];
      finalizedBlockNumbers := [];
      blockContributions := map[];
      settlements := [];
    }

    method RegisterOperation(id: string, player: Option<string>, baseHashrate: Rational, startedAt: int)
      requires Valid()
      modifies this`operations
      ensures Valid() && State() == ActionStep(Settings(), old(State()), Register(id, player, baseHashrate, startedAt))
    {
      hide PositiveBuckets, PlayersPosted, PoolsPosted;
      operations := operations[id := NewOperation(if player.Some? then player.value else id, baseHashrate, startedAt)];
    }

    method StopOperation(id: string) returns (stopped: bool)
      requires Valid()
      modifies this`operations
      ensures Valid() && State() == ActionStep(Settings(), old(State()), Stop(id))
      ensures stopped <==> id in old(operations)
    {
      hide PositiveBuckets, PlayersPosted, PoolsPosted;
      if id !in operations {
        return false;
      }
      operations := operations - {id};
      return true;
    }

    method ApplyBoundaryEvent(id: string, event: BoundaryEvent, at: int) returns (found: bool)
      requires Valid()
      modifies this`operations
      ensures Valid() && State() == ActionStep(Settings(), old(State()), Apply(id, event, at))
      ensures found <==> id in old(operations)
    {
      hide PositiveBuckets, PlayersPosted, PoolsPosted;
      if id !in operations {
        return false;
      }
      operations := operations[id := WithBoundary(operations[id], event, at)];
      return true;
    }

    method AddPlayerContribution(block: int, player: string, amount: int)
      requires PositiveBuckets(blockContributions)
      modifies this`blockContributions
      ensures blockContributions == Credited(old(blockContributions), block, player, amount)
      ensures PositiveBuckets(blockContributions)
    {
      CreditedPositive(blockContributions, block, player, amount);
      if amount <= 0 {
        return;
      }
      var bucket := if block in blockContributions then blockContributions[block] else map[];
      blockContributions := blockContributions[block := bucket[player := Get(bucket, player) + amount]];
    }

    method ProcessTick(id: string, end: int, modifiers: Modifiers) returns (result: TickResult)
      requires Valid() && RewardEventOk(modifiers.reward)
      modifies this, store, ledger
      ensures Valid()
      ensures State() == TickStep(Settings(), old(State()), id, end, modifiers)
      ensures result == ResultOf(old(State()), id, end)
    {
      if id !in operations {
        return NotRegistered;
      }
      var op := operations[id];
      if end <= op.lastProcessedAt {
        return Ticked(store.active.number, 0, None);
      }
      hide Contribution, Advance;
      var after, contribution := TickOperation(op, end);
      operations := operations[id := after];
      result := AbsorbWork(op.playerId, contribution, end, modifiers);
    }

    /** The part of process_tick under the lock. */
    method AbsorbWork(player: string, contribution: int, end: int, modifiers: Modifiers) returns (result: TickResult)
      requires Valid() && RewardEventOk(modifiers.reward)
      modifies this`blockContributions, this`finalizedBlockNumbers, this`settlements, store, ledger
      ensures Valid()
      ensures var work := BlockchainStore.Work(contribution, end, modifiers.difficulty);
        State() == Absorb(Settings(), old(State()), player, work, modifiers.reward)
      ensures var active := old(store.active);
        result == Ticked(active.number, contribution,
                         if active.requiredWork <= active.accumulatedWork + contribution
                           then Some(active.number) else None)
    {
      hide AfterCredit, ComputeNextRequiredWork, PositiveBuckets, PlayersPosted, PoolsPosted;
      var activeBefore := store.active;
      var workRemaining := Max(activeBefore.requiredWork - activeBefore.accumulatedWork, 0);
      var outcome := store.AddWork(contribution, end, modifiers.difficulty);
      var finalizedContribution := contribution;
      if outcome.finalizedNumber.Some? {
        finalizedContribution := Min(contribution, workRemaining);
      }
      CreditTick(activeBefore, player, contribution, finalizedContribution);
      if outcome.finalizedNumber.Some? {
        Settle(activeBefore, outcome, end, modifiers);
      }
      result := Ticked(outcome.activeBefore, contribution, outcome.finalizedNumber);
    }

    /** Crediting one tick to the active block and, for what did not fit, to the next one. */
    method CreditTick(active: ActiveBlock, player: string, contribution: int, own: int)
      requires PositiveBuckets(blockContributions) && own == OwnPart(active, contribution)
      modifies this`blockContributions
      ensures blockContributions == AfterCredit(old(blockContributions), active, player, contribution)
      ensures PositiveBuckets(blockContributions)
    {
      hide Credited, PositiveBuckets;
      AddPlayerContribution(active.number, player, own);
      NothingToCredit(blockContributions, active.number + 1, player, contribution - own);
      if contribution - own > 0 {
        AddPlayerContribution(active.number + 1, player, contribution - own);
      }
    }

    /** Paying out a finalized block. */
    method Settle(active: ActiveBlock, outcome: AddWorkOutcome, end: int, modifiers: Modifiers)
      requires Valid() && RewardEventOk(modifiers.reward)
      requires outcome.finalizedNumber == Some(active.number) && outcome.requiredWork == active.requiredWork
      requires outcome.totalWork.Some?
      modifies this`blockContributions, this`finalizedBlockNumbers, this`settlements, ledger
      ensures Valid()
      ensures blockContributions == old(blockContributions) - {active.number}
      ensures finalizedBlockNumbers == old(finalizedBlockNumbers) + [active.number]
      ensures var contribution := outcome.totalWork.value - active.accumulatedWork;
        var work := BlockchainStore.Work(contribution, end, modifiers.difficulty);
        settlements == old(settlements)
          + [SettlementOf(Settings(), active, BucketOf(old(blockContributions), active.number), work, modifiers.reward)]
    {
      hide PlayersPosted, PoolsPosted, Posts, PositiveBucket, RewardSettlement.Allocation;
      var block := outcome.finalizedNumber.value;
      finalizedBlockNumbers := finalizedBlockNumbers + [block];
      var contributions := if block in blockContributions then blockContributions[block] else map[];
      ghost var bucketsBefore := blockContributions;
      blockContributions := blockContributions - {block};
      var reward := RewardSettlement.ComputeBlockReward(rewardConfig, outcome.requiredWork);
      PoolRewardNonNegative(Settings(), outcome.requiredWork, modifiers.reward);
      reward := ApplyRewardMultiplier(reward, modifiers.reward);
      BucketNonNegative(bucketsBefore, block);
      var rewards := RewardSettlement.AllocatePlayerRewards(reward, contributions);
      ghost var poolsBefore := ledger.entries;
      ledger.PostBlockFinalization(block, outcome.requiredWork, outcome.totalWork.value, reward, end);
      ghost var before := ledger.playerEntries;
      ledger.PostPlayerRewardEntries(block, rewards, contributions, end);
      ghost var settled :=
        Settlement(block, outcome.requiredWork, outcome.totalWork.value, reward, contributions, rewards, end);
      BatchPosted(before, ledger.playerEntries, settlements, settled);
      PoolPosted(poolsBefore, settlements, settled);
      settlements := settlements + [settled];
    }
  }

  lemma BucketNonNegative(buckets: Buckets, block: int)
    requires PositiveBuckets(buckets)
    ensures RewardSettlement.NonNegative(BucketOf(buckets, block))
  {
  }

  lemma NothingToCredit(buckets: Buckets, block: int, player: string, amount: int)
    ensures amount <= 0 ==> Credited(buckets, block, player, amount) == buckets
  {
  }

  ghost function FreshEngine(requiredWork: int): Engine {
    Engine(map[], FreshChain(requiredWork), map[], [], [])
  }

  // ---------------------------------------------------------------- whole runs

  datatype Action =
    | Register(id: string, player: Option<string>, baseHashrate: Rational, startedAt: int)
    | Stop(id: string)
    | Apply(id: string, event: BoundaryEvent, at: int)
    | Tick(id: string, end: int, modifiers: Modifiers)

  ghost function ActionStep(setup: Setup, e: Engine, a: Action): Engine {
    match a
    case Register(id, player, baseHashrate, startedAt) =>
      e.(operations :=
        e.operations[id := NewOperation(if player.Some? then player.value else id, baseHashrate, startedAt)])
    case Stop(id) => e.(operations := e.operations - {id})
    case Apply(id, event, at) =>
      if id in e.operations then e.(operations := e.operations[id := WithBoundary(e.operations[id], event, at)]) else e
    case Tick(id, end, modifiers) => TickStep(setup, e, id, end, modifiers)
  }

  ghost function RunActions(setup: Setup, e: Engine, actions: seq<Action>): Engine {
    if actions == [] then e
    else ActionStep(setup, RunActions(setup, e, actions[..|actions| - 1]), actions[|actions| - 1])
  }

  /** Hashrates and multipliers are not negative; reward events neither. */
  ghost predicate Benign(a: Action) {
    match a
    case Register(_, _, baseHashrate, _) => 0 <= baseHashrate.num
    case Stop(_) => true
    case Apply(_, event, _) =>
      event.StateChanged? && event.multiplier.Some? ==> 0 <= Value(event.multiplier.value).num
    case Tick(_, _, modifiers) => RewardEventOk(modifiers.reward)
  }

  ghost function SettledTotal(settlements: seq<Settlement>): int {
    if settlements == [] then 0
    else SettledTotal(settlements[..|settlements| - 1]) + Sum(settlements[|settlements| - 1].contributions)
  }

  /** Contributions waiting for the active block. */
  ghost function Pending(e: Engine): int {
    Sum(BucketOf(e.buckets, e.chain.active.number))
  }

  /** Settlement i belongs to finalized block i and pays a correct allocation. */
  ghost predicate Recorded(e: Engine) {
    && |e.settlements| == |e.chain.finalized| == |e.finalizedNumbers|
    && forall i :: 0 <= i < |e.settlements| ==>
      var s, block := e.settlements[i], e.chain.finalized[i];
      && e.finalizedNumbers[i] == i + 1 == s.block
      && s.requiredWork == block.requiredWork && s.totalWork == block.totalWork
      && PositiveBucket(s.contributions) && 0 <= s.reward
      && s.rewards == RewardSettlement.Allocation(s.reward, s.contributions)
  }

  /** What every state of every run satisfies. */
  ghost predicate Inv(e: Engine) {
    && Numbered(e.chain) && Met(e.chain)
    && PositiveBuckets(e.buckets)
    && e.buckets.Keys <= {e.chain.active.number}
    && SettledTotal(e.settlements) + Pending(e) == Accounted(e.chain)
    && Pending(e) <= e.chain.active.accumulatedWork
    && Recorded(e)
  }

  lemma CreditedTotal(buckets: Buckets, block: int, player: string, amount: int, other: int)
    requires 0 <= amount
    ensures Sum(BucketOf(Credited(buckets, block, player, amount), other))
      == Sum(BucketOf(buckets, other)) + (if other == block then amount else 0)
  {
    hide Sum;
    if 0 < amount && other == block {
      SumUpdate(BucketOf(buckets, block), player, Get(BucketOf(buckets, block), player) + amount);
    }
  }

  /** What one tick's contribution does to the pending contributions of each block. */
  lemma CreditSplits(buckets: Buckets, active: ActiveBlock, player: string, contribution: int)
    requires 0 <= contribution && PositiveBuckets(buckets)
    ensures var after, own := AfterCredit(buckets, active, player, contribution), OwnPart(active, contribution);
      && 0 <= own <= contribution
      && Sum(BucketOf(after, active.number)) == Sum(BucketOf(buckets, active.number)) + own
      && Sum(BucketOf(after, active.number + 1)) == Sum(BucketOf(buckets, active.number + 1)) + contribution - own
      && PositiveBuckets(after)
      && after.Keys <= buckets.Keys + {active.number, active.number + 1}
      && (own == contribution ==> after.Keys <= buckets.Keys + {active.number})
  {
    var own := OwnPart(active, contribution);
    var first := Credited(buckets, active.number, player, own);
    CreditedTotal(buckets, active.number, player, own, active.number);
    CreditedTotal(buckets, active.number, player, own, active.number + 1);
    CreditedTotal(first, active.number + 1, player, contribution - own, active.number);
    CreditedTotal(first, active.number + 1, player, contribution - own, active.number + 1);
    hide Sum;
    CreditedPositive(buckets, active.number, player, own);
    CreditedPositive(first, active.number + 1, player, contribution - own);
  }

  lemma SettledAppend(settlements: seq<Settlement>, s: Settlement)
    ensures SettledTotal(settlements + [s]) == SettledTotal(settlements) + Sum(s.contributions)
  {
    assert (settlements + [s])[..|settlements|] == settlements;
  }

  lemma EmptyBucketTotal(buckets: Buckets, block: int)
    requires block !in buckets
    ensures Sum(BucketOf(buckets, block)) == 0
  {
  }

  /** Completing a block settles what was pending plus the part that fitted; the rest waits for the next. */
  lemma {:induction false} AbsorbTotals(setup: Setup, e: Engine, player: string, work: BlockchainStore.Work,
                                        event: Option<Rational>)
    requires Inv(e) && 0 <= work.contribution
    ensures var e', active := Absorb(setup, e, player, work, event), e.chain.active;
      var own := OwnPart(active, work.contribution);
      if active.requiredWork <= active.accumulatedWork + work.contribution then
        && |e'.settlements| == |e.settlements| + 1
        && Sum(e'.settlements[|e.settlements|].contributions) == Pending(e) + own
        && Pending(e') == work.contribution - own
      else Pending(e') == Pending(e) + work.contribution && e'.settlements == e.settlements
  {
    var active := e.chain.active;
    hide ComputeNextRequiredWork;
    CreditSplits(e.buckets, active, player, work.contribution);
    EmptyBucketTotal(e.buckets, active.number + 1);
    hide Sum, AfterCredit, SettlementOf;
    var buckets := AfterCredit(e.buckets, active, player, work.contribution);
    assert BucketOf(buckets - {active.number}, active.number + 1) == BucketOf(buckets, active.number + 1);
    SettlementContributions(setup, active, BucketOf(buckets, active.number), work, event);
  }

  lemma SettlementContributions(setup: Setup, active: ActiveBlock, contributions: map<string, int>,
                                       work: BlockchainStore.Work, event: Option<Rational>)
    ensures SettlementOf(setup, active, contributions, work, event).contributions == contributions
  {
  }

  lemma {:induction false} AbsorbKeepsRecords(setup: Setup, e: Engine, player: string, work: BlockchainStore.Work,
                                              event: Option<Rational>)
    requires Inv(e) && 0 <= work.contribution && SetupOk(setup) && RewardEventOk(event)
    ensures Recorded(Absorb(setup, e, player, work, event))
  {
    var active := e.chain.active;
    CreditSplits(e.buckets, active, player, work.contribution);
    var buckets := AfterCredit(e.buckets, active, player, work.contribution);
    hide Sum, AfterCredit, Recorded;
    if active.requiredWork <= active.accumulatedWork + work.contribution {
      BucketPositive(buckets, active.number);
      PoolRewardNonNegative(setup, active.requiredWork, event);
      CompletionRecorded(setup, e, BucketOf(buckets, active.number), player, work, event);
    } else {
      NothingRecorded(setup, e, player, work, event);
    }
  }

  lemma BucketPositive(buckets: Buckets, block: int)
    requires PositiveBuckets(buckets)
    ensures PositiveBucket(BucketOf(buckets, block))
  {
  }

  lemma NothingRecorded(setup: Setup, e: Engine, player: string, work: BlockchainStore.Work, event: Option<Rational>)
    requires Recorded(e) && e.chain.active.accumulatedWork + work.contribution < e.chain.active.requiredWork
    ensures Recorded(Absorb(setup, e, player, work, event))
  {
    hide AfterCredit, RewardSettlement.Allocation;
  }

  /** The settlement of a completed block is recorded next to its block. */
  lemma {:induction false} CompletionRecorded(setup: Setup, e: Engine, contributions: map<string, int>, player: string,
                                              work: BlockchainStore.Work, event: Option<Rational>)
    requires Recorded(e) && Numbered(e.chain) && PositiveBucket(contributions)
    requires e.chain.active.requiredWork <= e.chain.active.accumulatedWork + work.contribution
    requires contributions
      == BucketOf(AfterCredit(e.buckets, e.chain.active, player, work.contribution), e.chain.active.number)
    requires 0 <= PoolReward(setup, e.chain.active.requiredWork, event)
    ensures Recorded(Absorb(setup, e, player, work, event))
  {
    var s := SettlementOf(setup, e.chain.active, contributions, work, event);
    AbsorbAppends(setup, e, player, work, event);
    SettlementFields(setup, e.chain.active, contributions, work, event);
    var after := Absorb(setup, e, player, work, event);
    assert after.settlements == e.settlements + [s];
    assert after.finalizedNumbers == e.finalizedNumbers + [e.chain.active.number];
    hide Absorb, SettlementOf, PoolReward, RewardSettlement.Allocation, BucketOf, AfterCredit;
  }

  lemma SettlementFields(setup: Setup, active: ActiveBlock, contributions: map<string, int>, work: BlockchainStore.Work,
                         event: Option<Rational>)
    ensures var s := SettlementOf(setup, active, contributions, work, event);
      && s.block == active.number && s.requiredWork == active.requiredWork && s.contributions == contributions
      && s.totalWork == active.accumulatedWork + work.contribution
      && s.reward == PoolReward(setup, active.requiredWork, event)
      && s.rewards == RewardSettlement.Allocation(s.reward, contributions)
  {
  }

  lemma AbsorbKeepsBuckets(setup: Setup, e: Engine, player: string, work: BlockchainStore.Work, event: Option<Rational>)
    requires PositiveBuckets(e.buckets) && e.buckets.Keys <= {e.chain.active.number} && 0 <= work.contribution
    ensures var after := Absorb(setup, e, player, work, event);
      PositiveBuckets(after.buckets) && after.buckets.Keys <= {after.chain.active.number}
  {
    CreditSplits(e.buckets, e.chain.active, player, work.contribution);
    hide Sum, AfterCredit, ComputeNextRequiredWork, SettlementOf;
  }

  lemma AbsorbKeepsChain(setup: Setup, e: Engine, player: string, work: BlockchainStore.Work, event: Option<Rational>)
    requires Numbered(e.chain) && Met(e.chain) && 0 <= work.contribution && SetupOk(setup)
    ensures var after := Absorb(setup, e, player, work, event);
      Numbered(after.chain) && Met(after.chain) && Accounted(after.chain) == Accounted(e.chain) + work.contribution
  {
    StepKeepsWork(setup.adjuster, e.chain, work);
    StepKeepsMet(setup.adjuster, e.chain, work);
    hide AfterCredit, AddWorkStep, SettlementOf, Numbered, Met, Accounted;
  }

  lemma {:induction false} AbsorbKeepsInv(setup: Setup, e: Engine, player: string, work: BlockchainStore.Work,
                                          event: Option<Rational>)
    requires Inv(e) && 0 <= work.contribution && SetupOk(setup) && RewardEventOk(event)
    ensures Inv(Absorb(setup, e, player, work, event))
    ensures Accounted(Absorb(setup, e, player, work, event).chain) == Accounted(e.chain) + work.contribution
  {
    AbsorbKeepsChain(setup, e, player, work, event);
    AbsorbKeepsBuckets(setup, e, player, work, event);
    AbsorbKeepsRecords(setup, e, player, work, event);
    AbsorbKeepsTotals(setup, e, player, work, event);
    hide Absorb, Sum, Recorded, Met, Numbered, Accounted, Pending, PositiveBuckets, SettledTotal;
  }

  /** Settled and pending contributions together grow by exactly the new work. */
  lemma {:induction false} AbsorbKeepsTotals(setup: Setup, e: Engine, player: string, work: BlockchainStore.Work,
                                             event: Option<Rational>)
    requires Inv(e) && 0 <= work.contribution
    ensures var after := Absorb(setup, e, player, work, event);
      && SettledTotal(after.settlements) + Pending(after)
        == SettledTotal(e.settlements) + Pending(e) + work.contribution
      && Pending(after) <= after.chain.active.accumulatedWork
  {
    OwnPartBounds(e.chain.active, work.contribution);
    AbsorbTotals(setup, e, player, work, event);
    AbsorbAppends(setup, e, player, work, event);
    hide Absorb, Sum, Recorded, Met, Numbered, Accounted, Pending, PositiveBuckets, SettledTotal, OwnPart;
    var after := Absorb(setup, e, player, work, event);
    if |e.settlements| < |after.settlements| {
      SettledAppend(e.settlements, after.settlements[|e.settlements|]);
    }
  }

  /** Whatever goes to the next block is carried over by the chain as well. */
  lemma OwnPartBounds(active: ActiveBlock, contribution: int)
    requires 0 <= contribution
    ensures active.requiredWork <= active.accumulatedWork + contribution ==>
      contribution - OwnPart(active, contribution) <= active.accumulatedWork + contribution - active.requiredWork
  {
  }

  ghost predicate OperationsOk(e: Engine) {
    forall id :: id in e.operations ==> NonNegativeRates(e.operations[id])
  }

  lemma BoundaryNonNegative(op: Operation, event: BoundaryEvent, at: int)
    requires NonNegativeRates(op)
    requires event.StateChanged? && event.multiplier.Some? ==> 0 <= Value(event.multiplier.value).num
    ensures NonNegativeRates(WithBoundary(op, event, at))
  {
    hide Value;
  }

  lemma NewOperationNonNegative(player: string, baseHashrate: Rational, startedAt: int)
    requires 0 <= baseHashrate.num
    ensures NonNegativeRates(NewOperation(player, baseHashrate, startedAt))
  {
    PlainMultiplier();
  }

  /** Every action of a benign run keeps the invariant. */
  lemma {:induction false} ActionKeepsInv(setup: Setup, e: Engine, a: Action)
    requires Inv(e) && OperationsOk(e) && SetupOk(setup) && Benign(a)
    ensures Inv(ActionStep(setup, e, a)) && OperationsOk(ActionStep(setup, e, a))
  {
    hide Value, Inv;
    var after := ActionStep(setup, e, a);
    match a
    case Register(id, player, baseHashrate, startedAt) =>
      NewOperationNonNegative(if player.Some? then player.value else id, baseHashrate, startedAt);
      SameInv(e, after);
    case Stop(id) =>
      SameInv(e, after);
    case Apply(id, event, at) =>
      SameInv(e, after);
      if id in e.operations {
        BoundaryNonNegative(e.operations[id], event, at);
      }
    case Tick(id, end, modifiers) =>
      if id in e.operations && e.operations[id].lastProcessedAt < end {
        var op := e.operations[id];
        TickNonNegative(op, end);
        hide Contribution, Advance, Absorb;
        var work := BlockchainStore.Work(Contribution(op, end), end, modifiers.difficulty);
        var ready := e.(operations := e.operations[id := Advance(op, end)]);
        SameInv(e, ready);
        AbsorbKeepsInv(setup, ready, op.playerId, work, modifiers.reward);
        AbsorbKeepsOperations(setup, ready, op.playerId, work, modifiers.reward);
      }
  }

  lemma AbsorbKeepsOperations(setup: Setup, e: Engine, player: string, work: BlockchainStore.Work,
                              event: Option<Rational>)
    ensures Absorb(setup, e, player, work, event).operations == e.operations
  {
  }

  lemma FreshInv(requiredWork: int)
    requires 0 < requiredWork
    ensures Inv(FreshEngine(requiredWork)) && OperationsOk(FreshEngine(requiredWork))
  {
  }

  /** In every reachable state only the active block has a bucket, settled plus pending contributions equal
  all work the chain accounts for, and pending never exceeds the accumulated work. */
  lemma {:induction false} RunKeepsInv(setup: Setup, requiredWork: int, actions: seq<Action>)
    requires SetupOk(setup) && 0 < requiredWork
    requires forall i :: 0 <= i < |actions| ==> Benign(actions[i])
    ensures Inv(RunActions(setup, FreshEngine(requiredWork), actions))
    ensures OperationsOk(RunActions(setup, FreshEngine(requiredWork), actions))
  {
    hide Inv, OperationsOk;
    FreshInv(requiredWork);
    if actions != [] {
      RunKeepsInv(setup, requiredWork, actions[..|actions| - 1]);
      ActionKeepsInv(setup, RunActions(setup, FreshEngine(requiredWork), actions[..|actions| - 1]),
                     actions[|actions| - 1]);
    }
  }

  /** The work that one action adds. */
  ghost function WorkOf(e: Engine, a: Action): int {
    if a.Tick? && a.id in e.operations then Contribution(e.operations[a.id], a.end) else 0
  }

  ghost function WorkOfRun(setup: Setup, e: Engine, actions: seq<Action>): int {
    if actions == [] then 0
    else
      var before := actions[..|actions| - 1];
      WorkOfRun(setup, e, before) + WorkOf(RunActions(setup, e, before), actions[|actions| - 1])
  }

  lemma ActionAddsWork(setup: Setup, e: Engine, a: Action)
    requires Inv(e) && OperationsOk(e) && SetupOk(setup) && Benign(a)
    ensures Accounted(ActionStep(setup, e, a).chain) == Accounted(e.chain) + WorkOf(e, a)
  {
    hide Inv, Value, Accounted, NonNegativeRates;
    if a.Tick? && a.id in e.operations {
      var op := e.operations[a.id];
      TickNonNegative(op, a.end);
      if op.lastProcessedAt < a.end {
        var ready := e.(operations := e.operations[a.id := Advance(op, a.end)]);
        SameInv(e, ready);
        hide Contribution, Advance, Absorb;
        var work := BlockchainStore.Work(Contribution(op, a.end), a.end, a.modifiers.difficulty);
        AbsorbKeepsInv(setup, ready, op.playerId, work, a.modifiers.reward);
      }
    }
  }

  /** Over every run, what the blocks met plus what is in progress, and likewise what was settled plus what is
  pending, is exactly the work that all ticks of the run contributed. */
  lemma {:induction false} RunConservesWork(setup: Setup, requiredWork: int, actions: seq<Action>)
    requires SetupOk(setup) && 0 < requiredWork
    requires forall i :: 0 <= i < |actions| ==> Benign(actions[i])
    ensures var e := RunActions(setup, FreshEngine(requiredWork), actions);
      var done := WorkOfRun(setup, FreshEngine(requiredWork), actions);
      Accounted(e.chain) == done && SettledTotal(e.settlements) + Pending(e) == done
  {
    RunKeepsInv(setup, requiredWork, actions);
    hide SettledTotal, Pending, OperationsOk, Benign;
    if actions != [] {
      var before := actions[..|actions| - 1];
      RunConservesWork(setup, requiredWork, before);
      RunKeepsInv(setup, requiredWork, before);
      ActionAddsWork(setup, RunActions(setup, FreshEngine(requiredWork), before), actions[|actions| - 1]);
      hide Accounted;
    }
  }

  // ---------------------------------------------------------------- exact settlement

  /** The residual that the last finalized block left to the active one. */
  ghost function Opening(chain: Chain): int {
    if chain.finalized == [] then 0
    else
      var last := chain.finalized[|chain.finalized| - 1];
      last.totalWork - last.requiredWork
  }

  /** No residual exceeds the requirement of the (finalized) block it was carried into. */
  ghost predicate NoOverCarry(blocks: seq<FinalizedBlock>) {
    forall i :: 0 <= i < |blocks| - 1 ==> blocks[i].totalWork - blocks[i].requiredWork <= blocks[i + 1].requiredWork
  }

  /** Every settled block's contributions sum to exactly its requirement. */
  ghost predicate ExactlySettled(settlements: seq<Settlement>) {
    forall i :: 0 <= i < |settlements| ==> Sum(settlements[i].contributions) == settlements[i].requiredWork
  }

  ghost predicate CarryInv(e: Engine) {
    && Inv(e)
    // the active block holds just its opening residual, or less than it requires
    && Opening(e.chain) <= e.chain.active.accumulatedWork
    && (e.chain.active.accumulatedWork == Opening(e.chain)
        || e.chain.active.accumulatedWork < e.chain.active.requiredWork)
    && (NoOverCarry(e.chain.finalized) ==> Pending(e) == e.chain.active.accumulatedWork)
    && (NoOverCarry(e.chain.finalized) <==> ExactlySettled(e.settlements))
  }

  lemma NoOverCarryAppend(chain: Chain, next: FinalizedBlock)
    requires 0 <= next.requiredWork
    ensures NoOverCarry(chain.finalized + [next])
      <==> NoOverCarry(chain.finalized) && Opening(chain) <= next.requiredWork
  {
    var blocks := chain.finalized + [next];
    if NoOverCarry(blocks) {
      forall i | 0 <= i < |chain.finalized| - 1
        ensures chain.finalized[i].totalWork - chain.finalized[i].requiredWork <= chain.finalized[i + 1].requiredWork
      {
        assert blocks[i] == chain.finalized[i] && blocks[i + 1] == chain.finalized[i + 1];
      }
      if chain.finalized != [] {
        assert blocks[|chain.finalized| - 1] == chain.finalized[|chain.finalized| - 1];
        assert blocks[|chain.finalized| - 1 + 1] == next;
      }
    }
  }

  lemma ExactlySettledAppend(settlements: seq<Settlement>, s: Settlement)
    ensures ExactlySettled(settlements + [s])
      <==> ExactlySettled(settlements) && Sum(s.contributions) == s.requiredWork
  {
    var all := settlements + [s];
    assert all[|settlements|] == s;
    assert forall i :: 0 <= i < |settlements| ==> all[i] == settlements[i];
  }

  lemma {:induction false} AbsorbKeepsCarry(setup: Setup, e: Engine, player: string, work: BlockchainStore.Work,
                                            event: Option<Rational>)
    requires CarryInv(e) && 0 <= work.contribution && SetupOk(setup) && RewardEventOk(event)
    ensures CarryInv(Absorb(setup, e, player, work, event))
  {
    AbsorbKeepsInv(setup, e, player, work, event);
    ActivePositive(e);
    var active, after := e.chain.active, Absorb(setup, e, player, work, event);
    if active.requiredWork <= active.accumulatedWork + work.contribution {
      AbsorbCompletes(setup, e, player, work, event);
      hide Completed, CarryInv, Inv, Absorb, Pending;
      CompletionKeepsCarry(e, after, work.contribution);
    } else {
      AbsorbTotals(setup, e, player, work, event);
      AbsorbAppends(setup, e, player, work, event);
      hide Inv, Sum, Absorb, Pending, ExactlySettled, NoOverCarry, Opening;
      SameOpening(e.chain, after.chain);
    }
  }

  lemma ActivePositive(e: Engine)
    requires Inv(e)
    ensures 0 < e.chain.active.requiredWork && Pending(e) <= e.chain.active.accumulatedWork
  {
  }

  /** after follows e by a contribution that completed the active block: what was settled, what is pending, and what the
  chain recorded. */
  ghost predicate Completed(e: Engine, after: Engine, contribution: int) {
    var active, n, k := e.chain.active, |e.chain.finalized|, |e.settlements|;
    var own := OwnPart(active, contribution);
    && active.requiredWork <= active.accumulatedWork + contribution
    && |after.chain.finalized| == n + 1 && |after.settlements| == k + 1
    && after.chain.finalized == e.chain.finalized + [after.chain.finalized[n]]
    && after.chain.finalized[n].requiredWork == active.requiredWork
    && after.chain.finalized[n].totalWork == active.accumulatedWork + contribution
    && after.settlements == e.settlements + [after.settlements[k]]
    && after.settlements[k].requiredWork == active.requiredWork
    && Sum(after.settlements[k].contributions) == Pending(e) + own
    && Pending(after) == contribution - own
    && after.chain.active.accumulatedWork == active.accumulatedWork + contribution - active.requiredWork
  }

  lemma {:induction false} AbsorbCompletes(setup: Setup, e: Engine, player: string, work: BlockchainStore.Work,
                                           event: Option<Rational>)
    requires Inv(e) && 0 <= work.contribution
    requires e.chain.active.requiredWork <= e.chain.active.accumulatedWork + work.contribution
    ensures Completed(e, Absorb(setup, e, player, work, event), work.contribution)
  {
    AbsorbTotals(setup, e, player, work, event);
    AbsorbAppends(setup, e, player, work, event);
    hide Inv, Sum, Absorb, Pending, OwnPart;
  }

  /** The carry relations after a completed block. */
  lemma {:induction false} CompletionKeepsCarry(e: Engine, after: Engine, contribution: int)
    requires CarryInv(e) && Inv(after) && 0 <= contribution && 0 < e.chain.active.requiredWork
    requires Pending(e) <= e.chain.active.accumulatedWork && Completed(e, after, contribution)
    ensures CarryInv(after)
  {
    hide Inv, Sum, Pending, ExactlySettled, NoOverCarry, Opening;
    NoOverCarryAppend(e.chain, after.chain.finalized[|e.chain.finalized|]);
    ExactlySettledAppend(e.settlements, after.settlements[|e.settlements|]);
    OpeningAppend(e.chain.finalized, after.chain);
  }

  lemma OpeningAppend(before: seq<FinalizedBlock>, chain: Chain)
    requires |chain.finalized| == |before| + 1
    ensures Opening(chain) == chain.finalized[|before|].totalWork - chain.finalized[|before|].requiredWork
  {
  }

  lemma SameOpening(before: Chain, after: Chain)
    requires before.finalized == after.finalized
    ensures Opening(before) == Opening(after)
  {
  }

  /** The shape of the state after a contribution. */
  lemma AbsorbAppends(setup: Setup, e: Engine, player: string, work: BlockchainStore.Work, event: Option<Rational>)
    ensures var after, active := Absorb(setup, e, player, work, event), e.chain.active;
      var total := active.accumulatedWork + work.contribution;
      if active.requiredWork <= total then
        && |after.chain.finalized| == |e.chain.finalized| + 1 && |after.settlements| == |e.settlements| + 1
        && after.chain.finalized == e.chain.finalized + [after.chain.finalized[|e.chain.finalized|]]
        && after.chain.finalized[|e.chain.finalized|]
          == FinalizedBlock(active.number, active.requiredWork, total, work.at)
        && after.settlements == e.settlements + [after.settlements[|e.settlements|]]
        && after.settlements[|e.settlements|].requiredWork == active.requiredWork
        && after.chain.active.accumulatedWork == total - active.requiredWork
      else
        && after.chain.finalized == e.chain.finalized && after.settlements == e.settlements
        && after.chain.active == active.(accumulatedWork := total)
  {
    hide AfterCredit, ComputeNextRequiredWork, Sum;
  }

  lemma {:induction false} ActionKeepsCarry(setup: Setup, e: Engine, a: Action)
    requires CarryInv(e) && OperationsOk(e) && SetupOk(setup) && Benign(a)
    ensures CarryInv(ActionStep(setup, e, a))
  {
    ActionKeepsInv(setup, e, a);
    hide Inv, Value, Opening, NoOverCarry, ExactlySettled;
    if a.Tick? && a.id in e.operations && e.operations[a.id].lastProcessedAt < a.end {
      var op := e.operations[a.id];
      TickNonNegative(op, a.end);
      var ready := e.(operations := e.operations[a.id := Advance(op, a.end)]);
      SameInv(e, ready);
      hide Contribution, Advance, Absorb;
      var work := BlockchainStore.Work(Contribution(op, a.end), a.end, a.modifiers.difficulty);
      AbsorbKeepsCarry(setup, ready, op.playerId, work, a.modifiers.reward);
    }
  }

  lemma SameInv(e: Engine, ready: Engine)
    requires Inv(e) && ready == e.(operations := ready.operations)
    ensures Inv(ready)
  {
  }

  lemma {:induction false} RunKeepsCarry(setup: Setup, requiredWork: int, actions: seq<Action>)
    requires SetupOk(setup) && 0 < requiredWork
    requires forall i :: 0 <= i < |actions| ==> Benign(actions[i])
    ensures CarryInv(RunActions(setup, FreshEngine(requiredWork), actions))
  {
    FreshInv(requiredWork);
    if actions == [] {
      assert BucketOf(map[], 1) == map[];
    } else {
      hide CarryInv, Inv, OperationsOk;
      var before := actions[..|actions| - 1];
      RunKeepsInv(setup, requiredWork, before);
      RunKeepsCarry(setup, requiredWork, before);
      ActionKeepsCarry(setup, RunActions(setup, FreshEngine(requiredWork), before), actions[|actions| - 1]);
    }
  }

  /** In every run of one service, all settled blocks credit exactly the work they required if and only if no
  residual was larger than the requirement of the block it was carried into. */
  lemma {:induction false} SettlementExactness(setup: Setup, requiredWork: int, actions: seq<Action>)
    requires SetupOk(setup) && 0 < requiredWork
    requires forall i :: 0 <= i < |actions| ==> Benign(actions[i])
    ensures var e := RunActions(setup, FreshEngine(requiredWork), actions);
      ExactlySettled(e.settlements) <==> NoOverCarry(e.chain.finalized)
  {
    hide Inv;
    RunKeepsCarry(setup, requiredWork, actions);
  }

  /** A completion that began with no more than the block required leaves every unit of carried work credited. */
  lemma CompletionRestoresCredit(setup: Setup, e: Engine, player: string, work: BlockchainStore.Work,
                                 event: Option<Rational>)
    requires Inv(e) && 0 <= work.contribution
    requires e.chain.active.accumulatedWork <= e.chain.active.requiredWork
      <= e.chain.active.accumulatedWork + work.contribution
    ensures var after := Absorb(setup, e, player, work, event);
      Pending(after) == after.chain.active.accumulatedWork
  {
    AbsorbTotals(setup, e, player, work, event);
    AbsorbAppends(setup, e, player, work, event);
    hide Inv, Absorb, Sum;
  }

  // ---------------------------------------------------------------- rewards

  /** A settled block pays its pool to the last unit exactly when somebody contributed to it, or the pool is
  empty; otherwise nobody is paid. */
  lemma SettlementPaysPool(s: Settlement)
    requires PositiveBucket(s.contributions) && 0 <= s.reward
    requires s.rewards == RewardSettlement.Allocation(s.reward, s.contributions)
    ensures Sum(s.rewards) == if s.contributions != map[] then s.reward else 0
  {
    RewardSettlement.AllocationConserves(s.reward, s.contributions);
    if s.contributions != map[] {
      var p :| p in s.contributions;
      SumNonNegative(s.contributions);
    }
  }

  lemma {:induction false} LedgerPays(entries: seq<PlayerEntry>, settlements: seq<Settlement>, block: int)
    requires PlayersPosted(entries, settlements)
    requires forall i :: 0 <= i < |settlements| ==> settlements[i].block == i + 1
    ensures PaidFor(entries, block)
      == if 1 <= block <= |settlements| then Sum(settlements[block - 1].rewards) else 0
    decreases |settlements|
  {
    hide Sum;
    if settlements != [] {
      var n := |settlements| - 1;
      var last := settlements[n];
      var k := |entries| - |last.rewards|;
      LedgerPays(entries[..k], settlements[..n], block);
      PostsPaid(entries[k..], last.block, last.rewards, last.contributions, last.at, block);
      assert entries == entries[..k] + entries[k..];
      PaidForAppend(entries[..k], entries[k..], block);
    }
  }

  /** For every block of every run, the player entries in the ledger sum to the pool posted for it, provided
  anyone contributed; otherwise they sum to zero. */
  lemma {:induction false} LedgerBalances(setup: Setup, requiredWork: int, actions: seq<Action>,
                       pools: seq<PoolEntry>, players: seq<PlayerEntry>, i: nat)
    requires SetupOk(setup) && 0 < requiredWork
    requires forall i :: 0 <= i < |actions| ==> Benign(actions[i])
    requires var e := RunActions(setup, FreshEngine(requiredWork), actions);
      PoolsPosted(pools, e.settlements) && PlayersPosted(players, e.settlements) && i < |e.settlements|
    ensures var s := RunActions(setup, FreshEngine(requiredWork), actions).settlements[i];
      && pools[i].block == i + 1 && pools[i].reward == s.reward
      && PaidFor(players, i + 1) == if s.contributions != map[] then pools[i].reward else 0
  {
    var e := RunActions(setup, FreshEngine(requiredWork), actions);
    RunKeepsInv(setup, requiredWork, actions);
    hide RunActions, Sum, RewardSettlement.Allocation;
    SettlementPaysPool(e.settlements[i]);
    LedgerPays(players, e.settlements, i + 1);
  }
}
