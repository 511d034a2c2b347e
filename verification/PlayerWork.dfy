/** Who is credited and paid (server/domain/mining/service.py): the work of an operation goes to the player it was
registered for, and to nobody else. */
module PlayerWork {
  import opened Numbers
  import opened Totals
  import opened Difficulty
  import opened BlockchainStore
  import opened Ledger
  import opened MiningOperation
  import opened MiningService
  import RewardSettlement

  /** The player for whom an operation is registered after a series of actions: that of its last registration, or the
  operation's own id where none was given, unless it was stopped since. */
  ghost function RegisteredFor(actions: seq<Action>, id: string): Option<string> {
    if actions == [] then None
    else
      var before, last := actions[..|actions| - 1], actions[|actions| - 1];
      match last
      case Register(other, player, _, _) =>
        if other == id then Some(if player.Some? then player.value else id) else RegisteredFor(before, id)
      case Stop(other) => if other == id then None else RegisteredFor(before, id)
      case _ => RegisteredFor(before, id)
  }

  /** Work of exactly those ticks of a run whose operation was registered for q at that time. */
  ghost function WorkFor(setup: Setup, e: Engine, actions: seq<Action>, q: string): int {
    if actions == [] then 0
    else
      var before, last := actions[..|actions| - 1], actions[|actions| - 1];
      WorkFor(setup, e, before, q)
      + (if last.Tick? && RegisteredFor(before, last.id) == Some(q)
         then WorkOf(RunActions(setup, e, before), last) else 0)
  }

  /** What all settlements credit to q. */
  ghost function SettledFor(settlements: seq<Settlement>, q: string): int {
    if settlements == [] then 0
    else SettledFor(settlements[..|settlements| - 1], q) + Get(settlements[|settlements| - 1].contributions, q)
  }

  /** What waits for the active block in the name of q. */
  ghost function PendingFor(e: Engine, q: string): int {
    Get(BucketOf(e.buckets, e.chain.active.number), q)
  }

  // ---------------------------------------------------------------- one contribution

  lemma CreditedFor(buckets: Buckets, block: int, player: string, amount: int, other: int, q: string)
    requires 0 <= amount
    ensures Get(BucketOf(Credited(buckets, block, player, amount), other), q)
      == Get(BucketOf(buckets, other), q) + (if other == block && q == player then amount else 0)
  {
  }

  lemma {:induction false} CreditSplitsFor(buckets: Buckets, active: ActiveBlock, player: string, contribution: int,
                                           q: string)
    requires 0 <= contribution
    ensures var after, own := AfterCredit(buckets, active, player, contribution), OwnPart(active, contribution);
      && Get(BucketOf(after, active.number), q)
        == Get(BucketOf(buckets, active.number), q) + (if q == player then own else 0)
      && Get(BucketOf(after, active.number + 1), q)
        == Get(BucketOf(buckets, active.number + 1), q) + (if q == player then contribution - own else 0)
  {
    var own := OwnPart(active, contribution);
    var first := Credited(buckets, active.number, player, own);
    CreditedFor(buckets, active.number, player, own, active.number, q);
    CreditedFor(buckets, active.number, player, own, active.number + 1, q);
    CreditedFor(first, active.number + 1, player, contribution - own, active.number, q);
    CreditedFor(first, active.number + 1, player, contribution - own, active.number + 1, q);
    hide Credited, BucketOf;
  }

  lemma SettledForAppend(settlements: seq<Settlement>, s: Settlement, q: string)
    ensures SettledFor(settlements + [s], q) == SettledFor(settlements, q) + Get(s.contributions, q)
  {
    assert (settlements + [s])[..|settlements|] == settlements;
  }

  /** A contribution adds to what its player has settled and pending, and to nobody else's. */
  lemma {:induction false} AbsorbFor(setup: Setup, e: Engine, player: string, work: BlockchainStore.Work,
                                     event: Option<Rational>, q: string)
    requires Inv(e) && 0 <= work.contribution
    ensures var after := Absorb(setup, e, player, work, event);
      SettledFor(after.settlements, q) + PendingFor(after, q)
        == SettledFor(e.settlements, q) + PendingFor(e, q) + (if q == player then work.contribution else 0)
  {
    var active := e.chain.active;
    NextIsEmpty(e, q);
    CreditSplitsFor(e.buckets, active, player, work.contribution, q);
    var buckets := AfterCredit(e.buckets, active, player, work.contribution);
    hide Inv, AfterCredit, SettlementOf, SettledFor, OwnPart;
    if active.requiredWork <= active.accumulatedWork + work.contribution {
      var s := SettlementOf(setup, active, BucketOf(buckets, active.number), work, event);
      SettlementContributions(setup, active, BucketOf(buckets, active.number), work, event);
      SettledForAppend(e.settlements, s, q);
      assert BucketOf(buckets - {active.number}, active.number + 1) == BucketOf(buckets, active.number + 1);
      hide BucketOf;
    }
  }

  lemma NextIsEmpty(e: Engine, q: string)
    requires Inv(e)
    ensures Get(BucketOf(e.buckets, e.chain.active.number + 1), q) == 0
  {
    hide Sum;
  }

  // ---------------------------------------------------------------- whole runs

  /** The operations of the service are those that the actions registered. */
  ghost predicate OperationsAsRegistered(e: Engine, actions: seq<Action>) {
    forall id :: RegisteredFor(actions, id)
      == if id in e.operations then Some(e.operations[id].playerId) else None
  }

  lemma PlayerStays(op: Operation, event: BoundaryEvent, at: int)
    ensures WithBoundary(op, event, at).playerId == op.playerId && Advance(op, at).playerId == op.playerId
  {
    hide Applied, Retained, BoundaryFor;
  }

  lemma {:induction false} StepAsRegistered(setup: Setup, e: Engine, actions: seq<Action>, a: Action)
    requires OperationsAsRegistered(e, actions)
    ensures OperationsAsRegistered(ActionStep(setup, e, a), actions + [a])
  {
    var after := ActionStep(setup, e, a);
    assert (actions + [a])[..|actions|] == actions;
    match a
    case Register(_, _, _, _) =>
    case Stop(_) =>
    case Apply(id, event, at) =>
      if id in e.operations {
        PlayerStays(e.operations[id], event, at);
      }
      hide WithBoundary;
    case Tick(id, end, modifiers) =>
      if id in e.operations {
        PlayerStays(e.operations[id], Pause, end);
        TickKeepsPlayers(setup, e, id, end, modifiers);
      }
      hide TickStep;
  }

  lemma TickKeepsPlayers(setup: Setup, e: Engine, id: string, end: int, modifiers: Modifiers)
    ensures var after := TickStep(setup, e, id, end, modifiers);
      after.operations.Keys == e.operations.Keys
      && forall other :: other in e.operations ==> after.operations[other].playerId == e.operations[other].playerId
  {
    if id in e.operations {
      PlayerStays(e.operations[id], Pause, end);
      hide Advance, Contribution, Absorb;
      var op := e.operations[id];
      var ready := e.(operations := e.operations[id := Advance(op, end)]);
      var work := BlockchainStore.Work(Contribution(op, end), end, modifiers.difficulty);
      AbsorbKeepsOperations(setup, ready, op.playerId, work, modifiers.reward);
    }
  }

  lemma {:induction false} RunAsRegistered(setup: Setup, requiredWork: int, actions: seq<Action>)
    ensures OperationsAsRegistered(RunActions(setup, FreshEngine(requiredWork), actions), actions)
  {
    if actions != [] {
      var before, last := actions[..|actions| - 1], actions[|actions| - 1];
      RunAsRegistered(setup, requiredWork, before);
      hide OperationsAsRegistered, ActionStep;
      StepAsRegistered(setup, RunActions(setup, FreshEngine(requiredWork), before), before, last);
      assert before + [last] == actions;
    }
  }

  lemma {:induction false} ActionFor(setup: Setup, e: Engine, actions: seq<Action>, a: Action, q: string)
    requires Inv(e) && OperationsOk(e) && SetupOk(setup) && Benign(a) && OperationsAsRegistered(e, actions)
    ensures var after := ActionStep(setup, e, a);
      SettledFor(after.settlements, q) + PendingFor(after, q)
        == SettledFor(e.settlements, q) + PendingFor(e, q)
           + (if a.Tick? && RegisteredFor(actions, a.id) == Some(q) then WorkOf(e, a) else 0)
  {
    hide Inv, SettledFor, BucketOf, NonNegativeRates;
    if a.Tick? && a.id in e.operations {
      assert RegisteredFor(actions, a.id) == Some(e.operations[a.id].playerId);
      hide RegisteredFor, OperationsAsRegistered;
      var op := e.operations[a.id];
      TickNonNegative(op, a.end);
      if op.lastProcessedAt < a.end {
        var ready := e.(operations := e.operations[a.id := Advance(op, a.end)]);
        SameInv(e, ready);
        hide Contribution, Advance, Absorb;
        var work := BlockchainStore.Work(Contribution(op, a.end), a.end, a.modifiers.difficulty);
        AbsorbFor(setup, ready, op.playerId, work, a.modifiers.reward, q);
      }
    }
  }

  /** Over every run, what all settlements credit to a player plus what is pending in that player's name is exactly the
  work of the ticks whose operation was registered for that player. */
  lemma {:induction false} EachPlayersWork(setup: Setup, requiredWork: int, actions: seq<Action>, q: string)
    requires SetupOk(setup) && 0 < requiredWork
    requires forall i :: 0 <= i < |actions| ==> Benign(actions[i])
    ensures var e := RunActions(setup, FreshEngine(requiredWork), actions);
      SettledFor(e.settlements, q) + PendingFor(e, q) == WorkFor(setup, FreshEngine(requiredWork), actions, q)
  {
    if actions != [] {
      var before, last := actions[..|actions| - 1], actions[|actions| - 1];
      hide SettledFor, PendingFor, ActionStep, WorkOf, Inv, OperationsOk, Benign, RegisteredFor, OperationsAsRegistered;
      EachPlayersWork(setup, requiredWork, before, q);
      RunKeepsInv(setup, requiredWork, before);
      RunAsRegistered(setup, requiredWork, before);
      ActionFor(setup, RunActions(setup, FreshEngine(requiredWork), before), before, last, q);
    }
  }

  // ---------------------------------------------------------------- and nobody else

  /** No action registers an operation for q. */
  ghost predicate NeverRegistered(actions: seq<Action>, q: string) {
    forall i :: 0 <= i < |actions| && actions[i].Register? ==>
      (if actions[i].player.Some? then actions[i].player.value else actions[i].id) != q
  }

  lemma {:induction false} NoWorkFor(setup: Setup, e: Engine, actions: seq<Action>, q: string)
    requires NeverRegistered(actions, q)
    ensures WorkFor(setup, e, actions, q) == 0 && forall id :: RegisteredFor(actions, id) != Some(q)
  {
    if actions != [] {
      hide WorkOf;
      NoWorkFor(setup, e, actions[..|actions| - 1], q);
    }
  }

  lemma {:induction false} NothingSettled(settlements: seq<Settlement>, q: string)
    requires forall i :: 0 <= i < |settlements| ==> PositiveBucket(settlements[i].contributions)
    ensures 0 <= SettledFor(settlements, q)
    ensures SettledFor(settlements, q) == 0 ==>
      forall i :: 0 <= i < |settlements| ==> q !in settlements[i].contributions
  {
    if settlements != [] {
      NothingSettled(settlements[..|settlements| - 1], q);
    }
  }

  lemma RewardedContributed(reward: int, contributions: map<string, int>)
    requires 0 <= reward && PositiveBucket(contributions)
    ensures forall p :: p in RewardSettlement.Allocation(reward, contributions) ==> p in contributions
  {
    if 0 < Sum(contributions) {
      RewardSettlement.RepairedProperties(reward, contributions);
      hide RewardSettlement.Repaired, Sum;
    }
  }

  /** A player for whom no operation was ever registered is in no settlement, neither credited nor paid. */
  lemma {:induction false} StrangersGetNothing(setup: Setup, requiredWork: int, actions: seq<Action>, q: string)
    requires SetupOk(setup) && 0 < requiredWork && NeverRegistered(actions, q)
    requires forall i :: 0 <= i < |actions| ==> Benign(actions[i])
    ensures var settlements := RunActions(setup, FreshEngine(requiredWork), actions).settlements;
      forall i :: 0 <= i < |settlements| ==> q !in settlements[i].contributions && q !in settlements[i].rewards
  {
    var e := RunActions(setup, FreshEngine(requiredWork), actions);
    EachPlayersWork(setup, requiredWork, actions, q);
    NoWorkFor(setup, FreshEngine(requiredWork), actions, q);
    RunKeepsInv(setup, requiredWork, actions);
    hide RunActions, WorkFor, RegisteredFor, Benign, OperationsOk, NeverRegistered;
    InvParts(e, q);
    hide Inv, PendingFor;
    NothingSettled(e.settlements, q);
    forall i | 0 <= i < |e.settlements|
      ensures q !in e.settlements[i].rewards
    {
      RewardedContributed(e.settlements[i].reward, e.settlements[i].contributions);
    }
  }

  lemma InvParts(e: Engine, q: string)
    requires Inv(e)
    ensures 0 <= PendingFor(e, q)
    ensures forall i :: 0 <= i < |e.settlements| ==>
      var s := e.settlements[i];
      && PositiveBucket(s.contributions) && 0 <= s.reward
      && s.rewards == RewardSettlement.Allocation(s.reward, s.contributions)
  {
    hide Sum, RewardSettlement.Allocation;
  }

  /** So the ledger holds no entry for such a player. */
  lemma {:induction false} LedgerNamesOnlyRewarded(entries: seq<PlayerEntry>, settlements: seq<Settlement>, q: string)
    requires PlayersPosted(entries, settlements)
    requires forall i :: 0 <= i < |settlements| ==> q !in settlements[i].rewards
    ensures forall i :: 0 <= i < |entries| ==> entries[i].player != q
    decreases |settlements|
  {
    if settlements != [] {
      var last := settlements[|settlements| - 1];
      var k := |entries| - |last.rewards|;
      LedgerNamesOnlyRewarded(entries[..k], settlements[..|settlements| - 1], q);
      forall i | 0 <= i < |entries|
        ensures entries[i].player != q
      {
        if i < k {
          assert entries[..k][i] == entries[i];
        } else {
          assert entries[k..][i - k] == entries[i];
        }
      }
    }
  }

  /** What is paid out to a player and posted for a block is the reward of its settlement. */
  ghost function PaidTo(entries: seq<PlayerEntry>, block: int, q: string): int {
    if entries == [] then 0
    else
      var last := entries[|entries| - 1];
      PaidTo(entries[..|entries| - 1], block, q) + (if last.block == block && last.player == q then last.reward else 0)
  }

  lemma {:induction false} PaidToAppend(a: seq<PlayerEntry>, b: seq<PlayerEntry>, block: int, q: string)
    ensures PaidTo(a + b, block, q) == PaidTo(a, block, q) + PaidTo(b, block, q)
  {
    if b == [] {
      assert a + b == a;
    } else {
      PaidToAppend(a, b[..|b| - 1], block, q);
      assert (a + b)[..|a + b| - 1] == a + b[..|b| - 1];
    }
  }

  lemma {:induction false} BatchPaysEach(batch: seq<PlayerEntry>, block: int, rewards: map<string, int>,
                                         contributions: map<string, int>, postedAt: int, other: int, q: string)
    requires Posts(batch, block, rewards, contributions, postedAt)
    ensures PaidTo(batch, other, q) == if other == block then Get(rewards, q) else 0
    decreases |batch|
  {
    if batch == [] {
      assert rewards == map[];
    } else {
      var n := |batch| - 1;
      var last := batch[n];
      assert Posts(batch[..n], block, rewards - {last.player}, contributions, postedAt) by {
        assert (rewards - {last.player}).Keys == rewards.Keys - {last.player};
        assert |rewards.Keys - {last.player}| == |rewards| - 1;
      }
      BatchPaysEach(batch[..n], block, rewards - {last.player}, contributions, postedAt, other, q);
    }
  }

  /** Each player is paid for a block exactly the reward that its settlement allocates to that player. */
  lemma {:induction false} LedgerPaysEach(entries: seq<PlayerEntry>, settlements: seq<Settlement>, block: int,
                                          q: string)
    requires PlayersPosted(entries, settlements)
    requires forall i :: 0 <= i < |settlements| ==> settlements[i].block == i + 1
    ensures PaidTo(entries, block, q)
      == if 1 <= block <= |settlements| then Get(settlements[block - 1].rewards, q) else 0
    decreases |settlements|
  {
    if settlements != [] {
      var n := |settlements| - 1;
      var last := settlements[n];
      var k := |entries| - |last.rewards|;
      LedgerPaysEach(entries[..k], settlements[..n], block, q);
      BatchPaysEach(entries[k..], last.block, last.rewards, last.contributions, last.at, block, q);
      assert entries == entries[..k] + entries[k..];
      PaidToAppend(entries[..k], entries[k..], block, q);
      hide Posts, PaidTo;
    }
  }
}
