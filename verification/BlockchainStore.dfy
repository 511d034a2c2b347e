/** The one global chain: an active block that fills with work, and the finalized blocks
(server/domain/blockchain/store.py). */
module BlockchainStore {
  import opened Numbers
  import opened Sorting
  import opened Difficulty

  datatype ActiveBlock = ActiveBlock(number: int, requiredWork: int, accumulatedWork: int)

  datatype Chain = Chain(active: ActiveBlock, finalized: seq<FinalizedBlock>)

  /** One call of add_work: the work, its time and the difficulty event active at that moment. */
  datatype Work = Work(contribution: int, at: int, event: Option<Rational>)

  datatype AddWorkOutcome = AddWorkOutcome(
    activeBefore: int, finalizedNumber: Option<int>, requiredWork: int, totalWork: Option<int>)

  function FreshChain(requiredWork: int): Chain {
    Chain(ActiveBlock(1, requiredWork, 0), [])
  }

  function NextRequiredWork(adjuster: Option<Config>, current: int, finalized: seq<FinalizedBlock>,
                            event: Option<Rational>): int {
    match adjuster
    case None => current
    case Some(config) => ComputeNextRequiredWork(config, current, finalized, event)
  }

  /** The chain after one call of add_work: at most one block is finalized, the rest carries over. */
  function AddWorkStep(adjuster: Option<Config>, chain: Chain, work: Work): Chain {
    var before := chain.active;
    var total := before.accumulatedWork + work.contribution;
    if before.requiredWork <= total then
      var finalized := chain.finalized + [FinalizedBlock(before.number, before.requiredWork, total, work.at)];
      var next := NextRequiredWork(adjuster, before.requiredWork, finalized, work.event);
      Chain(ActiveBlock(before.number + 1, next, total - before.requiredWork), finalized)
    else
      chain.(active := before.(accumulatedWork := total))
  }

  function AddWorkResult(chain: Chain, work: Work): AddWorkOutcome {
    var before := chain.active;
    var total := before.accumulatedWork + work.contribution;
    if before.requiredWork <= total then
      AddWorkOutcome(before.number, Some(before.number), before.requiredWork, Some(total))
    else
      AddWorkOutcome(before.number, None, before.requiredWork, None)
  }

  class InMemoryBlockchainStateStore {
    var active: ActiveBlock
    var finalized: seq<FinalizedBlock>
    const adjuster: Option<Config>

    ghost function State(): Chain
      reads this
    {
      Chain(active, finalized)
    }

    constructor (requiredWork: int, adjuster: Option<Config>)
      ensures State() == FreshChain(requiredWork) && this.adjuster == adjuster
    {
      this.adjuster := adjuster;
      active := ActiveBlock(1, requiredWork, 0);
      finalized := [];
    }

    method AddWork(contribution: int, finalizedAt: int, event: Option<Rational>) returns (outcome: AddWorkOutcome)
      modifies this
      ensures State() == AddWorkStep(adjuster, old(State()), Work(contribution, finalizedAt, event))
      ensures outcome == AddWorkResult(old(State()), Work(contribution, finalizedAt, event))
    {
      var before := active;
      var totalWork := before.accumulatedWork + contribution;
      if totalWork >= before.requiredWork {
        finalized := finalized + [FinalizedBlock(before.number, before.requiredWork, totalWork, finalizedAt)];
        var nextRequiredWork := before.requiredWork;
        if adjuster.Some? {
          nextRequiredWork := ComputeNextRequiredWork(adjuster.value, before.requiredWork, finalized, event);
        }
        active := ActiveBlock(before.number + 1, nextRequiredWork, totalWork - before.requiredWork);
        return AddWorkOutcome(before.number, Some(before.number), before.requiredWork, Some(totalWork));
      }
      active := ActiveBlock(before.number, before.requiredWork, totalWork);
      return AddWorkOutcome(before.number, None, before.requiredWork, None);
    }
  }

  // ---------------------------------------------------------------- the database variant

  predicate NumberLe(a: FinalizedBlock, b: FinalizedBlock) {
    a.number <= b.number
  }

  /** INSERT ... ON CONFLICT (block_number) DO NOTHING. */
  function InsertRow(rows: seq<FinalizedBlock>, row: FinalizedBlock): seq<FinalizedBlock> {
    if exists i :: 0 <= i < |rows| && rows[i].number == row.number then rows else rows + [row]
  }

  /** The transaction of the database store: a conditional insert, a select in block order, an update. */
  function DatabaseAddWork(adjuster: Option<Config>, chain: Chain, work: Work): Chain {
    var before := chain.active;
    var total := before.accumulatedWork + work.contribution;
    if before.requiredWork <= total then
      var rows := InsertRow(chain.finalized, FinalizedBlock(before.number, before.requiredWork, total, work.at));
      var next := NextRequiredWork(adjuster, before.requiredWork, SortBy(NumberLe, rows), work.event);
      Chain(ActiveBlock(before.number + 1, next, total - before.requiredWork), rows)
    else
      chain.(active := before.(accumulatedWork := total))
  }

  /** On a numbered chain the database transaction and the in-memory store take the same step. */
  lemma DatabaseRefinesMemory(adjuster: Option<Config>, chain: Chain, work: Work)
    requires Numbered(chain)
    ensures DatabaseAddWork(adjuster, chain, work) == AddWorkStep(adjuster, chain, work)
  {
    var before := chain.active;
    var total := before.accumulatedWork + work.contribution;
    var rows := InsertRow(chain.finalized, FinalizedBlock(before.number, before.requiredWork, total, work.at));
    SortFixed(NumberLe, rows);
  }

  // ---------------------------------------------------------------- whole runs

  /** Finalized blocks are numbered 1, 2, ..., k in order, and the active block is k + 1. */
  ghost predicate Numbered(chain: Chain) {
    && (forall i :: 0 <= i < |chain.finalized| ==> chain.finalized[i].number == i + 1)
    && chain.active.number == |chain.finalized| + 1
  }

  ghost function Run(adjuster: Option<Config>, chain: Chain, works: seq<Work>): Chain {
    if works == [] then chain
    else AddWorkStep(adjuster, Run(adjuster, chain, works[..|works| - 1]), works[|works| - 1])
  }

  ghost function RequiredTotal(blocks: seq<FinalizedBlock>): int {
    if blocks == [] then 0 else RequiredTotal(blocks[..|blocks| - 1]) + blocks[|blocks| - 1].requiredWork
  }

  ghost function ContributionTotal(works: seq<Work>): int {
    if works == [] then 0 else ContributionTotal(works[..|works| - 1]) + works[|works| - 1].contribution
  }

  /** All work a chain accounts for. */
  ghost function Accounted(chain: Chain): int {
    RequiredTotal(chain.finalized) + chain.active.accumulatedWork
  }

  lemma StepKeepsWork(adjuster: Option<Config>, chain: Chain, work: Work)
    requires Numbered(chain)
    ensures Numbered(AddWorkStep(adjuster, chain, work))
    ensures Accounted(AddWorkStep(adjuster, chain, work)) == Accounted(chain) + work.contribution
    ensures chain.finalized <= AddWorkStep(adjuster, chain, work).finalized
    ensures |AddWorkStep(adjuster, chain, work).finalized| <= |chain.finalized| + 1
  {
    hide ComputeNextRequiredWork;
    var after := AddWorkStep(adjuster, chain, work);
    if after.finalized != chain.finalized {
      assert after.finalized[..|after.finalized| - 1] == chain.finalized;
    }
  }

  /** Work is conserved over every run, whoever made the calls and in whatever order they were committed:
  block numbers are 1..k once each, and requirements met plus work in progress equal all work added. */
  lemma {:induction false} WorkConserved(adjuster: Option<Config>, chain: Chain, works: seq<Work>)
    requires Numbered(chain)
    ensures Numbered(Run(adjuster, chain, works))
    ensures Accounted(Run(adjuster, chain, works)) == Accounted(chain) + ContributionTotal(works)
    ensures chain.finalized <= Run(adjuster, chain, works).finalized
  {
    if works != [] {
      WorkConserved(adjuster, chain, works[..|works| - 1]);
      StepKeepsWork(adjuster, Run(adjuster, chain, works[..|works| - 1]), works[|works| - 1]);
    }
  }

  /** Finalized records never change, every one of them met its requirement, and its surplus is exactly what
  the next block started with. */
  ghost predicate Met(chain: Chain) {
    && (forall i :: 0 <= i < |chain.finalized| ==> chain.finalized[i].requiredWork <= chain.finalized[i].totalWork)
    && 0 < chain.active.requiredWork && 0 <= chain.active.accumulatedWork
    && (forall i :: 0 <= i < |chain.finalized| ==> 0 < chain.finalized[i].requiredWork)
  }

  lemma StepKeepsMet(adjuster: Option<Config>, chain: Chain, work: Work)
    requires Met(chain) && 0 <= work.contribution
    requires adjuster.Some? ==> 0 < adjuster.value.minimumRequiredWork
    ensures Met(AddWorkStep(adjuster, chain, work))
  {
  }

  /** From a positive requirement, every later requirement is positive, for every difficulty event. */
  lemma {:induction false} RequirementsStayPositive(adjuster: Option<Config>, chain: Chain, works: seq<Work>)
    requires Met(chain)
    requires forall i :: 0 <= i < |works| ==> 0 <= works[i].contribution
    requires adjuster.Some? ==> 0 < adjuster.value.minimumRequiredWork
    ensures Met(Run(adjuster, chain, works))
  {
    if works != [] {
      RequirementsStayPositive(adjuster, chain, works[..|works| - 1]);
      StepKeepsMet(adjuster, Run(adjuster, chain, works[..|works| - 1]), works[|works| - 1]);
    }
  }

  ghost function DatabaseRun(adjuster: Option<Config>, chain: Chain, works: seq<Work>): Chain {
    if works == [] then chain
    else DatabaseAddWork(adjuster, DatabaseRun(adjuster, chain, works[..|works| - 1]), works[|works| - 1])
  }

  /** Every run of the database store is the run of the in-memory store. */
  lemma {:induction false} DatabaseRunRefines(adjuster: Option<Config>, chain: Chain, works: seq<Work>)
    requires Numbered(chain)
    ensures DatabaseRun(adjuster, chain, works) == Run(adjuster, chain, works)
  {
    if works != [] {
      DatabaseRunRefines(adjuster, chain, works[..|works| - 1]);
      WorkConserved(adjuster, chain, works[..|works| - 1]);
      DatabaseRefinesMemory(adjuster, Run(adjuster, chain, works[..|works| - 1]), works[|works| - 1]);
    }
  }
}
