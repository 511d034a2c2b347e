/** Several mining services on one store (server/domain/mining/service.py, blockchain/store.py): the chain is shared,
but each service keeps its own contribution buckets, and reads the active block before it adds its work. */
module SharedStore {
  import opened Numbers
  import opened Totals
  import opened BlockchainStore
  import opened MiningService
  import RewardSettlement

  /** What one service keeps, and the active block that it read for the tick it is in. */
  datatype Books = Books(buckets: Buckets, settlements: seq<Settlement>, seen: Option<ActiveBlock>)

  datatype Cluster = Cluster(chain: Chain, books: map<int, Books>)

  /** A tick reads the active block, and then adds its work and does its bookkeeping; steps of other services may come
  in between. */
  datatype Step =
    | Look(service: int)
    | Commit(service: int, player: string, work: BlockchainStore.Work, event: Option<Rational>)

  /** The part of a contribution that is credited to the block that was read. */
  function OwnOf(seen: ActiveBlock, contribution: int, finalized: bool): int {
    if finalized then Min(contribution, Room(seen)) else contribution
  }

  function CreditSeen(buckets: Buckets, seen: ActiveBlock, player: string, contribution: int, finalized: bool)
    : Buckets
  {
    var own := OwnOf(seen, contribution, finalized);
    Credited(Credited(buckets, seen.number, player, own), seen.number + 1, player, contribution - own)
  }

  /** Bookkeeping of one service after its work was added: credit by the block it read, settlement by the block that the
  store finalized. */
  ghost function Booked(setup: Setup, b: Books, active: ActiveBlock, player: string, work: BlockchainStore.Work,
                        event: Option<Rational>): Books
    requires b.seen.Some?
  {
    var done := active.requiredWork <= active.accumulatedWork + work.contribution;
    var buckets := CreditSeen(b.buckets, b.seen.value, player, work.contribution, done);
    if done then
      Books(buckets - {active.number},
            b.settlements + [SettlementOf(setup, active, BucketOf(buckets, active.number), work, event)], None)
    else Books(buckets, b.settlements, None)
  }

  ghost function Apply(setup: Setup, c: Cluster, step: Step): Cluster {
    match step
    case Look(service) =>
      if service in c.books then c.(books := c.books[service := c.books[service].(seen := Some(c.chain.active))]) else c
    case Commit(service, player, work, event) =>
      if service !in c.books || c.books[service].seen.None? then c
      else
        Cluster(AddWorkStep(setup.adjuster, c.chain, work),
                c.books[service := Booked(setup, c.books[service], c.chain.active, player, work, event)])
  }

  ghost function Run(setup: Setup, c: Cluster, steps: seq<Step>): Cluster {
    if steps == [] then c else Apply(setup, Run(setup, c, steps[..|steps| - 1]), steps[|steps| - 1])
  }

  /** A service that nobody interrupts between its two steps absorbs its work as a service of its own does. */
  lemma UninterruptedTick(setup: Setup, c: Cluster, service: int, player: string, work: BlockchainStore.Work,
                          event: Option<Rational>)
    requires service in c.books
    ensures var b := c.books[service];
      var alone := Absorb(setup, Engine(map[], c.chain, b.buckets, [], b.settlements), player, work, event);
      var after := Apply(setup, Apply(setup, c, Look(service)), Commit(service, player, work, event));
      after == Cluster(alone.chain, c.books[service := Books(alone.buckets, alone.settlements, None)])
  {
    hide AddWorkStep, SettlementOf, Credited;
  }

  // ---------------------------------------------------------------- nothing is lost

  ghost function TotalsOf(buckets: Buckets): map<int, int> {
    map n | n in buckets :: Sum(buckets[n])
  }

  ghost function InBooks(b: Books): int {
    SettledTotal(b.settlements) + Sum(TotalsOf(b.buckets))
  }

  /** What all services have settled or still hold. */
  ghost function InAllBooks(books: map<int, Books>): int {
    Sum(AllBooks(books))
  }

  ghost function AllBooks(books: map<int, Books>): map<int, int> {
    map s | s in books :: InBooks(books[s])
  }

  lemma BucketTotal(buckets: Buckets, block: int)
    ensures Get(TotalsOf(buckets), block) == Sum(BucketOf(buckets, block))
  {
    if block !in buckets {
      EmptyBucketTotal(buckets, block);
    }
    hide Sum;
  }

  lemma CreditedTotals(buckets: Buckets, block: int, player: string, amount: int)
    requires 0 <= amount
    ensures Sum(TotalsOf(Credited(buckets, block, player, amount))) == Sum(TotalsOf(buckets)) + amount
  {
    hide Sum;
    if 0 < amount {
      var bucket := BucketOf(buckets, block);
      var grown := bucket[player := Get(bucket, player) + amount];
      SumUpdate(bucket, player, Get(bucket, player) + amount);
      BucketTotal(buckets, block);
      SumUpdate(TotalsOf(buckets), block, Sum(grown));
      assert TotalsOf(buckets[block := grown]) == TotalsOf(buckets)[block := Sum(grown)];
    }
  }

  lemma RemovedTotals(buckets: Buckets, block: int)
    ensures Sum(TotalsOf(buckets - {block})) == Sum(TotalsOf(buckets)) - Sum(BucketOf(buckets, block))
  {
    hide Sum;
    BucketTotal(buckets, block);
    if block in buckets {
      SumRemove(TotalsOf(buckets), block);
      assert TotalsOf(buckets - {block}) == TotalsOf(buckets) - {block};
    } else {
      assert buckets - {block} == buckets;
    }
  }

  lemma {:induction false} CreditSeenTotals(buckets: Buckets, seen: ActiveBlock, player: string, contribution: int,
                                            finalized: bool)
    requires 0 <= contribution
    ensures Sum(TotalsOf(CreditSeen(buckets, seen, player, contribution, finalized)))
      == Sum(TotalsOf(buckets)) + contribution
  {
    var own := OwnOf(seen, contribution, finalized);
    hide Sum, TotalsOf, Credited;
    CreditedTotals(buckets, seen.number, player, own);
    CreditedTotals(Credited(buckets, seen.number, player, own), seen.number + 1, player, contribution - own);
  }

  lemma {:induction false} BookedTotal(setup: Setup, b: Books, active: ActiveBlock, player: string,
                                       work: BlockchainStore.Work, event: Option<Rational>)
    requires b.seen.Some? && 0 <= work.contribution
    ensures InBooks(Booked(setup, b, active, player, work, event)) == InBooks(b) + work.contribution
  {
    var done := active.requiredWork <= active.accumulatedWork + work.contribution;
    var buckets := CreditSeen(b.buckets, b.seen.value, player, work.contribution, done);
    CreditSeenTotals(b.buckets, b.seen.value, player, work.contribution, done);
    hide Sum, TotalsOf, SettlementOf, SettledTotal, CreditSeen, BucketOf;
    if done {
      var s := SettlementOf(setup, active, BucketOf(buckets, active.number), work, event);
      SettlementContributions(setup, active, BucketOf(buckets, active.number), work, event);
      SettledAppend(b.settlements, s);
      RemovedTotals(buckets, active.number);
    }
  }

  lemma OneService(books: map<int, Books>, service: int, b: Books)
    requires service in books
    ensures InAllBooks(books[service := b]) == InAllBooks(books) - InBooks(books[service]) + InBooks(b)
  {
    hide Sum, InBooks;
    SumUpdate(AllBooks(books), service, InBooks(b));
    assert AllBooks(books[service := b]) == AllBooks(books)[service := InBooks(b)];
  }

  ghost predicate NonNegativeWork(step: Step) {
    step.Commit? ==> 0 <= step.work.contribution
  }

  lemma {:induction false} ApplyKeepsTotals(setup: Setup, c: Cluster, step: Step)
    requires NonNegativeWork(step) && Numbered(c.chain)
    ensures Numbered(Apply(setup, c, step).chain)
    ensures InAllBooks(Apply(setup, c, step).books) - Accounted(Apply(setup, c, step).chain)
      == InAllBooks(c.books) - Accounted(c.chain)
  {
    hide InAllBooks, Sum, Accounted, Numbered, AddWorkStep, Booked, SettledTotal, TotalsOf;
    if step.service in c.books {
      var b := c.books[step.service];
      match step
      case Look(service) => OneService(c.books, service, b.(seen := Some(c.chain.active)));
      case Commit(service, player, work, event) =>
        if b.seen.Some? {
          BookedTotal(setup, b, c.chain.active, player, work, event);
          OneService(c.books, service, Booked(setup, b, c.chain.active, player, work, event));
          StepKeepsWork(setup.adjuster, c.chain, work);
        }
    }
  }

  /** Under every interleaving of several services, what they have settled and what they hold in their buckets is
  together all work that the chain accounts for. */
  lemma {:induction false} ServicesConserveWork(setup: Setup, c: Cluster, steps: seq<Step>)
    requires Numbered(c.chain) && forall i :: 0 <= i < |steps| ==> NonNegativeWork(steps[i])
    ensures Numbered(Run(setup, c, steps).chain)
    ensures InAllBooks(Run(setup, c, steps).books) - Accounted(Run(setup, c, steps).chain)
      == InAllBooks(c.books) - Accounted(c.chain)
  {
    if steps != [] {
      hide InAllBooks, Accounted, Numbered, Apply;
      ServicesConserveWork(setup, c, steps[..|steps| - 1]);
      ApplyKeepsTotals(setup, Run(setup, c, steps[..|steps| - 1]), steps[|steps| - 1]);
    }
  }

  // ---------------------------------------------------------------- but not all of it is paid

  /** after follows before: what a service held for block n it still holds, and it has settled blocks from `active` on
  only. */
  ghost predicate Holds(before: Books, after: Books, n: int, active: int) {
    && (forall p :: Get(BucketOf(before.buckets, n), p) <= Get(BucketOf(after.buckets, n), p))
    && before.settlements <= after.settlements
    && forall i :: |before.settlements| <= i < |after.settlements| ==> active <= after.settlements[i].block
  }

  lemma CreditedHolds(buckets: Buckets, block: int, player: string, amount: int, n: int)
    ensures forall p ::
      Get(BucketOf(buckets, n), p) <= Get(BucketOf(Credited(buckets, block, player, amount), n), p)
  {
  }

  lemma {:induction false} BookedHolds(setup: Setup, b: Books, active: ActiveBlock, player: string,
                                       work: BlockchainStore.Work, event: Option<Rational>, n: int)
    requires b.seen.Some? && n < active.number
    ensures Holds(b, Booked(setup, b, active, player, work, event), n, active.number)
  {
    var done := active.requiredWork <= active.accumulatedWork + work.contribution;
    var seen := b.seen.value;
    var own := OwnOf(seen, work.contribution, done);
    var first := Credited(b.buckets, seen.number, player, own);
    var buckets := CreditSeen(b.buckets, seen, player, work.contribution, done);
    CreditedHolds(b.buckets, seen.number, player, own, n);
    CreditedHolds(first, seen.number + 1, player, work.contribution - own, n);
    hide Credited, PoolReward, RewardSettlement.Allocation;
    assert BucketOf(buckets - {active.number}, n) == BucketOf(buckets, n);
  }

  /** Once a block is finalized, by whichever service, no service ever settles it again: what another service had
  credited to it stays in its bucket for ever, and nobody is paid for it. */
  lemma {:induction false} StrandedForever(setup: Setup, c: Cluster, steps: seq<Step>, service: int, n: int)
    requires service in c.books && n < c.chain.active.number
    ensures var end := Run(setup, c, steps);
      && service in end.books && c.chain.active.number <= end.chain.active.number
      && Holds(c.books[service], end.books[service], n, c.chain.active.number)
  {
    if steps != [] {
      var before, last := steps[..|steps| - 1], steps[|steps| - 1];
      StrandedForever(setup, c, before, service, n);
      var middle := Run(setup, c, before);
      hide Run, Booked;
      if last.service == service && last.Commit? && middle.books[service].seen.Some? {
        BookedHolds(setup, middle.books[service], middle.chain.active, last.player, last.work, last.event, n);
      }
      NumberGrows(setup, middle, last);
      StepHolds(setup, middle, last, service, n);
      HoldsOn(c.books[service], middle.books[service], Apply(setup, middle, last).books[service], n,
              c.chain.active.number, middle.chain.active.number);
    }
  }

  lemma NumberGrows(setup: Setup, c: Cluster, step: Step)
    ensures c.chain.active.number <= Apply(setup, c, step).chain.active.number
    ensures Apply(setup, c, step).books.Keys == c.books.Keys
  {
    hide Booked, NextRequiredWork;
  }

  lemma {:induction false} StepHolds(setup: Setup, c: Cluster, step: Step, service: int, n: int)
    requires service in c.books && n < c.chain.active.number
    ensures service in Apply(setup, c, step).books
    ensures Holds(c.books[service], Apply(setup, c, step).books[service], n, c.chain.active.number)
  {
    if step.Commit? && step.service == service && c.books[service].seen.Some? {
      BookedHolds(setup, c.books[service], c.chain.active, step.player, step.work, step.event, n);
      hide Booked, Holds, AddWorkStep;
    } else {
      hide Booked, AddWorkStep;
    }
  }

  lemma HoldsOn(a: Books, b: Books, c: Books, n: int, active: int, later: int)
    requires Holds(a, b, n, active) && Holds(b, c, n, later) && active <= later
    ensures Holds(a, c, n, active)
  {
    forall i | |a.settlements| <= i < |c.settlements|
      ensures active <= c.settlements[i].block
    {
      if i < |b.settlements| {
        assert c.settlements[i] == b.settlements[i];
      }
    }
    forall p
      ensures Get(BucketOf(a.buckets, n), p) <= Get(BucketOf(c.buckets, n), p)
    {
      assert Get(BucketOf(a.buckets, n), p) <= Get(BucketOf(b.buckets, n), p);
      assert Get(BucketOf(b.buckets, n), p) <= Get(BucketOf(c.buckets, n), p);
    }
  }

  /** The smallest case: of three units that a block requires, player a adds two through service 1 and player b the last
  one through service 2. Service 2 settles the block for b alone. */
  lemma FinisherTakesAll(setup: Setup)
    ensures var c := Cluster(FreshChain(3), map[1 := Books(map[], [], None), 2 := Books(map[], [], None)]);
      var first := BlockchainStore.Work(2, 0, None);
      var second := BlockchainStore.Work(1, 1, None);
      var middle := Apply(setup, Apply(setup, c, Look(1)), Commit(1, "a", first, None));
      var end := Apply(setup, Apply(setup, middle, Look(2)), Commit(2, "b", second, None));
      && end.chain.active.number == 2
      && end.books[1].buckets == map[1 := map["a" := 2]] && end.books[1].settlements == []
      && |end.books[2].settlements| == 1
      && end.books[2].settlements[0].block == 1 && end.books[2].settlements[0].requiredWork == 3
      && end.books[2].settlements[0].contributions == map["b" := 1]
  {
    hide PoolReward, RewardSettlement.Allocation, NextRequiredWork;
    var none: Buckets := map[];
    assert Credited(none, 1, "a", 2) == map[1 := map["a" := 2]];
    assert Credited(none, 1, "b", 1) == map[1 := map["b" := 1]];
  }
}
