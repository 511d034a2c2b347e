/** Offline progress credited on profile reads, guarded by a compare-and-set
(server/domain/players/service.py, players/repository.py, mining/service.py). */
module OfflineCredit {
  import opened Numbers
  import opened IntervalSlicer

  // ---------------------------------------------------------------- one computation

  datatype OfflineEntry = OfflineEntry(
    windowStartedAt: int, windowEndedAt: int, simulatedWork: int, creditedWork: int,
    capLimit: int, capApplied: bool, capAmount: int, tier: int)

  function CalculatePlayerTier(blocksFinalized: int): int {
    if 20 <= blocksFinalized then 3 else if 5 <= blocksFinalized then 2 else 1
  }

  /** The cap of one offline window for a tier, in units of 0.000001. Every credited window is cut to it on its own: two
  profile reads on one day can together credit more. */
  function OfflineCapForTier(tier: int): (cap: int)
    ensures 0 < cap
  {
    if tier <= 1 then 1000 * MICRO
    else if tier == 2 then 5000 * MICRO
    else if tier == 3 then 10000 * MICRO
    else
      DoubledCap(tier);
      10000 * MICRO * Power2(tier - 3)
  }

  lemma DoubledCap(tier: int)
    requires 3 < tier
    ensures 0 < 10000 * MICRO * Power2(tier - 3)
  {
  }

  /** Higher tiers never have a lower cap. */
  lemma {:induction false} CapGrowsWithTier(a: int, b: int)
    requires a <= b
    ensures OfflineCapForTier(a) <= OfflineCapForTier(b)
    decreases b - a
  {
    if a < b {
      CapGrowsWithTier(a, b - 1);
      if 4 < b {
        assert Power2(b - 3) == 2 * Power2(b - 4);
      } else if b == 4 {
        assert Power2(1) == 2 * Power2(0);
      }
    }
  }

  function NonNegative(hashrate: Rational): Rational {
    if hashrate.num < 0 then Ratio(0, 1) else hashrate
  }

  /** Without boundaries the whole window runs at one rate. */
  function OfflineRate(hashrate: Rational): int {
    Rate(NonNegative(hashrate), Boundary(0, "1", false))
  }

  /** simulate_offline_progress. */
  function SimulateOfflineProgress(startedAt: int, endedAt: int, hashrate: Rational, capLimit: int,
                                   tier: int): OfflineEntry {
    if endedAt <= startedAt then
      OfflineEntry(startedAt, endedAt, 0, 0, Max(capLimit, 0), false, 0, Max(1, tier))
    else
      var simulated := Total(Slices(Boundary(startedAt, "1", false), endedAt, NonNegative(hashrate), []));
      var cap := Max(capLimit, 0);
      var credited := Min(simulated, cap);
      OfflineEntry(startedAt, endedAt, simulated, credited, cap, cap < simulated, simulated - credited, Max(1, tier))
  }

  /** What every credited entry satisfies; `rate` is the hashrate in force. */
  ghost predicate WellFormed(entry: OfflineEntry, rate: int) {
    && entry.windowStartedAt < entry.windowEndedAt
    && entry.creditedWork + entry.capAmount == entry.simulatedWork
    && 0 <= entry.creditedWork <= entry.capLimit
    && 0 <= entry.capAmount
    && (entry.capApplied <==> 0 < entry.capAmount)
    && (entry.capApplied ==> entry.creditedWork == entry.capLimit)
    && WithinSpan(entry.creditedWork, rate, entry.windowStartedAt, entry.windowEndedAt)
  }

  /** Work no greater than the rate times the length of the window. */
  ghost predicate WithinSpan(work: int, rate: int, startedAt: int, endedAt: int) {
    work * SECOND <= rate * (endedAt - startedAt)
  }

  lemma OfflineRateNonNegative(hashrate: Rational)
    ensures 0 <= OfflineRate(hashrate)
  {
    PlainMultiplier();
    var base := NonNegative(hashrate);
    assert base.num * 1 * MICRO == base.num * MICRO;
  }

  /** The simulated work is the rate times the whole seconds of the window. */
  lemma SimulatedWork(startedAt: int, endedAt: int, hashrate: Rational, capLimit: int, tier: int)
    requires startedAt < endedAt
    ensures SimulateOfflineProgress(startedAt, endedAt, hashrate, capLimit, tier).simulatedWork
      == OfflineRate(hashrate) * Seconds(startedAt, endedAt)
  {
    hide Rate;
    var start := Boundary(startedAt, "1", false);
    assert InWindow([], startedAt, endedAt) == [];
    SegmentsWork(NonNegative(hashrate), [], start, endedAt);
    RateAtZero(NonNegative(hashrate), startedAt);
  }

  lemma RateAtZero(base: Rational, at: int)
    ensures Rate(base, Boundary(at, "1", false)) == Rate(base, Boundary(0, "1", false))
  {
  }

  lemma SimulationWellFormed(startedAt: int, endedAt: int, hashrate: Rational, capLimit: int, tier: int)
    requires startedAt < endedAt
    ensures WellFormed(SimulateOfflineProgress(startedAt, endedAt, hashrate, capLimit, tier), OfflineRate(hashrate))
  {
    var result := SimulateOfflineProgress(startedAt, endedAt, hashrate, capLimit, tier);
    SimulatedWithin(startedAt, endedAt, hashrate, capLimit, tier);
    hide OfflineRate, Slices, Total, NonNegative, WithinSpan;
    WithinLess(result.simulatedWork, result.creditedWork, OfflineRate(hashrate), startedAt, endedAt);
  }

  lemma SimulatedWithin(startedAt: int, endedAt: int, hashrate: Rational, capLimit: int, tier: int)
    requires startedAt < endedAt
    ensures var work := SimulateOfflineProgress(startedAt, endedAt, hashrate, capLimit, tier).simulatedWork;
      0 <= work && WithinSpan(work, OfflineRate(hashrate), startedAt, endedAt)
  {
    hide *;
    SimulatedWork(startedAt, endedAt, hashrate, capLimit, tier);
    OfflineRateNonNegative(hashrate);
    WorkWithinSpan(OfflineRate(hashrate), startedAt, endedAt);
  }

  lemma WorkWithinSpan(rate: int, startedAt: int, endedAt: int)
    requires startedAt < endedAt && 0 <= rate
    ensures 0 <= rate * Seconds(startedAt, endedAt)
    ensures WithinSpan(rate * Seconds(startedAt, endedAt), rate, startedAt, endedAt)
  {
    var seconds := Seconds(startedAt, endedAt);
    ProductMonotone(0, rate, seconds);
    ProductMonotone(seconds * SECOND, endedAt - startedAt, rate);
    assert (rate * seconds) * SECOND == (seconds * SECOND) * rate;
  }

  lemma WithinLess(work: int, less: int, rate: int, startedAt: int, endedAt: int)
    requires WithinSpan(work, rate, startedAt, endedAt) && less <= work
    ensures WithinSpan(less, rate, startedAt, endedAt)
  {
  }

  // ---------------------------------------------------------------- the player row

  /** Columns that every profile read refreshes, whatever happens to the offline window. */
  datatype Cache = Cache(effectiveHashrate: Rational, powerThrottle: Rational, heat: Rational, cooling: Rational,
                         refreshedAt: int)

  datatype Row = Row(lastOfflineProgressAt: Option<int>, entries: seq<OfflineEntry>)

  /** A profile request has read the row, then has computed what it will write. */
  datatype Request =
    | Loaded(expected: Option<int>)
    | Prepared(expected: Option<int>, next: Option<int>, entry: Option<OfflineEntry>)

  predicate CanAdvance(row: Row, expected: Option<int>, next: Option<int>) {
    next.Some? && row.lastOfflineProgressAt == expected
  }

  function UpdateRow(row: Row, expected: Option<int>, next: Option<int>, entry: Option<OfflineEntry>): Row {
    if !CanAdvance(row, expected, next) then row
    else Row(next, row.entries + (if entry.Some? then [entry.value] else []))
  }

  class PlayerRepository {
    var cache: Cache
    var lastOfflineProgressAt: Option<int>
    var offlineEntries: seq<OfflineEntry>

    ghost function State(): Row
      reads this
    {
      Row(lastOfflineProgressAt, offlineEntries)
    }

    constructor (cache: Cache)
      ensures State() == Row(None, [])
    {
      this.cache := cache;
      lastOfflineProgressAt := None;
      offlineEntries := [];
    }

    /** The COALESCE of create_profile. */
    method CreateProfile(now: int)
      modifies this`lastOfflineProgressAt
      ensures State() == Created(old(State()), now)
    {
      if lastOfflineProgressAt.None? {
        lastOfflineProgressAt := Some(now);
      }
    }

    /** update_effective_hashrate_cache: one transaction with the row locked. */
    method UpdateEffectiveHashrateCache(newCache: Cache, next: Option<int>, expected: Option<int>,
                                        entry: Option<OfflineEntry>) returns (canAdvance: bool)
      modifies this
      ensures State() == UpdateRow(old(State()), expected, next, entry)
      ensures canAdvance == CanAdvance(old(State()), expected, next)
      ensures cache == newCache
    {
      var current := lastOfflineProgressAt;
      canAdvance := next.Some? && current == expected;
      cache := newCache;
      lastOfflineProgressAt := if canAdvance then next else lastOfflineProgressAt;
      if canAdvance && entry.Some? {
        offlineEntries := offlineEntries + [entry.value];
      }
    }
  }

  function Created(row: Row, now: int): Row {
    if row.lastOfflineProgressAt.None? then row.(lastOfflineProgressAt := Some(now)) else row
  }

  /** The computing part of get_profile, after the row was read and the clock showed `now`. */
  function Prepare(expected: Option<int>, now: int, hashrate: Rational, blocksFinalized: int): Request {
    var tier := CalculatePlayerTier(blocksFinalized);
    var start := if expected.Some? then expected.value else now;
    var progress := SimulateOfflineProgress(start, now, hashrate, OfflineCapForTier(tier), tier);
    var worthAdvancing := SECOND <= progress.windowEndedAt - progress.windowStartedAt;
    Prepared(expected, if worthAdvancing then Some(now) else None,
             if worthAdvancing && 0 < progress.simulatedWork then Some(progress) else None)
  }

  // ---------------------------------------------------------------- interleaved requests

  datatype System = System(row: Row, requests: map<int, Request>)

  datatype Step =
    | Create(now: int)
    | Load(id: int)
    | Compute(id: int, now: int, hashrate: Rational, blocksFinalized: int)
    | Commit(id: int)

  function Apply(s: System, step: Step): System {
    match step
    case Create(now) => s.(row := Created(s.row, now))
    case Load(id) => s.(requests := s.requests[id := Loaded(s.row.lastOfflineProgressAt)])
    case Compute(id, now, hashrate, blocks) =>
      if id in s.requests && s.requests[id].Loaded? then
        s.(requests := s.requests[id := Prepare(s.requests[id].expected, now, hashrate, blocks)])
      else s
    case Commit(id) =>
      if id in s.requests && s.requests[id].Prepared? then
        var r := s.requests[id];
        System(UpdateRow(s.row, r.expected, r.next, r.entry), s.requests - {id})
      else s
  }

  ghost function Run(s: System, steps: seq<Step>): System {
    if steps == [] then s else Apply(Run(s, steps[..|steps| - 1]), steps[|steps| - 1])
  }

  /** Hashrates of a run stay below a maximum (rounded to units of 0.000001). */
  ghost predicate RatesBelow(steps: seq<Step>, maxRate: int) {
    forall i :: 0 <= i < |steps| ==> steps[i].Compute? ==> OfflineRate(steps[i].hashrate) <= maxRate
  }

  ghost function CreditTotal(entries: seq<OfflineEntry>): int {
    if entries == [] then 0 else CreditTotal(entries[..|entries| - 1]) + entries[|entries| - 1].creditedWork
  }

  ghost predicate RequestOk(r: Request, maxRate: int) {
    r.Prepared? ==>
      && (r.next.Some? ==> r.expected.Some? && r.expected.value + SECOND <= r.next.value)
      && (r.entry.Some? ==>
            && r.next.Some?
            && r.entry.value.windowStartedAt == r.expected.value && r.entry.value.windowEndedAt == r.next.value
            && WellFormed(r.entry.value, maxRate))
  }

  /** Recorded windows are ordered and disjoint, and lie before the marker. */
  ghost predicate WindowsDisjoint(row: Row) {
    && (forall i, j :: 0 <= i < j < |row.entries| ==> row.entries[i].windowEndedAt <= row.entries[j].windowStartedAt)
    && (row.entries != [] ==> row.lastOfflineProgressAt.Some?)
    && forall i :: 0 <= i < |row.entries| ==> row.entries[i].windowEndedAt <= row.lastOfflineProgressAt.value
  }

  /** Credit given so far is covered by the time that has passed since `origin`. */
  ghost predicate CreditCovered(row: Row, maxRate: int, origin: int) {
    && (row.lastOfflineProgressAt.None? ==> row.entries == [])
    && (row.lastOfflineProgressAt.Some? ==>
          && origin <= row.lastOfflineProgressAt.value
          && CreditTotal(row.entries) * SECOND <= maxRate * (row.lastOfflineProgressAt.value - origin))
  }

  ghost predicate Inv(s: System, maxRate: int, origin: int) {
    && 0 <= maxRate
    && (forall id :: id in s.requests ==> RequestOk(s.requests[id], maxRate))
    && WindowsDisjoint(s.row)
    && (forall i :: 0 <= i < |s.row.entries| ==> WellFormed(s.row.entries[i], maxRate))
    && CreditCovered(s.row, maxRate, origin)
  }

  lemma WellFormedBelow(entry: OfflineEntry, rate: int, maxRate: int)
    requires WellFormed(entry, rate) && rate <= maxRate
    ensures WellFormed(entry, maxRate)
  {
    ProductMonotone(rate, maxRate, entry.windowEndedAt - entry.windowStartedAt);
  }

  lemma PrepareOk(expected: Option<int>, now: int, hashrate: Rational, blocks: int, maxRate: int)
    requires OfflineRate(hashrate) <= maxRate
    ensures RequestOk(Prepare(expected, now, hashrate, blocks), maxRate)
  {
    hide OfflineRate, WellFormed, OfflineCapForTier, Slices, Total;
    var tier := CalculatePlayerTier(blocks);
    if expected.Some? && expected.value < now {
      SimulationWellFormed(expected.value, now, hashrate, OfflineCapForTier(tier), tier);
      WellFormedBelow(SimulateOfflineProgress(expected.value, now, hashrate, OfflineCapForTier(tier), tier),
                      OfflineRate(hashrate), maxRate);
    }
  }

  lemma CommitKeepsWindows(row: Row, r: Request, maxRate: int)
    requires WindowsDisjoint(row) && r.Prepared? && RequestOk(r, maxRate)
    ensures WindowsDisjoint(UpdateRow(row, r.expected, r.next, r.entry))
  {
    hide WellFormed;
  }

  lemma CommitKeepsCover(row: Row, r: Request, maxRate: int, origin: int)
    requires CreditCovered(row, maxRate, origin) && r.Prepared? && RequestOk(r, maxRate) && 0 <= maxRate
    ensures CreditCovered(UpdateRow(row, r.expected, r.next, r.entry), maxRate, origin)
  {
    if CanAdvance(row, r.expected, r.next) {
      var from, to := r.expected.value, r.next.value;
      CoverGrows(maxRate, origin, from, to);
      if r.entry.Some? {
        assert (row.entries + [r.entry.value])[..|row.entries|] == row.entries;
      } else {
        assert row.entries + [] == row.entries;
        ProductMonotone(0, maxRate, to - from);
      }
    }
  }

  lemma CoverGrows(maxRate: int, origin: int, from: int, to: int)
    ensures maxRate * (to - origin) == maxRate * (from - origin) + maxRate * (to - from)
  {
  }

  lemma StepKeepsInv(s: System, step: Step, maxRate: int, origin: int)
    requires Inv(s, maxRate, origin)
    requires step.Compute? ==> OfflineRate(step.hashrate) <= maxRate
    requires step.Create? ==> origin <= step.now
    ensures Inv(Apply(s, step), maxRate, origin)
  {
    hide WellFormed, OfflineRate, Prepare, WindowsDisjoint, CreditCovered;
    match step
    case Create(now) =>
      CreateKeepsRow(s.row, now, maxRate, origin);
    case Load(id) =>
    case Compute(id, now, hashrate, blocks) =>
      if id in s.requests && s.requests[id].Loaded? {
        PrepareOk(s.requests[id].expected, now, hashrate, blocks, maxRate);
      }
    case Commit(id) =>
      if id in s.requests && s.requests[id].Prepared? {
        CommitKeepsWindows(s.row, s.requests[id], maxRate);
        CommitKeepsCover(s.row, s.requests[id], maxRate, origin);
      }
  }

  lemma CreateKeepsRow(row: Row, now: int, maxRate: int, origin: int)
    requires WindowsDisjoint(row) && CreditCovered(row, maxRate, origin) && 0 <= maxRate && origin <= now
    ensures WindowsDisjoint(Created(row, now)) && CreditCovered(Created(row, now), maxRate, origin)
  {
    ProductMonotone(0, maxRate, now - origin);
  }

  /** The marker never moves back and entries are never changed or removed. */
  ghost predicate Forward(before: Row, after: Row) {
    && before.entries <= after.entries
    && (before.lastOfflineProgressAt.Some? ==>
          after.lastOfflineProgressAt.Some? && before.lastOfflineProgressAt.value <= after.lastOfflineProgressAt.value)
  }

  lemma StepMovesForward(s: System, step: Step, maxRate: int, origin: int)
    requires Inv(s, maxRate, origin)
    ensures Forward(s.row, Apply(s, step).row)
  {
    hide WellFormed;
  }

  /** Under every interleaving of profile requests, for any clocks, windows are ordered and disjoint, every
  entry is a correct capped credit, and total credit is at most the maximum hashrate times the time passed. */
  lemma {:induction false} NoDoubleCredit(s: System, steps: seq<Step>, maxRate: int, origin: int)
    requires Inv(s, maxRate, origin) && RatesBelow(steps, maxRate)
    requires forall i :: 0 <= i < |steps| ==> steps[i].Create? ==> origin <= steps[i].now
    ensures Inv(Run(s, steps), maxRate, origin)
    ensures Forward(s.row, Run(s, steps).row)
  {
    hide Inv, OfflineRate, Apply;
    if steps != [] {
      var before := steps[..|steps| - 1];
      NoDoubleCredit(s, before, maxRate, origin);
      StepKeepsInv(Run(s, before), steps[|steps| - 1], maxRate, origin);
      StepMovesForward(Run(s, before), steps[|steps| - 1], maxRate, origin);
    }
  }

  lemma FreshSystem(maxRate: int, origin: int)
    requires 0 <= maxRate
    ensures Inv(System(Row(None, []), map[]), maxRate, origin)
  {
  }

  /** The same from the start: a player whose row has no marker and no entries. */
  lemma {:induction false} NoDoubleCreditFromStart(steps: seq<Step>, maxRate: int, origin: int)
    requires 0 <= maxRate && RatesBelow(steps, maxRate)
    requires forall i :: 0 <= i < |steps| ==> steps[i].Create? ==> origin <= steps[i].now
    ensures var row := Run(System(Row(None, []), map[]), steps).row;
      && WindowsDisjoint(row)
      && (forall i :: 0 <= i < |row.entries| ==> WellFormed(row.entries[i], maxRate))
      && (row.lastOfflineProgressAt.Some? ==>
            CreditTotal(row.entries) * SECOND <= maxRate * (row.lastOfflineProgressAt.value - origin))
  {
    FreshSystem(maxRate, origin);
    NoDoubleCredit(System(Row(None, []), map[]), steps, maxRate, origin);
    hide Run, WellFormed, CreditTotal, WindowsDisjoint;
  }

  /** Of all requests that computed from the same marker, at most one is credited: once one has advanced the
  window, each of the others commits without effect, however late. */
  lemma {:induction false} LoserIsIgnored(s: System, winner: int, steps: seq<Step>, loser: int, maxRate: int,
                                          origin: int)
    requires Inv(s, maxRate, origin) && RatesBelow(steps, maxRate)
    requires forall i :: 0 <= i < |steps| ==> steps[i].Create? ==> origin <= steps[i].now
    requires winner in s.requests && s.requests[winner].Prepared?
    requires CanAdvance(s.row, s.requests[winner].expected, s.requests[winner].next)
    requires var after := Run(Apply(s, Commit(winner)), steps);
      loser in after.requests && after.requests[loser].Prepared?
      && after.requests[loser].expected == s.requests[winner].expected
    ensures var after := Run(Apply(s, Commit(winner)), steps);
      Apply(after, Commit(loser)).row == after.row
  {
    hide WellFormed, OfflineRate;
    var won := Apply(s, Commit(winner));
    StepKeepsInv(s, Commit(winner), maxRate, origin);
    NoDoubleCredit(won, steps, maxRate, origin);
    hide Run, Inv;
    assert RequestOk(s.requests[winner], maxRate) by { InvRequests(s, maxRate, origin); }
  }

  lemma InvRequests(s: System, maxRate: int, origin: int)
    requires Inv(s, maxRate, origin)
    ensures forall id :: id in s.requests ==> RequestOk(s.requests[id], maxRate)
  {
  }

  // ---------------------------------------------------------------- the cap is per window

  lemma FastRate()
    ensures OfflineRate(Ratio(2000, 1)) == 2000 * MICRO
  {
    PlainMultiplier();
    RoundExact(2000 * MICRO, 1);
  }

  /** One second at 2000 hashes per second already exceeds the cap of the first tier. */
  lemma CappedSecond(from: int)
    ensures var r := Prepare(Some(from), from + SECOND, Ratio(2000, 1), 0);
      r.next == Some(from + SECOND) && r.entry.Some? && r.entry.value.creditedWork == OfflineCapForTier(1)
  {
    FastRate();
    SimulatedWork(from, from + SECOND, Ratio(2000, 1), OfflineCapForTier(1), 1);
    hide OfflineRate, Slices, Total;
    assert Seconds(from, from + SECOND) == 1;
  }

  /** A profile read that nobody interrupts. */
  ghost function ReadSteps(id: int, now: int, hashrate: Rational, blocks: int): seq<Step> {
    [Load(id)] + [Compute(id, now, hashrate, blocks)] + [Commit(id)]
  }

  lemma RunMore(s: System, steps: seq<Step>, step: Step)
    ensures Run(s, steps + [step]) == Apply(Run(s, steps), step)
  {
    assert (steps + [step])[..|steps|] == steps;
  }

  lemma ReadOnce(start: System, before: seq<Step>, id: int, now: int, hashrate: Rational, blocks: int)
    ensures var row := Run(start, before).row;
      var r := Prepare(row.lastOfflineProgressAt, now, hashrate, blocks);
      Run(start, before + ReadSteps(id, now, hashrate, blocks)).row == UpdateRow(row, r.expected, r.next, r.entry)
  {
    hide Run, Prepare;
    assert Prepare(Run(start, before).row.lastOfflineProgressAt, now, hashrate, blocks).Prepared? by {
      IsPrepared(Run(start, before).row.lastOfflineProgressAt, now, hashrate, blocks);
    }
    RunMore(start, before, Load(id));
    RunMore(start, before + [Load(id)], Compute(id, now, hashrate, blocks));
    RunMore(start, before + [Load(id)] + [Compute(id, now, hashrate, blocks)], Commit(id));
    assert before + ReadSteps(id, now, hashrate, blocks)
      == before + [Load(id)] + [Compute(id, now, hashrate, blocks)] + [Commit(id)];
  }

  lemma IsPrepared(expected: Option<int>, now: int, hashrate: Rational, blocks: int)
    ensures Prepare(expected, now, hashrate, blocks).Prepared?
    ensures Prepare(expected, now, hashrate, blocks).expected == expected
  {
    hide OfflineCapForTier, SimulateOfflineProgress;
  }

  /** Every window is cut to the cap on its own: two profile reads within two seconds credit twice the cap of the
  tier. */
  lemma CapIsPerWindow()
    ensures var steps := ReadSteps(1, SECOND, Ratio(2000, 1), 0) + ReadSteps(2, 2 * SECOND, Ratio(2000, 1), 0);
      var row := Run(System(Row(Some(0), []), map[]), steps).row;
      CreditTotal(row.entries) == 2 * OfflineCapForTier(1) && row.lastOfflineProgressAt == Some(2 * SECOND)
  {
    hide *;
    var start, h := System(Row(Some(0), []), map[]), Ratio(2000, 1);
    var steps := ReadSteps(1, SECOND, h, 0);
    NothingRun(start);
    CappedSecond(0);
    CappedSecond(SECOND);
    IsPrepared(Some(0), SECOND, h, 0);
    IsPrepared(Some(SECOND), 2 * SECOND, h, 0);
    ReadOnce(start, [], 1, SECOND, h, 0);
    assert [] + steps == steps;
    var first := Prepare(Some(0), SECOND, h, 0).entry.value;
    Advances(start.row, Some(0), Some(SECOND), first);
    ReadOnce(start, steps, 2, 2 * SECOND, h, 0);
    Advances(Row(Some(SECOND), [] + [first]), Some(SECOND), Some(2 * SECOND),
             Prepare(Some(SECOND), 2 * SECOND, h, 0).entry.value);
    NothingCredited();
  }

  lemma NothingRun(s: System)
    ensures Run(s, []) == s
  {
  }

  lemma NothingCredited()
    ensures CreditTotal([]) == 0
  {
  }

  lemma Advances(row: Row, expected: Option<int>, next: Option<int>, entry: OfflineEntry)
    requires row.lastOfflineProgressAt == expected && next.Some?
    ensures UpdateRow(row, expected, next, Some(entry)) == Row(next, row.entries + [entry])
    ensures CreditTotal(row.entries + [entry]) == CreditTotal(row.entries) + entry.creditedWork
  {
    assert (row.entries + [entry])[..|row.entries|] == row.entries;
  }
}
