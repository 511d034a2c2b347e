/** What one profile read credits (server/domain/players/service.py, mining/service.py). */
module OfflineReads {
  import opened Numbers
  import opened OfflineCredit

  /** Offline work runs at the hashrate to the nearest unit, at nothing for a negative one. */
  lemma {:induction false} OfflineRateNearest(hashrate: Rational)
    ensures var rate := OfflineRate(hashrate);
      if hashrate.num < 0 then rate == 0
      else 2 * hashrate.num * 1_000_000 - hashrate.den < 2 * (rate * hashrate.den)
           <= 2 * hashrate.num * 1_000_000 + hashrate.den
  {
    IntervalSlicer.PlainMultiplier();
    RoundExact(0, hashrate.den);
    var base := NonNegative(hashrate);
    assert base.num * 1 * MICRO == base.num * MICRO;
  }

  /** The cap of a player in credits: 1000 below 5 finalized blocks, 5000 below 20, and 10000 from then on. */
  lemma CapOfPlayer(blocks: int)
    ensures OfflineCapForTier(CalculatePlayerTier(blocks))
      == (if blocks < 5 then 1_000 else if blocks < 20 then 5_000 else 10_000) * 1_000_000
  {
  }

  /** From tier 3 on every tier doubles the cap. */
  lemma {:induction false} CapDoubles(tier: int)
    requires 3 <= tier
    ensures OfflineCapForTier(3) == 10_000 * 1_000_000
    ensures OfflineCapForTier(tier + 1) == 2 * OfflineCapForTier(tier)
  {
    assert Power2(tier - 2) == 2 * Power2(tier - 3);
    assert Power2(0) == 1;
  }

  lemma {:induction false} SimulationOf(startedAt: int, now: int, hashrate: Rational, cap: int, tier: int)
    requires startedAt < now && 0 <= cap && 1 <= tier
    ensures var work := OfflineRate(hashrate) * ((now - startedAt) / 1_000_000);
      SimulateOfflineProgress(startedAt, now, hashrate, cap, tier)
        == OfflineEntry(startedAt, now, work, Min(work, cap), cap, cap < work, work - Min(work, cap), tier)
  {
    hide OfflineRate, IntervalSlicer.Slices, IntervalSlicer.Total, NonNegative;
    SimulatedWork(startedAt, now, hashrate, cap, tier);
  }

  /** A profile read that nothing interrupts, in any state: with less than a second since the marker, or none, it
  changes nothing. Otherwise it moves the marker to its own clock and, if there was any work, records one window with
  the rate times the whole seconds, cut to the cap of the player's tier. */
  lemma {:induction false} UninterruptedRead(s: System, before: seq<Step>, id: int, now: int, hashrate: Rational,
                                             blocks: int)
    ensures var row := Run(s, before).row;
      var after := Run(s, before + ReadSteps(id, now, hashrate, blocks)).row;
      if row.lastOfflineProgressAt.None? || now < row.lastOfflineProgressAt.value + 1_000_000 then after == row
      else
        var marker := row.lastOfflineProgressAt.value;
        var work := OfflineRate(hashrate) * ((now - marker) / 1_000_000);
        var tier := if blocks < 5 then 1 else if blocks < 20 then 2 else 3;
        var cap := (if blocks < 5 then 1_000 else if blocks < 20 then 5_000 else 10_000) * 1_000_000;
        && 0 <= work
        && after.lastOfflineProgressAt == Some(now)
        && after.entries == row.entries
             + if work == 0 then []
               else [OfflineEntry(marker, now, work, Min(work, cap), cap, cap < work, work - Min(work, cap), tier)]
  {
    var row := Run(s, before).row;
    hide Run, OfflineRate, SimulateOfflineProgress;
    ReadOnce(s, before, id, now, hashrate, blocks);
    hide ReadSteps;
    var tier := CalculatePlayerTier(blocks);
    CapOfPlayer(blocks);
    if row.lastOfflineProgressAt.Some? && row.lastOfflineProgressAt.value + SECOND <= now {
      SimulationOf(row.lastOfflineProgressAt.value, now, hashrate, OfflineCapForTier(tier), tier);
      OfflineRateNonNegative(hashrate);
      NonNegativeWork(OfflineRate(hashrate), now - row.lastOfflineProgressAt.value);
    } else {
      NoWindow(if row.lastOfflineProgressAt.Some? then row.lastOfflineProgressAt.value else now, now, hashrate,
               OfflineCapForTier(tier), tier);
    }
  }

  lemma NonNegativeWork(rate: int, span: int)
    requires 0 <= rate && 0 <= span
    ensures 0 <= rate * (span / 1_000_000)
  {
    ProductMonotone(0, rate, span / 1_000_000);
  }

  lemma NoWindow(startedAt: int, now: int, hashrate: Rational, cap: int, tier: int)
    ensures var progress := SimulateOfflineProgress(startedAt, now, hashrate, cap, tier);
      progress.windowStartedAt == startedAt && progress.windowEndedAt == now
  {
    hide IntervalSlicer.Slices, IntervalSlicer.Total;
  }
}
