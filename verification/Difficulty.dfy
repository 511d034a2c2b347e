/** Adjusting the required work of the next block (server/domain/difficulty/service.py). */
module Difficulty {
  import opened Numbers

  /** A row of the finalized chain. Work is in units of 0.000001, time in microseconds. */
  datatype FinalizedBlock = FinalizedBlock(number: int, requiredWork: int, totalWork: int, finalizedAt: int)

  datatype Config = Config(
    targetBlockSeconds: int, historyWindow: int, maxUp: Rational, maxDown: Rational, minimumRequiredWork: int)

  const DEFAULT_CONFIG := Config(60, 20, Ratio(1, 10), Ratio(1, 10), MICRO)

  /** Limits under which a step is a bounded change: percentages between 0 and 1, a positive target. */
  ghost predicate Sensible(config: Config) {
    && 0 <= config.targetBlockSeconds && 0 <= config.minimumRequiredWork
    && 0 <= config.maxUp.num && 0 <= config.maxDown.num <= config.maxDown.den
  }

  /** The Python slice blocks[-size:], for every size. */
  function Window(blocks: seq<FinalizedBlock>, size: int): seq<FinalizedBlock> {
    if 0 < size then (if size < |blocks| then blocks[|blocks| - size..] else blocks)
    else if -size <= |blocks| then blocks[-size..] else []
  }

  /** 1 + min(ratio - 1, up), or 1 - min(1 - ratio, down), for ratio = fast/slow. */
  function Multiplier(fast: int, slow: int, up: Rational, down: Rational): Rational
    requires 0 < slow
  {
    if slow < fast then
      if (fast - slow) * up.den <= up.num * slow then Ratio(fast, slow) else Ratio(up.den + up.num, up.den)
    else
      if (slow - fast) * down.den <= down.num * slow then Ratio(fast, slow) else Ratio(down.den - down.num, down.den)
  }

  /** Scales the required work by the multiplier of an active event (events/service.py,
  apply_difficulty_modifier). */
  function ApplyEvent(work: Rational, event: Option<Rational>): Rational {
    match event
    case None => work
    case Some(value) =>
      if value.num == 0 then work
      else if 0 < value.num then
        PositiveProduct(work.den, value.num);
        Ratio(RoundHalfEven(work.num * value.den, work.den * value.num), 1)
      else
        PositiveProduct(work.den, -value.num);
        Ratio(RoundHalfEven(work.num * -value.den, work.den * -value.num), 1)
  }

  /** quantize(max(work, minimum)). */
  function Floored(work: Rational, minimum: int): int {
    if minimum * work.den <= work.num then RoundHalfUp(work.num, work.den) else minimum
  }

  /** The requirement after a window of `blocks` blocks that took `elapsed` microseconds. */
  function Adjusted(config: Config, current: int, blocks: int, elapsed: int, event: Option<Rational>): int
    requires 0 < elapsed
  {
    var fast := config.targetBlockSeconds * SECOND * (blocks - 1);
    var multiplier := Multiplier(fast, elapsed, config.maxUp, config.maxDown);
    Floored(ApplyEvent(Ratio(current * multiplier.num, multiplier.den), event), config.minimumRequiredWork)
  }

  /** compute_next_required_work. */
  function ComputeNextRequiredWork(config: Config, current: int, finalized: seq<FinalizedBlock>,
                                   event: Option<Rational>)
    : (next: int)
    ensures config.minimumRequiredWork <= next
  {
    var window := Window(finalized, config.historyWindow);
    if |finalized| < 2 || |window| < 2 then Max(current, config.minimumRequiredWork)
    else
      var elapsed := window[|window| - 1].finalizedAt - window[0].finalizedAt;
      if elapsed <= 0 then Max(current, config.minimumRequiredWork)
      else
        AdjustedAboveMinimum(config, current, |window|, elapsed, event);
        Adjusted(config, current, |window|, elapsed, event)
  }

  lemma {:induction false} FlooredAboveMinimum(work: Rational, minimum: int)
    ensures minimum <= Floored(work, minimum)
  {
    if minimum * work.den <= work.num {
      RoundExact(minimum, work.den);
      HalfUpMonotone(minimum * work.den, work.num, work.den);
    }
  }

  /** Whatever event is active, the requirement never falls below the minimum. */
  lemma {:induction false} AdjustedAboveMinimum(config: Config, current: int, blocks: int, elapsed: int,
                                                event: Option<Rational>)
    requires 0 < elapsed
    ensures config.minimumRequiredWork <= Adjusted(config, current, blocks, elapsed, event)
  {
    var fast := config.targetBlockSeconds * SECOND * (blocks - 1);
    var multiplier := Multiplier(fast, elapsed, config.maxUp, config.maxDown);
    FlooredAboveMinimum(ApplyEvent(Ratio(current * multiplier.num, multiplier.den), event), config.minimumRequiredWork);
  }

  // ---------------------------------------------------------------- comparing fractions

  lemma {:induction false} FlooredMonotone(a: Rational, b: Rational, minimum: int)
    requires AtMost(a, b) && 0 <= a.num && 0 <= b.num && 0 <= minimum
    ensures Floored(a, minimum) <= Floored(b, minimum)
  {
    FlooredAboveMinimum(b, minimum);
    if minimum * a.den <= a.num {
      FlooredTransitive(a, b, minimum);
      HalfUpAcross(a, b);
    }
  }

  lemma FlooredTransitive(a: Rational, b: Rational, minimum: int)
    requires AtMost(a, b) && minimum * a.den <= a.num
    ensures minimum * b.den <= b.num
  {
    ProductMonotone(minimum * a.den, a.num, b.den);
    ThreeFactors(minimum, a.den, b.den);
    ThreeFactors(minimum, b.den, a.den);
    ProductReflects(minimum * b.den, b.num, a.den);
  }

  lemma ScaleAtMost(a: Rational, b: Rational, k: int)
    requires AtMost(a, b) && 0 <= k
    ensures AtMost(Ratio(k * a.num, a.den), Ratio(k * b.num, b.den))
  {
    ProductMonotone(a.num * b.den, b.num * a.den, k);
    ThreeFactors(k, a.num, b.den);
    ThreeFactors(k, b.num, a.den);
  }

  // ---------------------------------------------------------------- main results

  /** The multiplier stays between 1 - down and 1 + up. */
  lemma MultiplierBounds(fast: int, slow: int, up: Rational, down: Rational)
    requires 0 < slow && 0 <= fast && 0 <= up.num && 0 <= down.num
    ensures AtMost(Ratio(down.den - down.num, down.den), Multiplier(fast, slow, up, down))
    ensures AtMost(Multiplier(fast, slow, up, down), Ratio(up.den + up.num, up.den))
  {
    ProductMonotone(0, up.num, down.den);
    ProductMonotone(0, down.num, up.den);
    if slow < fast {
      ProductMonotone(0, down.num, slow);
      ProductMonotone(slow, fast, down.den);
    } else {
      ProductMonotone(0, up.num, slow);
      ProductMonotone(fast, slow, up.den);
    }
  }

  /** Blocks that took longer never raise the multiplier. */
  lemma {:induction false} MultiplierMonotone(fast: int, quick: int, slow: int, up: Rational, down: Rational)
    requires 0 < quick <= slow && 0 <= fast && 0 <= up.num && 0 <= down.num
    ensures AtMost(Multiplier(fast, slow, up, down), Multiplier(fast, quick, up, down))
  {
    if quick < fast && !((fast - quick) * up.den <= up.num * quick) {
      MultiplierBounds(fast, slow, up, down);
    } else if slow >= fast && !((slow - fast) * down.den <= down.num * slow) {
      MultiplierBounds(fast, quick, up, down);
    } else {
      ClampedBoth(fast, quick, slow, up, down);
      ProductMonotone(quick, slow, fast);
    }
  }

  /** When neither end is cut off, both multipliers are the plain ratios. */
  lemma {:induction false} ClampedBoth(fast: int, quick: int, slow: int, up: Rational, down: Rational)
    requires 0 < quick <= slow && 0 <= fast && 0 <= up.num && 0 <= down.num
    requires quick < fast ==> (fast - quick) * up.den <= up.num * quick
    requires fast <= slow ==> (slow - fast) * down.den <= down.num * slow
    ensures Multiplier(fast, quick, up, down) == Ratio(fast, quick)
    ensures Multiplier(fast, slow, up, down) == Ratio(fast, slow)
  {
    if slow < fast {
      ProductMonotone(fast - slow, fast - quick, up.den);
      ProductMonotone(quick, slow, up.num);
    }
    if fast <= quick {
      assert (quick - fast) * down.den <= down.num * quick by {
        GapShrinks(fast, quick, slow, down);
      }
    }
  }

  lemma GapShrinks(fast: int, quick: int, slow: int, down: Rational)
    requires 0 <= fast <= quick <= slow && 0 < quick && 0 <= down.num
    requires (slow - fast) * down.den <= down.num * slow
    ensures (quick - fast) * down.den <= down.num * quick
  {
    if down.den <= down.num {
      ProductMonotone(quick - fast, quick, down.den);
      ProductMonotone(down.den, down.num, quick);
    } else {
      // slow * (den - num) <= fast * den, and quick is no larger than slow
      assert (slow - fast) * down.den == slow * down.den - fast * down.den;
      assert (quick - fast) * down.den == quick * down.den - fast * down.den;
      assert slow * (down.den - down.num) == slow * down.den - down.num * slow;
      assert quick * (down.den - down.num) == quick * down.den - down.num * quick;
      ProductMonotone(quick, slow, down.den - down.num);
    }
  }

  /** Between the largest step down and the largest step up, each rounded to units, or at the minimum. */
  ghost predicate WithinStep(config: Config, current: int, next: int) {
    var up, down := config.maxUp, config.maxDown;
    && RoundHalfUp(current * (down.den - down.num), down.den) <= next
    && next <= Max(config.minimumRequiredWork, RoundHalfUp(current * (up.den + up.num), up.den))
  }

  /** Without an event the requirement moves by at most the configured percentage, up to rounding to the
  nearest unit, and is raised to the minimum. */
  lemma {:induction false} StepIsBounded(config: Config, current: int, blocks: int, elapsed: int)
    requires Sensible(config) && 0 <= current && 1 <= blocks && 0 < elapsed
    ensures WithinStep(config, current, Adjusted(config, current, blocks, elapsed, None))
  {
    var up, down := config.maxUp, config.maxDown;
    var fast := config.targetBlockSeconds * SECOND * (blocks - 1);
    ProductMonotone(0, config.targetBlockSeconds * SECOND, blocks - 1);
    var multiplier := Multiplier(fast, elapsed, up, down);
    MultiplierBounds(fast, elapsed, up, down);
    MultiplierNonNegative(fast, elapsed, up, down);
    var low, high := Ratio(down.den - down.num, down.den), Ratio(up.den + up.num, up.den);
    hide Multiplier, RoundHalfUp;
    ScaleAtMost(low, multiplier, current);
    ScaleAtMost(multiplier, high, current);
    ProductMonotone(0, low.num, current);
    ProductMonotone(0, multiplier.num, current);
    ProductMonotone(0, high.num, current);
    HalfUpAcross(Ratio(current * low.num, low.den), Ratio(current * multiplier.num, multiplier.den));
    HalfUpAcross(Ratio(current * multiplier.num, multiplier.den), Ratio(current * high.num, high.den));
    hide AtMost;
    FlooredDominates(Ratio(current * multiplier.num, multiplier.den), config.minimumRequiredWork);
  }

  lemma MultiplierNonNegative(fast: int, slow: int, up: Rational, down: Rational)
    requires 0 < slow && 0 <= fast && 0 <= up.num && 0 <= down.num <= down.den
    ensures 0 <= Multiplier(fast, slow, up, down).num
  {
  }

  /** max and rounding commute with a whole minimum. */
  lemma {:induction false} FlooredDominates(work: Rational, minimum: int)
    ensures Floored(work, minimum) == Max(minimum, RoundHalfUp(work.num, work.den))
  {
    RoundExact(minimum, work.den);
    if minimum * work.den <= work.num {
      HalfUpMonotone(minimum * work.den, work.num, work.den);
    } else {
      HalfUpMonotone(work.num, minimum * work.den, work.den);
    }
  }

  /** For a window of fixed size, a longer time never asks for more work. */
  lemma {:induction false} SlowerNeverHarder(config: Config, current: int, blocks: int, quick: int, slow: int)
    requires Sensible(config) && 0 <= current && 1 <= blocks && 0 < quick <= slow
    ensures Adjusted(config, current, blocks, slow, None) <= Adjusted(config, current, blocks, quick, None)
  {
    var up, down := config.maxUp, config.maxDown;
    var fast := config.targetBlockSeconds * SECOND * (blocks - 1);
    ProductMonotone(0, config.targetBlockSeconds * SECOND, blocks - 1);
    MultiplierMonotone(fast, quick, slow, up, down);
    MultiplierNonNegative(fast, slow, up, down);
    MultiplierNonNegative(fast, quick, up, down);
    var a, b := Multiplier(fast, slow, up, down), Multiplier(fast, quick, up, down);
    hide Multiplier;
    ScaleAtMost(a, b, current);
    ProductMonotone(0, a.num, current);
    ProductMonotone(0, b.num, current);
    FlooredMonotone(Ratio(current * a.num, a.den), Ratio(current * b.num, b.den), config.minimumRequiredWork);
  }

  // ---------------------------------------------------------------- the requirement of any chain

  /** Whatever blocks were finalized before, and at whatever times: without an event the next requirement is one
  bounded step away from the current one. */
  lemma {:induction false} NextIsBounded(config: Config, current: int, finalized: seq<FinalizedBlock>)
    requires Sensible(config) && 0 <= current
    ensures WithinStep(config, current, ComputeNextRequiredWork(config, current, finalized, None))
  {
    KeptIsBounded(config, current);
    var window := Window(finalized, config.historyWindow);
    hide Adjusted, Window, RoundHalfUp;
    if 2 <= |finalized| && 2 <= |window| && window[0].finalizedAt < window[|window| - 1].finalizedAt {
      StepIsBounded(config, current, |window|, window[|window| - 1].finalizedAt - window[0].finalizedAt);
    }
  }

  lemma {:induction false} KeptIsBounded(config: Config, current: int)
    requires Sensible(config) && 0 <= current
    ensures WithinStep(config, current, Max(current, config.minimumRequiredWork))
  {
    var up, down := config.maxUp, config.maxDown;
    RoundExact(current, down.den);
    RoundExact(current, up.den);
    ProductMonotone(down.den - down.num, down.den, current);
    ProductMonotone(up.den, up.den + up.num, current);
    HalfUpMonotone(current * (down.den - down.num), current * down.den, down.den);
    HalfUpMonotone(current * up.den, current * (up.den + up.num), up.den);
    hide RoundHalfUp;
  }

  /** Time that the blocks of the history window took. */
  ghost function Elapsed(config: Config, finalized: seq<FinalizedBlock>): int {
    var window := Window(finalized, config.historyWindow);
    if window == [] then 0 else window[|window| - 1].finalizedAt - window[0].finalizedAt
  }

  /** Of two histories of the same length, the slower one never asks for more work. */
  lemma {:induction false} SlowerHistoryNeverHarder(config: Config, current: int, quick: seq<FinalizedBlock>,
                                                    slow: seq<FinalizedBlock>)
    requires Sensible(config) && 0 <= current && |quick| == |slow|
    requires 0 < Elapsed(config, quick) <= Elapsed(config, slow)
    ensures ComputeNextRequiredWork(config, current, slow, None)
      <= ComputeNextRequiredWork(config, current, quick, None)
  {
    var size := |Window(quick, config.historyWindow)|;
    assert size == |Window(slow, config.historyWindow)| && size <= |quick|;
    hide Adjusted, Window;
    if 2 <= size {
      SlowerNeverHarder(config, current, size, Elapsed(config, quick), Elapsed(config, slow));
    }
  }

  // ---------------------------------------------------------------- exactly how much is asked for

  /** Blocks that count: the last ones, at most the size of the history window. */
  ghost function Counting(config: Config, finalized: seq<FinalizedBlock>): int {
    Min(config.historyWindow, |finalized|)
  }

  /** Time between the first and the last of them. */
  ghost function Taken(config: Config, finalized: seq<FinalizedBlock>): int
    requires 1 <= config.historyWindow && finalized != []
  {
    finalized[|finalized| - 1].finalizedAt - finalized[|finalized| - Counting(config, finalized)].finalizedAt
  }

  /** Time that n blocks should take from the first to the last. */
  ghost function Target(config: Config, n: int): int {
    config.targetBlockSeconds * SECOND * (n - 1)
  }

  /** The current requirement scaled by expected over taken time, but by no more than the caps. */
  ghost function Proposed(config: Config, current: int, expected: int, taken: int): Rational
    requires 0 < taken
  {
    var up, down := config.maxUp, config.maxDown;
    if up.num * taken < (expected - taken) * up.den then Ratio(current * (up.den + up.num), up.den)
    else if down.num * taken < (taken - expected) * down.den then Ratio(current * (down.den - down.num), down.den)
    else Ratio(current * expected, taken)
  }

  /** What an event factor does: dividing the proposal, rounded to units; a factor of zero does nothing. */
  ghost function Divided(proposed: Rational, factor: Rational): int {
    if factor.num == 0 then RoundHalfUp(proposed.num, proposed.den)
    else if 0 < factor.num then
      PositiveProduct(proposed.den, factor.num);
      RoundHalfEven(proposed.num * factor.den, proposed.den * factor.num)
    else
      PositiveProduct(proposed.den, -factor.num);
      RoundHalfEven(proposed.num * -factor.den, proposed.den * -factor.num)
  }

  /** The next requirement is the proposal for the counting blocks, rounded half up, or divided by the factor of an
  active event, and never below the minimum. With too few blocks, or blocks that took no time, it stays. */
  lemma {:induction false} NextIsProposed(config: Config, current: int, finalized: seq<FinalizedBlock>,
                                          event: Option<Rational>)
    requires 1 <= config.historyWindow && 0 <= config.maxUp.num && 0 <= config.maxDown.num
    ensures var n, next := Counting(config, finalized), ComputeNextRequiredWork(config, current, finalized, event);
      if n < 2 || Taken(config, finalized) <= 0 then next == Max(config.minimumRequiredWork, current)
      else
        var proposed := Proposed(config, current, Target(config, n), Taken(config, finalized));
        next == Max(config.minimumRequiredWork,
                    if event.None? then RoundHalfUp(proposed.num, proposed.den) else Divided(proposed, event.value))
  {
    var n := Counting(config, finalized);
    if 2 <= n {
      var window := Window(finalized, config.historyWindow);
      assert |window| == n && window[0] == finalized[|finalized| - n] && window[n - 1] == finalized[|finalized| - 1];
      hide Window, RoundHalfUp, RoundHalfEven, Adjusted, Proposed, Divided;
      var taken := Taken(config, finalized);
      if 0 < taken {
        AdjustedIsProposed(config, current, n, taken, event);
      }
    }
  }

  lemma {:induction false} AdjustedIsProposed(config: Config, current: int, n: int, taken: int, event: Option<Rational>)
    requires 0 < taken && 0 <= config.maxUp.num && 0 <= config.maxDown.num
    ensures var proposed := Proposed(config, current, Target(config, n), taken);
      Adjusted(config, current, n, taken, event)
        == Max(config.minimumRequiredWork,
               if event.None? then RoundHalfUp(proposed.num, proposed.den) else Divided(proposed, event.value))
  {
    var proposed := Proposed(config, current, Target(config, n), taken);
    ScaledIsProposed(config, current, Target(config, n), taken);
    var work := ApplyEvent(proposed, event);
    FlooredDominates(work, config.minimumRequiredWork);
    hide Multiplier, Proposed, Floored;
    if event.Some? && event.value.num != 0 {
      RoundExact(work.num, 1);
      hide RoundHalfUp, RoundHalfEven;
      assert work.num * 1 == work.num;
    }
  }

  lemma ScaledIsProposed(config: Config, current: int, expected: int, taken: int)
    requires 0 < taken && 0 <= config.maxUp.num && 0 <= config.maxDown.num
    ensures var m := Multiplier(expected, taken, config.maxUp, config.maxDown);
      Ratio(current * m.num, m.den) == Proposed(config, current, expected, taken)
  {
    ProductMonotone(0, config.maxUp.num, taken);
    ProductMonotone(0, config.maxDown.num, taken);
    if expected <= taken {
      ProductMonotone(0, taken - expected, config.maxUp.den);
      assert (expected - taken) * config.maxUp.den == -((taken - expected) * config.maxUp.den);
    } else {
      ProductMonotone(0, expected - taken, config.maxDown.den);
      assert (taken - expected) * config.maxDown.den == -((expected - taken) * config.maxDown.den);
    }
  }

  /** Blocks that took exactly the target time leave the requirement as it is. */
  lemma {:induction false} OnTargetStays(config: Config, current: int, finalized: seq<FinalizedBlock>)
    requires 1 <= config.historyWindow && 0 <= config.maxUp.num && 0 <= config.maxDown.num && finalized != []
    requires Taken(config, finalized) == Target(config, Counting(config, finalized))
    ensures ComputeNextRequiredWork(config, current, finalized, None) == Max(config.minimumRequiredWork, current)
  {
    NextIsProposed(config, current, finalized, None);
    var n, taken := Counting(config, finalized), Taken(config, finalized);
    hide ComputeNextRequiredWork, Taken, Target, Counting, RoundHalfUp;
    if 2 <= n && 0 < taken {
      ProductMonotone(0, config.maxUp.num, taken);
      ProductMonotone(0, config.maxDown.num, taken);
      assert (taken - taken) * config.maxUp.den == 0 && (taken - taken) * config.maxDown.den == 0;
      RoundExact(current, taken);
    }
  }

  /** Between the caps the next requirement times the time taken is as close to the current one times the target time as
  whole units can be. */
  lemma {:induction false} BetweenCapsIsProportional(config: Config, current: int, finalized: seq<FinalizedBlock>)
    requires 1 <= config.historyWindow && 0 <= config.maxUp.num && 0 <= config.maxDown.num
    requires 0 <= config.targetBlockSeconds && 0 <= current
    requires 2 <= Counting(config, finalized) && 0 < Taken(config, finalized)
    requires var expected, taken := Target(config, Counting(config, finalized)), Taken(config, finalized);
      && (expected - taken) * config.maxUp.den <= config.maxUp.num * taken
      && (taken - expected) * config.maxDown.den <= config.maxDown.num * taken
    ensures var next := ComputeNextRequiredWork(config, current, finalized, None);
      var expected, taken := Target(config, Counting(config, finalized)), Taken(config, finalized);
      && config.minimumRequiredWork <= next
      && 2 * (current * expected) - taken < 2 * (next * taken)
      && (config.minimumRequiredWork < next ==> 2 * (next * taken) <= 2 * (current * expected) + taken)
  {
    NextIsProposed(config, current, finalized, None);
    var expected, taken := Target(config, Counting(config, finalized)), Taken(config, finalized);
    var next := ComputeNextRequiredWork(config, current, finalized, None);
    assert 0 <= current * expected by {
      ProductMonotone(0, config.targetBlockSeconds, SECOND);
      ProductMonotone(0, config.targetBlockSeconds * SECOND, Counting(config, finalized) - 1);
      ProductMonotone(0, current, expected);
    }
    assert Proposed(config, current, expected, taken) == Ratio(current * expected, taken);
    var rounded := RoundHalfUp(current * expected, taken);
    hide ComputeNextRequiredWork, Taken, Target, Counting, RoundHalfUp, Proposed;
    ProductMonotone(rounded, next, taken);
  }
}
