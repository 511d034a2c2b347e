/** What boundary events do to the work of an operation (server/domain/mining/service.py, apply_boundary_event and
process_tick): pausing, resuming, and changing the multiplier. */
module OperationEvents {
  import opened Numbers
  import opened Sorting
  import opened IntervalSlicer
  import opened MiningOperation

  /** What a second adds at a multiplier, running or paused. */
  ghost predicate AddsAt(base: Rational, multiplier: DecimalText, paused: bool, amount: int) {
    Adds(base, Boundary(0, multiplier, paused), amount)
  }

  lemma RateAt(base: Rational, b: Boundary, amount: int)
    requires AddsAt(base, b.multiplier, b.paused, amount)
    ensures Rate(base, b) == amount
  {
    RateAdds(base, Boundary(0, b.multiplier, b.paused));
    RateIgnoresTime(base, b, 0);
    hide Adds, Rate;
  }

  // ---------------------------------------------------------------- one boundary takes over

  lemma {:induction false} WindowUpTo(pending: seq<Boundary>, start: int, upTo: int, end: int)
    requires upTo <= end && forall x :: x in pending ==> x.at < upTo
    ensures InWindow(pending, start, end) == InWindow(pending, start, upTo)
  {
    if pending != [] {
      var front, last := pending[..|pending| - 1], pending[|pending| - 1];
      assert pending == front + [last] && last in pending;
      WindowUpTo(front, start, upTo, end);
    }
  }

  /** A boundary behind everything that is pending is applied last. */
  lemma {:induction false} AppliedLast(op: Operation, b: Boundary, end: int)
    requires op.lastProcessedAt <= b.at < end && forall x :: x in op.pending ==> x.at < b.at
    ensures Applied(op.(pending := op.pending + [b]), end) == Applied(op, b.at) + [b]
  {
    var op' := op.(pending := op.pending + [b]);
    AppliedSorted(op', end);
    AppliedSorted(op, b.at);
    WindowUpTo(op.pending, op.lastProcessedAt, b.at, end);
    assert op'.pending[..|op.pending|] == op.pending;
    assert InWindow(op'.pending, op.lastProcessedAt, end) == InWindow(op.pending, op.lastProcessedAt, b.at) + [b];
    hide Applied, InWindow, KeyLe;
    KeyOrder();
    AllBefore(Applied(op, b.at), b);
    SortedUnique(KeyLe, Applied(op', end), Applied(op, b.at) + [b]);
  }

  lemma AllBefore(ordered: seq<Boundary>, b: Boundary)
    requires SortedBy(KeyLe, ordered) && forall x :: x in ordered ==> x.at < b.at
    ensures SortedBy(KeyLe, ordered + [b])
  {
    forall i | 0 <= i < |ordered|
      ensures KeyLe(ordered[i], b)
    {
      assert ordered[i] in ordered;
    }
  }

  lemma {:induction false} NothingRetained(pending: seq<Boundary>, end: int)
    requires forall x :: x in pending ==> x.at < end
    ensures Retained(pending, end) == []
  {
    if pending != [] {
      var front, last := pending[..|pending| - 1], pending[|pending| - 1];
      assert pending == front + [last] && last in pending;
      NothingRetained(front, end);
    }
  }

  lemma {:induction false} StateTakesOver(op: Operation, b: Boundary, end: int)
    requires op.lastProcessedAt <= b.at < end && forall x :: x in op.pending ==> x.at < b.at
    ensures Advance(op.(pending := op.pending + [b]), end)
      == op.(lastProcessedAt := end, pending := [], multiplier := b.multiplier, paused := b.paused)
  {
    AppliedLast(op, b, end);
    NothingRetained(op.pending + [b], end);
    hide Applied, Retained;
  }

  lemma {:induction false} NothingApplied(op: Operation)
    ensures Applied(op, op.lastProcessedAt) == []
  {
    EmptyWindow(op.pending, op.lastProcessedAt);
  }

  lemma {:induction false} EmptyWindow(pending: seq<Boundary>, at: int)
    ensures InWindow(pending, at, at) == []
  {
    if pending != [] {
      EmptyWindow(pending[..|pending| - 1], at);
    }
  }

  /** Up to the boundary an operation works as without it, and from there on at the rate of the boundary. */
  lemma {:induction false} BoundaryTakesOver(op: Operation, b: Boundary, end: int)
    requires op.lastProcessedAt <= b.at < end && forall x :: x in op.pending ==> x.at < b.at
    ensures Contribution(op.(pending := op.pending + [b]), end)
      == Contribution(op, b.at) + Rate(op.baseHashrate, b) * Seconds(b.at, end)
  {
    AppliedLast(op, b, end);
    ContributionSoFar(op, b.at);
    hide Rate, Applied, Contribution, Work, Ordered, Seconds;
    ContributionIsWork(op.(pending := op.pending + [b]), end);
    WorkThenBoundary(op.baseHashrate, Applied(op, b.at), b, StateNow(op), end);
  }

  lemma {:induction false} ContributionSoFar(op: Operation, at: int)
    requires op.lastProcessedAt <= at
    ensures Contribution(op, at) == Work(op.baseHashrate, Applied(op, at), StateNow(op), at)
  {
    hide Rate;
    if op.lastProcessedAt == at {
      NothingApplied(op);
      hide Applied;
      assert Seconds(at, at) == 0;
    } else {
      ContributionIsWork(op, at);
      hide Applied, Contribution;
    }
  }

  /** One boundary more at the end adds the work from it on. */
  lemma {:induction false} WorkThenBoundary(base: Rational, first: seq<Boundary>, b: Boundary, current: Boundary,
                                            end: int)
    ensures Work(base, first + [b], current, end)
      == Work(base, first, current, b.at) + Rate(base, b) * Seconds(b.at, end)
    decreases |first|
  {
    hide Rate, Seconds;
    if first == [] {
      assert [] + [b] == [b] && [b][1..] == [];
    } else {
      assert (first + [b])[1..] == first[1..] + [b] && (first + [b])[0] == first[0];
      WorkThenBoundary(base, first[1..], b, first[0], end);
    }
  }

  // ---------------------------------------------------------------- events

  /** Pausing stops the work at once, resuming takes it up at the multiplier the operation has, a state change sets what
  it carries and keeps the rest; other events keep everything. */
  lemma {:induction false} EventTakesOver(op: Operation, event: BoundaryEvent, at: int, end: int, amount: int)
    requires op.lastProcessedAt <= at < end && forall x :: x in op.pending ==> x.at < at
    requires event.Pause? ==> amount == 0
    requires event.Resume? ==> AddsAt(op.baseHashrate, op.multiplier, false, amount)
    requires event.OtherEvent? ==> AddsAt(op.baseHashrate, op.multiplier, op.paused, amount)
    requires event.StateChanged? ==>
      AddsAt(op.baseHashrate, if event.multiplier.Some? then event.multiplier.value else op.multiplier,
             if event.paused.Some? then event.paused.value else op.paused, amount)
    ensures Contribution(WithBoundary(op, event, at), end) == Contribution(op, at) + amount * Seconds(at, end)
    ensures var after := Advance(WithBoundary(op, event, at), end);
      && after.lastProcessedAt == end && after.pending == [] && after.playerId == op.playerId
      && after.baseHashrate == op.baseHashrate
      && after.multiplier
        == (if event.StateChanged? && event.multiplier.Some? then event.multiplier.value else op.multiplier)
      && after.paused
        == match event {
             case Pause => true
             case Resume => false
             case StateChanged(_, p) => if p.Some? then p.value else op.paused
             case OtherEvent => op.paused
           }
  {
    var b := WithBoundary(op, event, at).pending[|op.pending|];
    assert b.at == at && WithBoundary(op, event, at) == op.(pending := op.pending + [b]);
    PausedAdds(op.baseHashrate, op.multiplier);
    hide Contribution, Advance, Applied, Rate;
    RateAt(op.baseHashrate, b, amount);
    hide AddsAt;
    BoundaryTakesOver(op, b, end);
    StateTakesOver(op, b, end);
  }

  lemma PausedAdds(base: Rational, multiplier: DecimalText)
    ensures AddsAt(base, multiplier, true, 0)
  {
  }

  /** A paused operation contributes nothing, whatever its multiplier, until it is told to run. */
  lemma {:induction false} PausedContributesNothing(op: Operation, end: int)
    requires op.paused && op.lastProcessedAt < end
    requires forall b :: b in op.pending && op.lastProcessedAt <= b.at < end ==> b.paused
    ensures Contribution(op, end) == 0 && Advance(op, end).paused
  {
    AppliedSorted(op, end);
    ContributionIsWork(op, end);
    var applied := Applied(op, end);
    hide Applied, Contribution;
    forall i | 0 <= i < |applied|
      ensures applied[i].paused
    {
      assert applied[i] in applied;
    }
    PausedWork(op.baseHashrate, applied, StateNow(op), end);
  }

  lemma {:induction false} PausedWork(base: Rational, ordered: seq<Boundary>, current: Boundary, end: int)
    requires current.paused && forall i :: 0 <= i < |ordered| ==> ordered[i].paused
    ensures Work(base, ordered, current, end) == 0
    decreases |ordered|
  {
    if ordered != [] {
      PausedWork(base, ordered[1..], ordered[0], end);
    }
    assert Rate(base, current) == 0;
    hide Rate;
  }

  /** Without boundaries a tick adds the amount of one second for every whole second. */
  lemma {:induction false} PlainTick(op: Operation, end: int, amount: int)
    requires op.pending == [] && op.lastProcessedAt <= end && AddsAt(op.baseHashrate, op.multiplier, op.paused, amount)
    ensures Contribution(op, end) == amount * Seconds(op.lastProcessedAt, end)
  {
    RateAt(op.baseHashrate, StateNow(op), amount);
    assert InWindow([], op.lastProcessedAt, end) == [];
    assert Applied(op, end) == [];
    hide Rate, AddsAt;
    if op.lastProcessedAt < end {
      ContributionIsWork(op, end);
      hide Applied, Contribution;
    } else {
      assert Seconds(end, end) == 0;
    }
  }

  /** A newly registered operation runs at its base hashrate. */
  lemma {:induction false} FreshOperationWorks(player: string, base: Rational, startedAt: int, end: int, amount: int)
    requires startedAt <= end
    requires 0 <= base.num ==>
      2 * (base.num * MICRO) - base.den < 2 * (amount * base.den) <= 2 * (base.num * MICRO) + base.den
    requires base.num <= 0 ==>
      2 * (base.num * MICRO) - base.den <= 2 * (amount * base.den) < 2 * (base.num * MICRO) + base.den
    ensures Contribution(NewOperation(player, base, startedAt), end) == amount * Seconds(startedAt, end)
  {
    PlainMultiplier();
    hide Value, Contribution;
    assert base.num * 1 * MICRO == base.num * MICRO && base.den * 1 == base.den;
    assert AddsAt(base, "1", false, amount);
    hide AddsAt;
    PlainTick(NewOperation(player, base, startedAt), end, amount);
  }

  /** A pause and a resumption: nothing is contributed in between, however often it ticks, and the work goes on at the
  same multiplier. */
  lemma {:induction false} PauseAndResume(op: Operation, pausedAt: int, tick: int, resumedAt: int, end: int,
                                          amount: int)
    requires op.pending == [] && !op.paused && op.lastProcessedAt <= pausedAt < tick <= resumedAt < end
    requires AddsAt(op.baseHashrate, op.multiplier, false, amount)
    ensures var resting := WithBoundary(op, Pause, pausedAt);
      var rested := Advance(resting, tick);
      var going := WithBoundary(rested, Resume, resumedAt);
      && Contribution(resting, tick) == amount * Seconds(op.lastProcessedAt, pausedAt)
      && Contribution(rested, resumedAt) == 0
      && Contribution(going, end) == amount * Seconds(resumedAt, end)
      && Advance(going, end) == op.(lastProcessedAt := end)
  {
    var rested := Advance(WithBoundary(op, Pause, pausedAt), tick);
    hide Contribution, Advance, WithBoundary, AddsAt;
    PlainTick(op, pausedAt, amount);
    EventTakesOver(op, Pause, pausedAt, tick, 0);
    assert rested == op.(lastProcessedAt := tick, paused := true);
    PausedAdds(op.baseHashrate, op.multiplier);
    PlainTick(rested, resumedAt, 0);
    EventTakesOver(rested, Resume, resumedAt, end, amount);
  }

  /** What happens to one operation: an event, or a tick. */
  datatype Happening = Event(event: BoundaryEvent, at: int) | TickTo(end: int)

  ghost function After(op: Operation, happenings: seq<Happening>): Operation {
    if happenings == [] then op
    else
      var before := After(op, happenings[..|happenings| - 1]);
      match happenings[|happenings| - 1]
      case Event(event, at) => WithBoundary(before, event, at)
      case TickTo(end) => Advance(before, end)
  }

  ghost function Contributed(op: Operation, happenings: seq<Happening>): int {
    if happenings == [] then 0
    else
      var before, last := happenings[..|happenings| - 1], happenings[|happenings| - 1];
      Contributed(op, before) + (if last.TickTo? then Contribution(After(op, before), last.end) else 0)
  }

  /** The event tells a paused operation to run. */
  ghost predicate Runs(event: BoundaryEvent) {
    event.Resume? || (event.StateChanged? && event.paused == Some(false))
  }

  ghost predicate Resting(op: Operation) {
    op.paused && forall b :: b in op.pending ==> b.paused
  }

  lemma {:induction false} TickKeepsResting(op: Operation, end: int)
    requires Resting(op)
    ensures Contribution(op, end) == 0 && Resting(Advance(op, end))
  {
    if op.lastProcessedAt < end {
      PausedContributesNothing(op, end);
      RetainedPaused(op.pending, end);
      hide Contribution, Applied, Retained;
    }
  }

  lemma {:induction false} RetainedPaused(pending: seq<Boundary>, end: int)
    requires forall b :: b in pending ==> b.paused
    ensures forall b :: b in Retained(pending, end) ==> b.paused
  {
    if pending != [] {
      RetainedPaused(pending[..|pending| - 1], end);
    }
  }

  /** Once a tick has seen the pause, the operation contributes nothing, whatever ticks and events follow and at
  whatever times, until an event tells it to run. */
  lemma {:induction false} RestsUntilToldToRun(op: Operation, happenings: seq<Happening>)
    requires Resting(op)
    requires forall i :: 0 <= i < |happenings| && happenings[i].Event? ==> !Runs(happenings[i].event)
    ensures Contributed(op, happenings) == 0 && Resting(After(op, happenings))
  {
    if happenings != [] {
      var before, last := happenings[..|happenings| - 1], happenings[|happenings| - 1];
      hide Contribution, Advance;
      RestsUntilToldToRun(op, before);
      if last.TickTo? {
        TickKeepsResting(After(op, before), last.end);
      }
    }
  }

  /** Before a tick has seen it, a pause ends with the next event that does not pause by itself: the event takes the
  state of the last tick, which was running. */
  lemma {:induction false} UnseenPauseEnds(op: Operation, pausedAt: int, event: BoundaryEvent, at: int, end: int,
                                           amount: int)
    requires op.pending == [] && !op.paused && op.lastProcessedAt <= pausedAt < at < end
    requires event == OtherEvent || event == StateChanged(None, None)
    requires AddsAt(op.baseHashrate, op.multiplier, false, amount)
    ensures var paused := WithBoundary(op, Pause, pausedAt);
      Contribution(WithBoundary(paused, event, at), end)
        == amount * Seconds(op.lastProcessedAt, pausedAt) + amount * Seconds(at, end)
    ensures Contribution(WithBoundary(op, Pause, pausedAt), end) == amount * Seconds(op.lastProcessedAt, pausedAt)
  {
    var paused := WithBoundary(op, Pause, pausedAt);
    assert paused.multiplier == op.multiplier && !paused.paused && paused.baseHashrate == op.baseHashrate;
    assert forall x :: x in paused.pending ==> x.at == pausedAt;
    hide Contribution, Advance, WithBoundary, AddsAt;
    PlainTick(op, pausedAt, amount);
    EventTakesOver(op, Pause, pausedAt, at, 0);
    EventTakesOver(op, Pause, pausedAt, end, 0);
    EventTakesOver(paused, event, at, end, amount);
  }

  /** What a second adds after an event. */
  lemma AmountAfter(op: Operation, event: BoundaryEvent) returns (amount: int)
    ensures event.Pause? ==> amount == 0
    ensures event.Resume? ==> AddsAt(op.baseHashrate, op.multiplier, false, amount)
    ensures event.OtherEvent? ==> AddsAt(op.baseHashrate, op.multiplier, op.paused, amount)
    ensures event.StateChanged? ==>
      AddsAt(op.baseHashrate, if event.multiplier.Some? then event.multiplier.value else op.multiplier,
             if event.paused.Some? then event.paused.value else op.paused, amount)
  {
    hide Adds, Rate;
    var b := BoundaryFor(op, event, 0);
    RateAdds(op.baseHashrate, b);
    amount := if event.Pause? then 0 else Rate(op.baseHashrate, b);
  }

  /** After a tick over an event the operation is paused if the event pauses it, or if it was and the event does not run
  it. */
  lemma {:induction false} PausedAfter(op: Operation, event: BoundaryEvent, at: int, end: int)
    requires op.lastProcessedAt <= at < end && forall x :: x in op.pending ==> x.at < at
    ensures var after := Advance(WithBoundary(op, event, at), end);
      && after.lastProcessedAt == end && after.pending == []
      && (after.paused
          <==> event.Pause? || (event.StateChanged? && event.paused == Some(true)) || (op.paused && !Runs(event)))
  {
    hide Contribution, Advance, WithBoundary, AddsAt;
    var amount := AmountAfter(op, event);
    EventTakesOver(op, event, at, end, amount);
  }

  /** A pause, then another event: if no tick lies between them the pause holds exactly if the event itself pauses, or
  the operation was paused before and the event does not run it; after a tick it holds exactly if the event does not
  run it. */
  lemma {:induction false} PauseHoldsExactly(op: Operation, pausedAt: int, event: BoundaryEvent, at: int, end: int)
    requires op.pending == [] && op.lastProcessedAt <= pausedAt < at < end
    ensures var unseen := WithBoundary(op, Pause, pausedAt);
      Advance(WithBoundary(unseen, event, at), end).paused
      <==> event.Pause? || (event.StateChanged? && event.paused == Some(true)) || (op.paused && !Runs(event))
    ensures var seen := Advance(WithBoundary(op, Pause, pausedAt), at);
      Advance(WithBoundary(seen, event, at), end).paused <==> !Runs(event)
  {
    var unseen := WithBoundary(op, Pause, pausedAt);
    assert unseen.lastProcessedAt == op.lastProcessedAt && unseen.paused == op.paused;
    assert forall x :: x in unseen.pending ==> x.at == pausedAt;
    hide Contribution, Advance, WithBoundary, AddsAt;
    PausedAfter(op, Pause, pausedAt, at);
    PausedAfter(unseen, event, at, end);
    PausedAfter(Advance(unseen, at), event, at, end);
  }

  // ---------------------------------------------------------------- several boundaries at one instant

  /** a comes before b: earlier, or running before paused, or the smaller multiplier text. */
  ghost predicate Outranks(b: Boundary, a: Boundary) {
    a.at < b.at
    || (a.at == b.at && !a.paused && b.paused)
    || (a.at == b.at && a.paused == b.paused && CodePointLess(a.multiplier, b.multiplier))
  }

  /** After a tick the operation is in the state of the boundary that no other applied one outranks: the latest, of
  several at one instant a paused one, and of those the one with the greatest multiplier text. */
  lemma {:induction false} LatestWins(op: Operation, end: int)
    requires op.lastProcessedAt < end
    ensures var after := Advance(op, end);
      if forall b :: b in op.pending ==> !(op.lastProcessedAt <= b.at < end)
      then after.multiplier == op.multiplier && after.paused == op.paused
      else
        exists b :: b in op.pending && op.lastProcessedAt <= b.at < end
          && after.multiplier == b.multiplier && after.paused == b.paused
          && forall x :: x in op.pending && op.lastProcessedAt <= x.at < end ==> !Outranks(x, b)
  {
    AppliedSorted(op, end);
    var applied := Applied(op, end);
    hide Applied, SortedBy, KeyLe, Retained;
    if applied == [] {
      assert forall b :: b in op.pending ==> !(op.lastProcessedAt <= b.at < end);
    } else {
      var b := applied[|applied| - 1];
      assert b in applied;
      forall x | x in op.pending && op.lastProcessedAt <= x.at < end
        ensures !Outranks(x, b)
      {
        assert x in applied;
        NotAboveLast(applied, x);
      }
      assert Advance(op, end).multiplier == b.multiplier && Advance(op, end).paused == b.paused;
      hide Advance, Outranks;
    }
  }

  lemma NotAboveLast(ordered: seq<Boundary>, x: Boundary)
    requires SortedBy(KeyLe, ordered) && x in ordered
    ensures !Outranks(x, ordered[|ordered| - 1])
  {
    var b := ordered[|ordered| - 1];
    var i :| 0 <= i < |ordered| && ordered[i] == x;
    if i < |ordered| - 1 {
      assert KeyLe(x, b);
    }
    CodePointOrder(x.multiplier, b.multiplier);
    TextLeMeans(x.multiplier, b.multiplier);
  }
}
