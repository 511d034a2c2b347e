/** One mining operation: boundary events and ticks (server/domain/mining/service.py). */
module MiningOperation {
  import opened Numbers
  import opened Sorting
  import opened IntervalSlicer

  datatype Operation = Operation(
    playerId: string,
    baseHashrate: Rational,
    lastProcessedAt: int,
    multiplier: DecimalText,
    paused: bool,
    pending: seq<Boundary>)

  /** What a boundary event carries; every state-changing event type is treated alike. */
  datatype BoundaryEvent =
    | Pause | Resume | StateChanged(multiplier: Option<DecimalText>, paused: Option<bool>) | OtherEvent

  function NewOperation(playerId: string, baseHashrate: Rational, startedAt: int): Operation {
    Operation(playerId, baseHashrate, startedAt, "1", false, [])
  }

  function BoundaryFor(op: Operation, event: BoundaryEvent, at: int): Boundary {
    match event
    case Pause => Boundary(at, op.multiplier, true)
    case Resume => Boundary(at, op.multiplier, false)
    case StateChanged(m, p) =>
      Boundary(at, if m.Some? then m.value else op.multiplier, if p.Some? then p.value else op.paused)
    case OtherEvent => Boundary(at, op.multiplier, op.paused)
  }

  function WithBoundary(op: Operation, event: BoundaryEvent, at: int): Operation {
    op.(pending := op.pending + [BoundaryFor(op, event, at)])
  }

  /** The sort key (occurred_at, paused, str(multiplier)). */
  predicate KeyLe(a: Boundary, b: Boundary) {
    a.at < b.at
    || (a.at == b.at
        && ((!a.paused && b.paused) || (a.paused == b.paused && TextLe(a.multiplier, b.multiplier))))
  }

  /** Boundaries kept for later ticks. */
  function Retained(pending: seq<Boundary>, end: int): seq<Boundary> {
    if pending == [] then []
    else
      var last := pending[|pending| - 1];
      Retained(pending[..|pending| - 1], end) + (if end <= last.at then [last] else [])
  }

  /** Boundaries a tick up to `end` applies, in order. */
  function Applied(op: Operation, end: int): seq<Boundary> {
    SortBy(KeyLe, InWindow(op.pending, op.lastProcessedAt, end))
  }

  function StateNow(op: Operation): Boundary {
    Boundary(op.lastProcessedAt, op.multiplier, op.paused)
  }

  function Last(current: Boundary, ordered: seq<Boundary>): Boundary {
    if ordered == [] then current else ordered[|ordered| - 1]
  }

  /** The operation after a tick. */
  function Advance(op: Operation, end: int): Operation {
    if end <= op.lastProcessedAt then op
    else
      var latest := Last(StateNow(op), Applied(op, end));
      op.(lastProcessedAt := end, pending := Retained(op.pending, end),
          multiplier := latest.multiplier, paused := latest.paused)
  }

  /** The hashes a tick contributes. */
  function Contribution(op: Operation, end: int): int {
    if end <= op.lastProcessedAt then 0
    else Total(Slices(StateNow(op), end, op.baseHashrate, Applied(op, end)))
  }

  /** The operation part of process_tick. */
  method TickOperation(op: Operation, end: int) returns (after: Operation, contribution: int)
    requires op.lastProcessedAt < end
    ensures after == Advance(op, end) && contribution == Contribution(op, end)
  {
    var boundaries := SortBy(KeyLe, InWindow(op.pending, op.lastProcessedAt, end));
    var retained := Retained(op.pending, end);
    var slices := SliceProgressionIntervals(StateNow(op), end, op.baseHashrate, boundaries);
    contribution := Total(slices);
    after := op.(lastProcessedAt := end, pending := retained);
    if boundaries != [] {
      var latest := boundaries[|boundaries| - 1];
      after := after.(multiplier := latest.multiplier, paused := latest.paused);
    }
  }

  lemma KeyOrder()
    ensures TotalPreorder(KeyLe) && Antisymmetric(KeyLe)
  {
    TextOrder();
  }

  // ---------------------------------------------------------------- a tick in terms of work

  /** The applied boundaries are exactly the pending ones inside the window, sorted. */
  lemma AppliedSorted(op: Operation, end: int)
    ensures SortedBy(KeyLe, Applied(op, end))
    ensures multiset(Applied(op, end)) == multiset(InWindow(op.pending, op.lastProcessedAt, end))
    ensures forall b :: b in Applied(op, end) <==> b in op.pending && op.lastProcessedAt <= b.at < end
  {
    var inside := InWindow(op.pending, op.lastProcessedAt, end);
    KeyOrder();
    SortCorrect(KeyLe, inside);
    InWindowBounds(op.pending, op.lastProcessedAt, end);
    forall b
      ensures b in Applied(op, end) <==> b in inside
    {
      assert b in multiset(Applied(op, end)) <==> b in multiset(inside);
    }
  }

  lemma {:induction false} InWindowWhole(s: seq<Boundary>, start: int, end: int)
    requires forall b :: b in s ==> start <= b.at < end
    ensures InWindow(s, start, end) == s
  {
    if s != [] {
      var front, last := s[..|s| - 1], s[|s| - 1];
      assert s == front + [last] && last in s;
      InWindowWhole(front, start, end);
      assert InWindow(s, start, end) == InWindow(front, start, end) + [last];
      hide InWindow;
    }
  }

  lemma AppliedOrdered(op: Operation, end: int)
    requires op.lastProcessedAt < end
    ensures Ordered(Applied(op, end), StateNow(op), end)
    ensures InWindow(Applied(op, end), op.lastProcessedAt, end) == Applied(op, end)
  {
    AppliedSorted(op, end);
    hide Applied, InWindow, SortBy, KeyLe, AtLe;
    InWindowWhole(Applied(op, end), op.lastProcessedAt, end);
    SortedByTime(Applied(op, end));
    hide SortedBy;
    WithinWindow(Applied(op, end), StateNow(op), end);
  }

  lemma SortedByTime(ordered: seq<Boundary>)
    requires SortedBy(KeyLe, ordered)
    ensures SortedBy(AtLe, ordered)
  {
    forall i, j | 0 <= i < j < |ordered|
      ensures AtLe(ordered[i], ordered[j])
    {
      assert KeyLe(ordered[i], ordered[j]);
    }
  }

  lemma WithinWindow(ordered: seq<Boundary>, current: Boundary, end: int)
    requires SortedBy(AtLe, ordered) && current.at <= end && forall b :: b in ordered ==> current.at <= b.at < end
    ensures Ordered(ordered, current, end)
  {
    hide AtLe, SortedBy;
    forall i | 0 <= i < |ordered|
      ensures current.at <= ordered[i].at <= end
    {
      assert ordered[i] in ordered;
    }
  }

  /** A tick contributes the work of its window. */
  lemma ContributionIsWork(op: Operation, end: int)
    requires op.lastProcessedAt < end
    ensures Ordered(Applied(op, end), StateNow(op), end)
    ensures Contribution(op, end) == Work(op.baseHashrate, Applied(op, end), StateNow(op), end)
  {
    AppliedOrdered(op, end);
    hide Applied, InWindow, Work;
    SortFixed(AtLe, Applied(op, end));
    hide SortBy, Segments, Kept, Total;
    SegmentsWork(op.baseHashrate, Applied(op, end), StateNow(op), end);
  }

  // ---------------------------------------------------------------- splitting a tick

  lemma {:induction false} RetainedTwice(pending: seq<Boundary>, t1: int, t2: int)
    requires t1 <= t2
    ensures Retained(Retained(pending, t1), t2) == Retained(pending, t2)
  {
    if pending != [] {
      var front := pending[..|pending| - 1];
      var last := pending[|pending| - 1];
      RetainedTwice(front, t1, t2);
      var kept := Retained(front, t1);
      if t1 <= last.at {
        assert (kept + [last])[..|kept|] == kept;
      } else {
        assert kept + [] == kept;
        assert Retained(front, t2) + [] == Retained(front, t2);
      }
    }
  }

  lemma CountFront(a: seq<Boundary>, b: Boundary)
    requires a != []
    ensures multiset(a)[b] == multiset(a[..|a| - 1])[b] + (if a[|a| - 1] == b then 1 else 0)
  {
    assert a == a[..|a| - 1] + [a[|a| - 1]];
  }

  /** How often one boundary occurs inside the window, and among those kept for later. */
  lemma {:induction false} WindowCounts(a: seq<Boundary>, start: int, end: int, b: Boundary)
    ensures multiset(InWindow(a, start, end))[b] == if start <= b.at < end then multiset(a)[b] else 0
    ensures multiset(Retained(a, end))[b] == if end <= b.at then multiset(a)[b] else 0
  {
    if a != [] {
      WindowCounts(a[..|a| - 1], start, end, b);
      CountFront(a, b);
    }
  }

  lemma {:induction false} WindowSplit(pending: seq<Boundary>, t0: int, t1: int, t2: int)
    requires t0 <= t1 <= t2
    ensures multiset(InWindow(pending, t0, t2))
      == multiset(InWindow(pending, t0, t1)) + multiset(InWindow(Retained(pending, t1), t1, t2))
  {
    forall b: Boundary
      ensures multiset(InWindow(pending, t0, t2))[b]
        == multiset(InWindow(pending, t0, t1))[b] + multiset(InWindow(Retained(pending, t1), t1, t2))[b]
    {
      WindowCounts(pending, t0, t2, b);
      WindowCounts(pending, t0, t1, b);
      WindowCounts(Retained(pending, t1), t1, t2, b);
    }
  }

  /** The boundaries of one long tick are those of the two short ticks, one after the other. */
  lemma AppliedSplit(op: Operation, t1: int, t2: int)
    requires op.lastProcessedAt < t1 < t2
    ensures Applied(op, t2) == Applied(op, t1) + Applied(Advance(op, t1), t2)
  {
    var first, second := Applied(op, t1), Applied(Advance(op, t1), t2);
    AppliedSorted(op, t1);
    AppliedSorted(Advance(op, t1), t2);
    AppliedSorted(op, t2);
    WindowSplit(op.pending, op.lastProcessedAt, t1, t2);
    KeyOrder();
    hide Applied, InWindow, Retained, KeyLe;
    SortedHalves(first, second, t1);
    SortedUnique(KeyLe, Applied(op, t2), first + second);
  }

  /** Sorted boundaries before t1, followed by sorted boundaries from t1 on, are sorted. */
  lemma SortedHalves(first: seq<Boundary>, second: seq<Boundary>, t1: int)
    requires SortedBy(KeyLe, first) && SortedBy(KeyLe, second)
    requires (forall b :: b in first ==> b.at < t1) && (forall b :: b in second ==> t1 <= b.at)
    ensures SortedBy(KeyLe, first + second)
  {
    forall i, j | 0 <= i < j < |first + second|
      ensures KeyLe((first + second)[i], (first + second)[j])
    {
      if i < |first| <= j {
        assert first[i] in first && second[j - |first|] in second;
      }
    }
  }

  /** Seconds lost at t1 when the piece from `a` to `b` is cut there: zero or one. */
  function LostSeconds(a: int, t1: int, b: int): (lost: int)
    requires a <= t1 <= b
    ensures lost == 0 || lost == 1
    ensures lost == 1 <==> SECOND <= (t1 - a) % SECOND + (b - t1) % SECOND
    ensures Seconds(a, b) == Seconds(a, t1) + Seconds(t1, b) + lost
  {
    if SECOND <= (t1 - a) % SECOND + (b - t1) % SECOND then 1 else 0
  }

  lemma {:induction false} WorkSplit(base: Rational, first: seq<Boundary>, second: seq<Boundary>, current: Boundary,
                                     t1: int, t2: int)
    requires Ordered(first, current, t1) && current.at <= t1 <= t2
    requires forall i :: 0 <= i < |second| ==> t1 <= second[i].at
    requires second != [] ==> second[0].at <= t2
    ensures var cut := Last(current, first);
      && cut.at <= t1 <= Next(second, t2)
      && Work(base, first + second, current, t2)
        == Work(base, first, current, t1) + Work(base, second, cut.(at := t1), t2)
           + LostSeconds(cut.at, t1, Next(second, t2)) * Rate(base, cut)
    decreases |first|
  {
    hide Rate;
    if first == [] {
      assert first + second == second;
      WorkCut(base, second, current, t1, t2);
    } else {
      OrderedTail(first, current, t1);
      WorkSplit(base, first[1..], second, first[0], t1, t2);
      assert (first + second)[1..] == first[1..] + second;
      assert (first + second)[0] == first[0];
    }
  }

  /** Cutting the running piece. */
  lemma {:induction false} WorkCut(base: Rational, second: seq<Boundary>, current: Boundary, t1: int, t2: int)
    requires current.at <= t1 <= Next(second, t2)
    ensures Work(base, second, current, t2)
      == Work(base, [], current, t1) + Work(base, second, current.(at := t1), t2)
         + LostSeconds(current.at, t1, Next(second, t2)) * Rate(base, current)
  {
    var b := Next(second, t2);
    RateIgnoresTime(base, current, t1);
    hide Rate;
    DistributeThree(Rate(base, current), Seconds(current.at, t1), Seconds(t1, b), LostSeconds(current.at, t1, b));
  }

  lemma RateIgnoresTime(base: Rational, b: Boundary, at: int)
    ensures Rate(base, b.(at := at)) == Rate(base, b)
  {
  }

  lemma DistributeThree(k: int, a: int, b: int, c: int)
    ensures k * (a + b + c) == k * a + k * b + c * k
  {
  }

  /** The rate in force at the end of a tick. */
  ghost function RateInForce(op: Operation, end: int): int {
    Rate(op.baseHashrate, StateNow(Advance(op, end)))
  }

  /** The cut at t1 falls between the last boundary before it and the first one at or after it. */
  ghost function SplitLoss(op: Operation, t1: int, t2: int): (lost: int)
    requires op.lastProcessedAt < t1 < t2
    ensures lost == 0 || lost == 1
  {
    AppliedSorted(op, t1);
    AppliedSorted(Advance(op, t1), t2);
    var cut := Last(StateNow(op), Applied(op, t1));
    var next := Next(Applied(Advance(op, t1), t2), t2);
    assert cut.at <= t1 by {
      if Applied(op, t1) != [] {
        assert cut in Applied(op, t1);
      }
    }
    assert t1 <= next by {
      if Applied(Advance(op, t1), t2) != [] {
        assert Applied(Advance(op, t1), t2)[0] in Applied(Advance(op, t1), t2);
      }
    }
    LostSeconds(cut.at, t1, next)
  }

  lemma StateSplit(op: Operation, t1: int, t2: int)
    requires op.lastProcessedAt < t1 < t2
    ensures Advance(Advance(op, t1), t2) == Advance(op, t2)
  {
    AppliedSplit(op, t1, t2);
    RetainedTwice(op.pending, t1, t2);
    hide Applied;
  }

  lemma {:induction false} ContributionSplit(op: Operation, t1: int, t2: int)
    requires op.lastProcessedAt < t1 < t2
    ensures Contribution(op, t2)
      == Contribution(op, t1) + Contribution(Advance(op, t1), t2) + SplitLoss(op, t1, t2) * RateInForce(op, t1)
  {
    var middle := Advance(op, t1);
    var first, second := Applied(op, t1), Applied(middle, t2);
    var cut := Last(StateNow(op), first);
    AppliedSplit(op, t1, t2);
    AppliedSorted(middle, t2);
    ContributionIsWork(op, t1);
    ContributionIsWork(middle, t2);
    ContributionIsWork(op, t2);
    hide Applied, Contribution, Rate, Work, LostSeconds;
    forall i | 0 <= i < |second|
      ensures t1 <= second[i].at < t2
    {
      assert second[i] in second;
    }
    WorkSplit(op.baseHashrate, first, second, StateNow(op), t1, t2);
    RateIgnoresTime(op.baseHashrate, cut, t1);
  }

  /** Ticking at t1 and then at t2 leaves the operation exactly as one tick at t2 does, and the work falls
  short by zero or one second at the rate in force at t1. */
  lemma {:induction false} TickSplit(op: Operation, t1: int, t2: int)
    requires op.lastProcessedAt < t1 < t2
    ensures Advance(Advance(op, t1), t2) == Advance(op, t2)
    ensures Contribution(op, t2)
      == Contribution(op, t1) + Contribution(Advance(op, t1), t2) + SplitLoss(op, t1, t2) * RateInForce(op, t1)
  {
    StateSplit(op, t1, t2);
    ContributionSplit(op, t1, t2);
  }

  /** Everything pending lies whole seconds after the last tick. */
  ghost predicate Aligned(op: Operation, end: int) {
    WholeSeconds(op.pending, op.lastProcessedAt, end)
  }

  lemma {:induction false} RetainedMembers(pending: seq<Boundary>, end: int)
    ensures forall b :: b in Retained(pending, end) <==> b in pending && end <= b.at
  {
    if pending != [] {
      var front := pending[..|pending| - 1];
      RetainedMembers(front, end);
      assert pending == front + [pending[|pending| - 1]];
    }
  }

  lemma AlignedSplit(op: Operation, t1: int, t2: int)
    requires op.lastProcessedAt < t1 < t2 && Aligned(op, t1) && Aligned(op, t2)
    ensures SplitLoss(op, t1, t2) == 0
    ensures Aligned(Advance(op, t1), t2)
  {
    AlignedCut(op, t1, t2);
    RetainedAligned(op.pending, op.lastProcessedAt, t1, t2);
    hide Applied, Last, SplitLoss;
  }

  lemma RetainedAligned(pending: seq<Boundary>, origin: int, t1: int, t2: int)
    requires WholeSeconds(pending, origin, t1) && WholeSeconds(pending, origin, t2)
    ensures WholeSeconds(Retained(pending, t1), t1, t2)
  {
    RetainedMembers(pending, t1);
    hide Retained;
    forall b | b in Retained(pending, t1)
      ensures (b.at - t1) % SECOND == 0
    {
      AlignedDifference(origin, t1, b.at);
    }
    AlignedDifference(origin, t1, t2);
  }

  lemma AlignedCut(op: Operation, t1: int, t2: int)
    requires op.lastProcessedAt < t1 < t2 && Aligned(op, t1) && Aligned(op, t2)
    ensures SplitLoss(op, t1, t2) == 0
  {
    var cut := Last(StateNow(op), Applied(op, t1));
    CutAligned(op, t1);
    AlignedDifference(op.lastProcessedAt, cut.at, t1);
    hide Applied, Last, Advance;
  }

  lemma CutAligned(op: Operation, t1: int)
    requires op.lastProcessedAt < t1 && Aligned(op, t1)
    ensures (Last(StateNow(op), Applied(op, t1)).at - op.lastProcessedAt) % SECOND == 0
  {
    var first := Applied(op, t1);
    AppliedSorted(op, t1);
    if first != [] {
      var cut := first[|first| - 1];
      assert cut in first;
      assert cut in op.pending;
    }
  }

  lemma AlignedDifference(origin: int, a: int, b: int)
    requires (a - origin) % SECOND == 0 && (b - origin) % SECOND == 0
    ensures (b - a) % SECOND == 0
  {
  }

  /** The operation and the work after ticks at several instants. */
  ghost function AdvanceAll(op: Operation, times: seq<int>): Operation
    decreases |times|
  {
    if times == [] then op else AdvanceAll(Advance(op, times[0]), times[1..])
  }

  ghost function ContributionAll(op: Operation, times: seq<int>): int
    decreases |times|
  {
    if times == [] then 0 else Contribution(op, times[0]) + ContributionAll(Advance(op, times[0]), times[1..])
  }

  ghost predicate Increasing(times: seq<int>, from: int) {
    times == [] || (from < times[0] && Increasing(times[1..], times[0]))
  }

  ghost predicate AllAligned(op: Operation, times: seq<int>) {
    forall t :: t in times ==> Aligned(op, t)
  }

  lemma {:induction false} IncreasingBelowLast(times: seq<int>, from: int)
    requires Increasing(times, from) && times != []
    ensures from < times[|times| - 1]
    decreases |times|
  {
    if 1 < |times| {
      IncreasingBelowLast(times[1..], times[0]);
    }
  }

  /** Work lost by ticking at all these times: at each tick before the last, zero or one second at the rate in force. */
  ghost function LossAll(op: Operation, times: seq<int>): int
    requires Increasing(times, op.lastProcessedAt)
    decreases |times|
  {
    if |times| <= 1 then 0
    else
      IncreasingBelowLast(times[1..], times[0]);
      SplitLoss(op, times[0], times[|times| - 1]) * RateInForce(op, times[0])
      + LossAll(Advance(op, times[0]), times[1..])
  }

  /** However often an operation ticks, it has contributed the work of one single tick but for what was lost at each
  tick on the way. */
  lemma {:induction false} TicksLose(op: Operation, times: seq<int>)
    requires times != [] && Increasing(times, op.lastProcessedAt)
    ensures Contribution(op, times[|times| - 1]) == ContributionAll(op, times) + LossAll(op, times)
    decreases |times|
  {
    hide Applied, Contribution, SplitLoss, RateInForce;
    var t1, rest := times[0], times[1..];
    if rest == [] {
      assert times[|times| - 1] == t1;
    } else {
      var t2 := times[|times| - 1];
      assert rest[|rest| - 1] == t2;
      IncreasingBelowLast(rest, t1);
      ContributionSplit(op, t1, t2);
      AdvancedTo(op, t1);
      hide Advance, Increasing;
      TicksLose(Advance(op, t1), rest);
    }
  }

  lemma AdvancedTo(op: Operation, t1: int)
    requires op.lastProcessedAt < t1
    ensures Advance(op, t1).lastProcessedAt == t1
  {
  }

  /** However often an operation ticks, it ends in the state of one single tick; with timestamps whole seconds
  apart it has also contributed exactly the same work. */
  lemma {:induction false} TicksAsOne(op: Operation, times: seq<int>)
    requires times != [] && Increasing(times, op.lastProcessedAt)
    ensures AdvanceAll(op, times) == Advance(op, times[|times| - 1])
    ensures AllAligned(op, times) ==> ContributionAll(op, times) == Contribution(op, times[|times| - 1])
    decreases |times|
  {
    hide Applied, Contribution, SplitLoss, RateInForce, Aligned;
    var t1, rest := times[0], times[1..];
    if rest == [] {
      assert times[|times| - 1] == t1;
    } else {
      var t2 := times[|times| - 1];
      assert rest[|rest| - 1] == t2;
      IncreasingBelowLast(rest, t1);
      TickSplit(op, t1, t2);
      AdvancedTo(op, t1);
      if AllAligned(op, times) {
        assert t1 in times && t2 in times;
        AlignedSplit(op, t1, t2);
        RestAligned(op, times);
      }
      hide Advance, Increasing, AllAligned;
      TicksAsOne(Advance(op, t1), rest);
    }
  }

  lemma {:induction false} RestAligned(op: Operation, times: seq<int>)
    requires times != [] && Increasing(times, op.lastProcessedAt) && AllAligned(op, times)
    ensures AllAligned(Advance(op, times[0]), times[1..])
  {
    hide Aligned, Advance, SplitLoss;
    var t1, rest := times[0], times[1..];
    forall t | t in rest
      ensures Aligned(Advance(op, t1), t)
    {
      var i :| 0 <= i < |rest| && rest[i] == t;
      IncreasingAt(times, op.lastProcessedAt, i + 1);
      assert t1 in times && t in times;
      AlignedSplit(op, t1, t);
    }
  }

  lemma {:induction false} IncreasingAt(times: seq<int>, from: int, i: nat)
    requires Increasing(times, from) && 0 < i < |times|
    ensures times[0] < times[i]
    decreases |times|
  {
    if 1 < i {
      IncreasingAt(times[1..], times[0], i - 1);
    }
  }

  // ---------------------------------------------------------------- order of arrival

  /** The order in which boundaries were appended does not matter: same work, same state, and the same
  boundaries left over. */
  lemma TickIgnoresArrivalOrder(op: Operation, other: seq<Boundary>, end: int)
    requires multiset(op.pending) == multiset(other)
    ensures var op' := op.(pending := other);
      && Contribution(op', end) == Contribution(op, end)
      && Advance(op', end).(pending := []) == Advance(op, end).(pending := [])
      && multiset(Advance(op', end).pending) == multiset(Advance(op, end).pending)
  {
    SamePending(op.pending, other, op.lastProcessedAt, end);
    KeyOrder();
    SortIgnoresOrder(KeyLe, InWindow(op.pending, op.lastProcessedAt, end), InWindow(other, op.lastProcessedAt, end));
    hide SortBy, InWindow, Retained, KeyLe, Slices, Last;
  }

  lemma {:induction false} SamePending(a: seq<Boundary>, b: seq<Boundary>, start: int, end: int)
    requires multiset(a) == multiset(b)
    ensures multiset(InWindow(a, start, end)) == multiset(InWindow(b, start, end))
    ensures multiset(Retained(a, end)) == multiset(Retained(b, end))
  {
    forall x: Boundary
      ensures multiset(InWindow(a, start, end))[x] == multiset(InWindow(b, start, end))[x]
      ensures multiset(Retained(a, end))[x] == multiset(Retained(b, end))[x]
    {
      WindowCounts(a, start, end, x);
      WindowCounts(b, start, end, x);
    }
  }

  // ---------------------------------------------------------------- work is not negative

  /** Hashrates and multipliers that never turn work negative. */
  ghost predicate NonNegativeRates(op: Operation) {
    && 0 <= op.baseHashrate.num
    && 0 <= Value(op.multiplier).num
    && forall b :: b in op.pending ==> 0 <= Value(b.multiplier).num
  }

  lemma RateNonNegative(base: Rational, b: Boundary)
    requires 0 <= base.num && 0 <= Value(b.multiplier).num
    ensures 0 <= Rate(base, b)
  {
    var m := Value(b.multiplier);
    ProductMonotone(0, base.num, m.num);
    ProductMonotone(0, base.num * m.num, MICRO);
  }

  lemma {:induction false} WorkNonNegative(base: Rational, ordered: seq<Boundary>, current: Boundary, end: int)
    requires Ordered(ordered, current, end) && 0 <= base.num && 0 <= Value(current.multiplier).num
    requires forall i :: 0 <= i < |ordered| ==> 0 <= Value(ordered[i].multiplier).num
    ensures 0 <= Work(base, ordered, current, end)
    decreases |ordered|
  {
    RateNonNegative(base, current);
    hide Rate, Value;
    ProductMonotone(0, Rate(base, current), Seconds(current.at, Next(ordered, end)));
    if ordered != [] {
      OrderedTail(ordered, current, end);
      WorkNonNegative(base, ordered[1..], ordered[0], end);
    }
  }

  /** Ticks of such an operation never contribute a negative amount, and it stays such an operation. */
  lemma TickNonNegative(op: Operation, end: int)
    requires NonNegativeRates(op)
    ensures 0 <= Contribution(op, end)
    ensures NonNegativeRates(Advance(op, end))
  {
    hide Value;
    if op.lastProcessedAt < end {
      AppliedSorted(op, end);
      RetainedMembers(op.pending, end);
      ContributionIsWork(op, end);
      hide Applied, Contribution;
      var applied := Applied(op, end);
      forall i | 0 <= i < |applied|
        ensures 0 <= Value(applied[i].multiplier).num
      {
        assert applied[i] in applied;
      }
      WorkNonNegative(op.baseHashrate, applied, StateNow(op), end);
    }
  }
}
