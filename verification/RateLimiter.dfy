/** The two rate limiters of the cleanup endpoint: a sliding window in memory and a fixed window in the database
(server/api/v1/blockchain.py). Times are microseconds, windows whole seconds. */
module RateLimiter {
  import opened Numbers

  datatype Decision = Decision(allowed: bool, retryAfter: int)

  /** Number of instants in the half-open interval from lo to hi. */
  function CountIn(times: seq<int>, lo: int, hi: int): nat {
    if times == [] then 0
    else CountIn(times[..|times| - 1], lo, hi) + (if lo <= times[|times| - 1] < hi then 1 else 0)
  }

  ghost predicate Monotone(times: seq<int>) {
    forall i, j :: 0 <= i < j < |times| ==> times[i] <= times[j]
  }

  lemma {:induction false} CountBounds(times: seq<int>, lo: int, hi: int)
    ensures CountIn(times, lo, hi) <= |times|
    ensures (forall t :: t in times ==> t < lo || hi <= t) ==> CountIn(times, lo, hi) == 0
    ensures (forall t :: t in times ==> lo <= t < hi) ==> CountIn(times, lo, hi) == |times|
  {
    if times != [] {
      var front := times[..|times| - 1];
      CountBounds(front, lo, hi);
      assert times[|times| - 1] in times;
      assert forall t :: t in front ==> t in times;
    }
  }

  lemma CountAppend(times: seq<int>, t: int, lo: int, hi: int)
    ensures CountIn(times + [t], lo, hi) == CountIn(times, lo, hi) + (if lo <= t < hi then 1 else 0)
  {
    assert (times + [t])[..|times|] == times;
  }

  // ---------------------------------------------------------------- the sliding window in memory

  /** Timestamps younger than the window. */
  function Recent(times: seq<int>, now: int, window: int): seq<int> {
    if times == [] then []
    else
      Recent(times[..|times| - 1], now, window)
      + (if now - times[|times| - 1] < window then [times[|times| - 1]] else [])
  }

  function Kept(times: seq<int>, now: int, window: int, max: int): seq<int> {
    var recent := Recent(times, now, window);
    if max <= |recent| then recent else recent + [now]
  }

  class SlidingWindow {
    var timestamps: seq<int>

    constructor ()
      ensures timestamps == []
    {
      timestamps := [];
    }

    method Request(now: int, windowSeconds: int, max: int) returns (decision: Decision)
      modifies this
      ensures timestamps == Kept(old(timestamps), now, windowSeconds * SECOND, max)
      ensures decision.allowed <==> |Recent(old(timestamps), now, windowSeconds * SECOND)| < max
      ensures decision.retryAfter == windowSeconds
    {
      timestamps := Recent(timestamps, now, windowSeconds * SECOND);
      if |timestamps| >= max {
        return Decision(false, windowSeconds);
      }
      timestamps := timestamps + [now];
      return Decision(true, windowSeconds);
    }
  }

  /** A run: the timestamps kept and all accepted instants. */
  datatype Sliding = Sliding(kept: seq<int>, accepted: seq<int>)

  ghost function RunSliding(requests: seq<int>, window: int, max: int): Sliding {
    if requests == [] then Sliding([], [])
    else
      var before, now := RunSliding(requests[..|requests| - 1], window, max), requests[|requests| - 1];
      Sliding(Kept(before.kept, now, window, max),
              if |Recent(before.kept, now, window)| < max then before.accepted + [now] else before.accepted)
  }

  lemma {:induction false} RecentTwice(times: seq<int>, earlier: int, later: int, window: int)
    requires earlier <= later
    ensures Recent(Recent(times, earlier, window), later, window) == Recent(times, later, window)
  {
    if times != [] {
      var front, t := times[..|times| - 1], times[|times| - 1];
      RecentTwice(front, earlier, later, window);
      var kept := Recent(front, earlier, window);
      if earlier - t < window {
        assert (kept + [t])[..|kept|] == kept;
      } else {
        assert kept + [] == kept;
        assert Recent(front, later, window) + [] == Recent(front, later, window);
      }
    }
  }

  lemma RecentAppend(times: seq<int>, t: int, now: int, window: int)
    ensures Recent(times + [t], now, window) == Recent(times, now, window) + (if now - t < window then [t] else [])
  {
    assert (times + [t])[..|times|] == times;
  }

  /** An interval that contains `now` holds no more earlier instants than were younger than the window. */
  lemma {:induction false} RecentCovers(times: seq<int>, now: int, window: int, lo: int)
    requires forall t :: t in times ==> t <= now
    requires lo <= now < lo + window
    ensures CountIn(times, lo, lo + window) <= |Recent(times, now, window)|
  {
    if times != [] {
      var front := times[..|times| - 1];
      assert times[|times| - 1] in times;
      assert forall t :: t in front ==> t in times;
      RecentCovers(front, now, window, lo);
    }
  }

  lemma {:induction false} SlidingState(requests: seq<int>, window: int, max: int, now: int)
    requires Monotone(requests) && 0 < window
    requires requests != [] ==> requests[|requests| - 1] <= now
    ensures var run := RunSliding(requests, window, max);
      && Recent(run.kept, now, window) == Recent(run.accepted, now, window)
      && forall t :: t in run.accepted ==> t <= now
  {
    if requests != [] {
      var before, last := requests[..|requests| - 1], requests[|requests| - 1];
      SlidingState(before, window, max, last);
      var run := RunSliding(before, window, max);
      KeptMatches(run.kept, run.accepted, last, now, window, max);
      hide Recent, Kept;
    }
  }

  /** Pruning and appending keep the list and the history in step. */
  lemma KeptMatches(kept: seq<int>, accepted: seq<int>, last: int, now: int, window: int, max: int)
    requires Recent(kept, last, window) == Recent(accepted, last, window) && last <= now
    ensures Recent(Kept(kept, last, window, max), now, window)
      == Recent(if |Recent(kept, last, window)| < max then accepted + [last] else accepted, now, window)
  {
    RecentTwice(kept, last, now, window);
    RecentTwice(accepted, last, now, window);
    RecentAppend(Recent(kept, last, window), last, now, window);
    RecentAppend(accepted, last, now, window);
    hide Recent;
  }

  lemma SlidingStep(kept: seq<int>, accepted: seq<int>, now: int, window: int, max: int, lo: int)
    requires Recent(kept, now, window) == Recent(accepted, now, window)
    requires forall t :: t in accepted ==> t <= now
    requires CountIn(accepted, lo, lo + window) <= max
    requires |Recent(kept, now, window)| < max
    ensures CountIn(accepted + [now], lo, lo + window) <= max
  {
    CountAppend(accepted, now, lo, lo + window);
    if lo <= now < lo + window {
      RecentCovers(accepted, now, window, lo);
    }
  }

  /** For every sequence of requests in time order, the sliding window accepts at most max of them in any
  half-open interval of window length. */
  lemma {:induction false} SlidingWindowBound(requests: seq<int>, window: int, max: int, lo: int)
    requires Monotone(requests) && 0 < window && 0 <= max
    ensures CountIn(RunSliding(requests, window, max).accepted, lo, lo + window) <= max
  {
    if requests != [] {
      var before, now := requests[..|requests| - 1], requests[|requests| - 1];
      SlidingWindowBound(before, window, max, lo);
      SlidingState(before, window, max, now);
      hide CountIn, Recent, Kept;
      var run := RunSliding(before, window, max);
      if |Recent(run.kept, now, window)| < max {
        SlidingStep(run.kept, run.accepted, now, window, max, lo);
      }
    }
  }

  // ---------------------------------------------------------------- the fixed window in the database

  /** maintenance_cleanup_rate_limit_state. */
  datatype Row = Row(windowStartedAt: int, requestCount: int)

  /** EXTRACT(EPOCH FROM span)::INT: the cast rounds to the nearest second, half a second upwards. */
  function EpochSeconds(span: int): int {
    RoundHalfUp(span, SECOND)
  }

  function RowBefore(row: Option<Row>, now: int): Row {
    if row.Some? then row.value else Row(now, 0)
  }

  function RowAfter(row: Option<Row>, now: int, windowSeconds: int, max: int): Row {
    var r := RowBefore(row, now);
    if windowSeconds <= EpochSeconds(now - r.windowStartedAt) then Row(now, 1)
    else if max <= r.requestCount then r
    else r.(requestCount := r.requestCount + 1)
  }

  function Decide(row: Option<Row>, now: int, windowSeconds: int, max: int): Decision {
    var r := RowBefore(row, now);
    var elapsed := EpochSeconds(now - r.windowStartedAt);
    if elapsed < windowSeconds && max <= r.requestCount then Decision(false, Max(1, windowSeconds - elapsed))
    else Decision(true, windowSeconds)
  }

  class FixedWindow {
    var row: Option<Row>

    constructor ()
      ensures row == None
    {
      row := None;
    }

    /** _enforce_persisted_cleanup_rate_limit, one transaction. */
    method Request(now: int, windowSeconds: int, max: int) returns (decision: Decision)
      modifies this
      ensures row == Some(RowAfter(old(row), now, windowSeconds, max))
      ensures decision == Decide(old(row), now, windowSeconds, max)
    {
      if row.None? {
        row := Some(Row(now, 0));
      }
      var elapsedSeconds := EpochSeconds(now - row.value.windowStartedAt);
      if elapsedSeconds >= windowSeconds {
        row := Some(Row(now, 1));
        return Decision(true, windowSeconds);
      }
      if row.value.requestCount >= max {
        return Decision(false, Max(1, windowSeconds - elapsedSeconds));
      }
      row := Some(row.value.(requestCount := row.value.requestCount + 1));
      return Decision(true, windowSeconds);
    }
  }

  /** A window of the run, with the instants accepted in it. */
  datatype Window = Window(start: int, times: seq<int>)

  ghost function RowOf(windows: seq<Window>): Option<Row> {
    if windows == [] then None
    else
      var last := windows[|windows| - 1];
      Some(Row(last.start, |last.times|))
  }

  /** One request, with the history kept window by window. */
  ghost function Accept(windows: seq<Window>, now: int, windowSeconds: int, max: int): seq<Window> {
    if windows == [] then [Window(now, [now])]
    else
      var last := windows[|windows| - 1];
      if windowSeconds <= EpochSeconds(now - last.start) then windows + [Window(now, [now])]
      else if max <= |last.times| then windows
      else windows[|windows| - 1 := last.(times := last.times + [now])]
  }

  ghost function RunFixed(requests: seq<int>, windowSeconds: int, max: int): seq<Window> {
    if requests == [] then []
    else Accept(RunFixed(requests[..|requests| - 1], windowSeconds, max), requests[|requests| - 1], windowSeconds, max)
  }

  ghost function RunRow(requests: seq<int>, windowSeconds: int, max: int): Option<Row> {
    if requests == [] then None
    else
      var before := RunRow(requests[..|requests| - 1], windowSeconds, max);
      Some(RowAfter(before, requests[|requests| - 1], windowSeconds, max))
  }

  /** The history is that of the stored row. */
  lemma {:induction false} HistoryMatchesRow(requests: seq<int>, windowSeconds: int, max: int)
    requires 1 <= windowSeconds && 1 <= max
    ensures RowOf(RunFixed(requests, windowSeconds, max)) == RunRow(requests, windowSeconds, max)
  {
    if requests != [] {
      HistoryMatchesRow(requests[..|requests| - 1], windowSeconds, max);
      assert EpochSeconds(0) == 0;
    }
  }

  /** Accepted instants of all windows in an interval. */
  ghost function AcceptedIn(windows: seq<Window>, lo: int, hi: int): nat {
    if windows == [] then 0
    else AcceptedIn(windows[..|windows| - 1], lo, hi) + CountIn(windows[|windows| - 1].times, lo, hi)
  }

  /** The shortest time after which a window can be replaced: half a second less than its nominal length. */
  function Gap(windowSeconds: int): int {
    windowSeconds * SECOND - SECOND / 2
  }

  lemma RoundedElapsed(span: int, windowSeconds: int)
    requires 1 <= windowSeconds
    ensures windowSeconds <= EpochSeconds(span) <==> Gap(windowSeconds) <= span
  {
  }

  ghost predicate WindowOk(w: Window, windowSeconds: int, max: int) {
    && 1 <= |w.times| <= max && w.times[0] == w.start
    && forall t :: t in w.times ==> w.start <= t < w.start + Gap(windowSeconds)
  }

  ghost predicate WindowsOk(windows: seq<Window>, windowSeconds: int, max: int) {
    && (forall i :: 0 <= i < |windows| ==> WindowOk(windows[i], windowSeconds, max))
    && forall i :: 0 <= i < |windows| - 1 ==> windows[i].start + Gap(windowSeconds) <= windows[i + 1].start
  }

  lemma AcceptKeepsOk(windows: seq<Window>, now: int, windowSeconds: int, max: int)
    requires 1 <= windowSeconds && 1 <= max && WindowsOk(windows, windowSeconds, max)
    requires windows != [] ==> windows[|windows| - 1].start <= now
    ensures WindowsOk(Accept(windows, now, windowSeconds, max), windowSeconds, max)
    ensures var after := Accept(windows, now, windowSeconds, max);
      after != [] && after[|after| - 1].start <= now
  {
    if windows != [] {
      RoundedElapsed(now - windows[|windows| - 1].start, windowSeconds);
    }
    hide EpochSeconds;
  }

  /** In every run each window accepts at most max requests and lasts at least half a second less than its
  nominal length. */
  lemma {:induction false} FixedWindowsOk(requests: seq<int>, windowSeconds: int, max: int)
    requires Monotone(requests) && 1 <= windowSeconds && 1 <= max
    ensures WindowsOk(RunFixed(requests, windowSeconds, max), windowSeconds, max)
    ensures var windows := RunFixed(requests, windowSeconds, max);
      requests != [] ==> windows != [] && windows[|windows| - 1].start <= requests[|requests| - 1]
  {
    if requests != [] {
      FixedWindowsOk(requests[..|requests| - 1], windowSeconds, max);
      hide WindowsOk, Accept;
      AcceptKeepsOk(RunFixed(requests[..|requests| - 1], windowSeconds, max), requests[|requests| - 1], windowSeconds,
                    max);
    }
  }

  ghost function LastStart(windows: seq<Window>): int
    requires windows != []
  {
    windows[|windows| - 1].start
  }

  lemma FrontOk(windows: seq<Window>, windowSeconds: int, max: int)
    requires WindowsOk(windows, windowSeconds, max) && windows != []
    ensures WindowsOk(windows[..|windows| - 1], windowSeconds, max)
    ensures WindowOk(windows[|windows| - 1], windowSeconds, max)
    ensures 1 < |windows| ==> LastStart(windows[..|windows| - 1]) + Gap(windowSeconds) <= LastStart(windows)
  {
  }

  lemma FirstOutside(times: seq<int>, lo: int, hi: int)
    requires times != [] && times[0] < lo
    ensures CountIn(times, lo, hi) <= |times| - 1
  {
    assert times == [times[0]] + times[1..];
    CountFirst(times[0], times[1..], lo, hi);
    CountBounds(times[1..], lo, hi);
  }

  lemma {:induction false} CountFirst(t: int, rest: seq<int>, lo: int, hi: int)
    ensures CountIn([t] + rest, lo, hi) == (if lo <= t < hi then 1 else 0) + CountIn(rest, lo, hi)
  {
    if rest == [] {
      assert [t] + rest == [t];
      assert [t][..0] == [];
    } else {
      CountFirst(t, rest[..|rest| - 1], lo, hi);
      assert ([t] + rest)[..|rest|] == [t] + rest[..|rest| - 1];
    }
  }

  /** Windows that ended before the interval accept nothing in it. */
  lemma {:induction false} EndedBefore(windows: seq<Window>, windowSeconds: int, max: int, lo: int, hi: int)
    requires WindowsOk(windows, windowSeconds, max) && 1 <= windowSeconds
    requires windows != [] ==> LastStart(windows) + Gap(windowSeconds) <= lo
    ensures AcceptedIn(windows, lo, hi) == 0
  {
    if windows != [] {
      FrontOk(windows, windowSeconds, max);
      CountBounds(windows[|windows| - 1].times, lo, hi);
      EndedBefore(windows[..|windows| - 1], windowSeconds, max, lo, hi);
    }
  }

  /** `inside` counts how many windows can start in the interval. */
  lemma {:induction false} StartsInside(windows: seq<Window>, windowSeconds: int, max: int, lo: int, hi: int,
                                        inside: nat)
    requires WindowsOk(windows, windowSeconds, max) && 1 <= windowSeconds && 1 <= max
    requires windows != [] ==> LastStart(windows) < lo + inside * Gap(windowSeconds)
    ensures AcceptedIn(windows, lo, hi) <= (inside + 1) * max - 1
  {
    assert (inside + 1) * max == inside * max + max;
    ProductMonotone(0, inside, max);
    if windows != [] {
      var front, last := windows[..|windows| - 1], windows[|windows| - 1];
      FrontOk(windows, windowSeconds, max);
      CountBounds(last.times, lo, hi);
      if last.start < lo {
        FirstOutside(last.times, lo, hi);
        EndedBefore(front, windowSeconds, max, lo, hi);
      } else {
        assert (inside - 1) * Gap(windowSeconds) == inside * Gap(windowSeconds) - Gap(windowSeconds);
        assert inside != 0;
        StartsInside(front, windowSeconds, max, lo, hi, inside - 1);
      }
    }
  }

  /** Windows that start after the interval do not matter. */
  lemma {:induction false} IgnoreLater(windows: seq<Window>, windowSeconds: int, max: int, lo: int, hi: int)
    returns (k: nat)
    requires WindowsOk(windows, windowSeconds, max)
    ensures k <= |windows| && WindowsOk(windows[..k], windowSeconds, max)
    ensures AcceptedIn(windows, lo, hi) == AcceptedIn(windows[..k], lo, hi)
    ensures 0 < k ==> LastStart(windows[..k]) < hi
  {
    if windows == [] || LastStart(windows) < hi {
      k := |windows|;
      assert windows[..k] == windows;
    } else {
      FrontOk(windows, windowSeconds, max);
      CountBounds(windows[|windows| - 1].times, lo, hi);
      k := IgnoreLater(windows[..|windows| - 1], windowSeconds, max, lo, hi);
      assert windows[..|windows| - 1][..k] == windows[..k];
    }
  }

  /** For every sequence of requests in time order: below 2 * max in any interval half a second shorter than the
  window, and below 3 * max in any interval of window length. */
  lemma FixedWindowBound(requests: seq<int>, windowSeconds: int, max: int, lo: int, hi: int)
    requires Monotone(requests) && 1 <= windowSeconds && 1 <= max
    ensures hi <= lo + Gap(windowSeconds) ==> AcceptedIn(RunFixed(requests, windowSeconds, max), lo, hi) <= 2 * max - 1
    ensures hi <= lo + windowSeconds * SECOND ==>
      AcceptedIn(RunFixed(requests, windowSeconds, max), lo, hi) <= 3 * max - 1
  {
    var windows := RunFixed(requests, windowSeconds, max);
    TwoGaps(windowSeconds);
    hide *;
    FixedWindowsOk(requests, windowSeconds, max);
    var k := IgnoreLater(windows, windowSeconds, max, lo, hi);
    if hi <= lo + Gap(windowSeconds) {
      StartsInside(windows[..k], windowSeconds, max, lo, hi, 1);
    }
    if hi <= lo + windowSeconds * SECOND {
      StartsInside(windows[..k], windowSeconds, max, lo, hi, 2);
    }
  }

  lemma TwoGaps(windowSeconds: int)
    requires 1 <= windowSeconds
    ensures windowSeconds * SECOND <= 2 * Gap(windowSeconds)
  {
  }

  // ---------------------------------------------------------------- when twice the limit holds

  ghost function Repeat(t: int, n: nat): seq<int> {
    seq(n, i => t)
  }

  /** The burst: one request opens a window, the rest of its limit comes at the last moment, and two further
  windows are filled as soon as they open. */
  ghost function Burst(windowSeconds: int, max: nat): seq<int>
    requires 1 <= max
  {
    var gap := Gap(windowSeconds);
    [0] + Repeat(gap - 1, max - 1) + Repeat(gap, max) + Repeat(2 * gap, max)
  }

  lemma RunAppend(requests: seq<int>, now: int, windowSeconds: int, max: int)
    ensures RunFixed(requests + [now], windowSeconds, max)
      == Accept(RunFixed(requests, windowSeconds, max), now, windowSeconds, max)
  {
    assert (requests + [now])[..|requests|] == requests;
  }

  lemma RepeatMore(s: seq<int>, t: int, n: nat)
    ensures s + Repeat(t, 0) == s
    ensures s + Repeat(t, n + 1) == s + Repeat(t, n) + [t]
    ensures s + Repeat(t, n + 1) == s + [t] + Repeat(t, n)
  {
  }

  /** One more accepted request in the current window. */
  lemma FillOne(windows: seq<Window>, t: int, windowSeconds: int, max: int)
    requires 1 <= windowSeconds && windows != []
    requires t - LastStart(windows) < Gap(windowSeconds) && |windows[|windows| - 1].times| < max
    ensures var last := windows[|windows| - 1];
      Accept(windows, t, windowSeconds, max) == windows[..|windows| - 1] + [Window(last.start, last.times + [t])]
  {
    RoundedElapsed(t - LastStart(windows), windowSeconds);
  }

  /** Repeated requests inside the current window are accepted up to the limit. */
  lemma {:induction false} FillWindow(requests: seq<int>, before: seq<Window>, last: Window, t: int, n: nat,
                                      windowSeconds: int, max: int)
    requires 1 <= windowSeconds && RunFixed(requests, windowSeconds, max) == before + [last]
    requires t - last.start < Gap(windowSeconds) && |last.times| + n <= max
    ensures RunFixed(requests + Repeat(t, n), windowSeconds, max)
      == before + [Window(last.start, last.times + Repeat(t, n))]
  {
    hide RunFixed, Gap;
    if n == 0 {
      RepeatMore(requests, t, 0);
      RepeatMore(last.times, t, 0);
    } else {
      FillWindow(requests, before, last, t, n - 1, windowSeconds, max);
      RepeatMore(requests, t, n - 1);
      RepeatMore(last.times, t, n - 1);
      RunAppend(requests + Repeat(t, n - 1), t, windowSeconds, max);
      var windows := before + [Window(last.start, last.times + Repeat(t, n - 1))];
      FillOne(windows, t, windowSeconds, max);
      assert windows[..|windows| - 1] == before;
    }
  }

  /** The first request after the gap opens a window, which the others fill. */
  lemma OpenWindow(requests: seq<int>, windows: seq<Window>, t: int, n: nat, windowSeconds: int, max: int)
    requires 1 <= windowSeconds && 1 <= n <= max && RunFixed(requests, windowSeconds, max) == windows
    requires windows == [] || Gap(windowSeconds) <= t - LastStart(windows)
    ensures RunFixed(requests + Repeat(t, n), windowSeconds, max) == windows + [Window(t, Repeat(t, n))]
  {
    hide *;
    RunAppend(requests, t, windowSeconds, max);
    OpenOne(windows, t, windowSeconds, max);
    RepeatFirst(requests, t, n);
    FillWindow(requests + [t], windows, Window(t, [t]), t, n - 1, windowSeconds, max);
  }

  lemma OpenOne(windows: seq<Window>, t: int, windowSeconds: int, max: int)
    requires 1 <= windowSeconds && (windows == [] || Gap(windowSeconds) <= t - LastStart(windows))
    ensures Accept(windows, t, windowSeconds, max) == windows + [Window(t, [t])]
    ensures t - t < Gap(windowSeconds)
  {
    if windows != [] {
      RoundedElapsed(t - LastStart(windows), windowSeconds);
    }
  }

  lemma RepeatFirst(requests: seq<int>, t: int, n: nat)
    requires 1 <= n
    ensures requests + Repeat(t, n) == requests + [t] + Repeat(t, n - 1)
    ensures [t] + Repeat(t, n - 1) == Repeat(t, n)
  {
  }

  ghost function BurstWindows(gap: int, max: nat): seq<Window>
    requires 1 <= max
  {
    [Window(0, [0] + Repeat(gap - 1, max - 1))] + [Window(gap, Repeat(gap, max))]
    + [Window(2 * gap, Repeat(2 * gap, max))]
  }

  lemma BurstRun(windowSeconds: int, max: nat)
    requires 1 <= windowSeconds && 1 <= max
    ensures RunFixed(Burst(windowSeconds, max), windowSeconds, max) == BurstWindows(Gap(windowSeconds), max)
  {
    hide *;
    BurstSecond(windowSeconds, max);
    BurstThird(windowSeconds, max);
    BurstParts(windowSeconds, max);
  }

  /** The requests of the burst and the windows they fill, part by part. */
  lemma BurstParts(windowSeconds: int, max: nat)
    requires 1 <= max
    ensures var gap := Gap(windowSeconds);
      var one := [0] + Repeat(gap - 1, max - 1);
      && Burst(windowSeconds, max) == one + Repeat(gap, max) + Repeat(2 * gap, max)
      && BurstWindows(gap, max)
        == [Window(0, one)] + [Window(gap, Repeat(gap, max))] + [Window(2 * gap, Repeat(2 * gap, max))]
  {
    hide Repeat, Gap;
  }

  lemma BurstThird(windowSeconds: int, max: nat)
    requires 1 <= windowSeconds && 1 <= max
    ensures var gap := Gap(windowSeconds);
      var one := [0] + Repeat(gap - 1, max - 1);
      var two := [Window(0, one)] + [Window(gap, Repeat(gap, max))];
      RunFixed(one + Repeat(gap, max) + Repeat(2 * gap, max), windowSeconds, max)
        == two + [Window(2 * gap, Repeat(2 * gap, max))]
  {
    hide *;
    var gap := Gap(windowSeconds);
    var one := [0] + Repeat(gap - 1, max - 1);
    BurstSecond(windowSeconds, max);
    NextWindow(one + Repeat(gap, max), [Window(0, one)], Window(gap, Repeat(gap, max)), 2 * gap, max, windowSeconds,
               max);
  }

  /** OpenWindow, with the last window named. */
  lemma {:induction false} NextWindow(requests: seq<int>, before: seq<Window>, last: Window, t: int, n: nat,
                                      windowSeconds: int, max: int)
    requires 1 <= windowSeconds && 1 <= n <= max && RunFixed(requests, windowSeconds, max) == before + [last]
    requires Gap(windowSeconds) <= t - last.start
    ensures RunFixed(requests + Repeat(t, n), windowSeconds, max) == before + [last] + [Window(t, Repeat(t, n))]
  {
    hide RunFixed, Repeat, Gap;
    assert LastStart(before + [last]) == last.start;
    OpenWindow(requests, before + [last], t, n, windowSeconds, max);
  }

  lemma BurstOpening(windowSeconds: int, max: nat)
    requires 1 <= windowSeconds && 1 <= max
    ensures var one := [0] + Repeat(Gap(windowSeconds) - 1, max - 1);
      RunFixed(one, windowSeconds, max) == [Window(0, one)]
  {
    FirstRequest(windowSeconds, max);
    hide RunFixed, Repeat, Gap;
    var one := [0] + Repeat(Gap(windowSeconds) - 1, max - 1);
    FillWindow([0], [], Window(0, [0]), Gap(windowSeconds) - 1, max - 1, windowSeconds, max);
    assert [] + [Window(0, one)] == [Window(0, one)];
  }

  lemma BurstSecond(windowSeconds: int, max: nat)
    requires 1 <= windowSeconds && 1 <= max
    ensures var gap := Gap(windowSeconds);
      var one := [0] + Repeat(gap - 1, max - 1);
      RunFixed(one + Repeat(gap, max), windowSeconds, max) == [Window(0, one)] + [Window(gap, Repeat(gap, max))]
  {
    hide *;
    var gap := Gap(windowSeconds);
    var one := [0] + Repeat(gap - 1, max - 1);
    BurstOpening(windowSeconds, max);
    assert [] + [Window(0, one)] == [Window(0, one)];
    NextWindow(one, [], Window(0, one), gap, max, windowSeconds, max);
  }

  lemma FirstRequest(windowSeconds: int, max: int)
    ensures RunFixed([0], windowSeconds, max) == [] + [Window(0, [0])]
  {
    assert [0][..0] == [];
  }

  lemma {:induction false} CountRepeat(t: int, n: nat, lo: int, hi: int)
    ensures CountIn(Repeat(t, n), lo, hi) == if lo <= t < hi then n else 0
  {
    if 0 < n {
      CountRepeat(t, n - 1, lo, hi);
      assert Repeat(t, n)[..n - 1] == Repeat(t, n - 1);
    }
  }

  lemma AcceptedAppend(windows: seq<Window>, w: Window, lo: int, hi: int)
    ensures AcceptedIn(windows + [w], lo, hi) == AcceptedIn(windows, lo, hi) + CountIn(w.times, lo, hi)
  {
    assert (windows + [w])[..|windows|] == windows;
  }

  lemma BurstMonotone(windowSeconds: int, max: nat)
    requires 1 <= windowSeconds && 1 <= max
    ensures Monotone(Burst(windowSeconds, max))
  {
  }

  lemma BurstWindowsCount(gap: int, max: nat, lo: int, hi: int)
    requires 1 <= max && 0 < lo && lo == gap - 1 && 2 * gap < hi
    ensures AcceptedIn(BurstWindows(gap, max), lo, hi) == 3 * max - 1
  {
    CountFirst(0, Repeat(gap - 1, max - 1), lo, hi);
    CountRepeat(gap - 1, max - 1, lo, hi);
    CountRepeat(gap, max, lo, hi);
    CountRepeat(2 * gap, max, lo, hi);
    assert AcceptedIn([], lo, hi) == 0;
    hide CountIn, Repeat, AcceptedIn;
    var a := Window(0, [0] + Repeat(gap - 1, max - 1));
    var b := Window(gap, Repeat(gap, max));
    AcceptedAppend([], a, lo, hi);
    AcceptedAppend([a], b, lo, hi);
    AcceptedAppend([a] + [b], Window(2 * gap, Repeat(2 * gap, max)), lo, hi);
    assert [] + [a] == [a];
  }

  lemma GapFits(windowSeconds: int)
    requires 1 <= windowSeconds
    ensures 1 < Gap(windowSeconds) < windowSeconds * SECOND - 1
  {
  }

  /** The burst reaches 3 * max - 1 accepted requests within one window length. */
  lemma BurstCount(windowSeconds: int, max: nat)
    requires 1 <= windowSeconds && 1 <= max
    ensures var lo := Gap(windowSeconds) - 1;
      var windows := RunFixed(Burst(windowSeconds, max), windowSeconds, max);
      AcceptedIn(windows, lo, lo + windowSeconds * SECOND) == 3 * max - 1
  {
    hide *;
    var gap := Gap(windowSeconds);
    var hi := gap - 1 + windowSeconds * SECOND;
    assert 1 < gap && 2 * gap < hi by {
      GapFits(windowSeconds);
    }
    BurstRun(windowSeconds, max);
    BurstWindowsCount(gap, max, gap - 1, hi);
  }

  /** At most twice the limit in the interval of window length from lo. */
  ghost predicate WithinTwice(requests: seq<int>, lo: int, windowSeconds: int, max: int) {
    var windows := RunFixed(requests, windowSeconds, max);
    Monotone(requests) ==> AcceptedIn(windows, lo, lo + windowSeconds * SECOND) <= 2 * max
  }

  /** Twice the limit per window length holds for all runs exactly when the limit is one request: rounding the
  elapsed time lets a window end half a second early. */
  lemma TwiceTheLimitHoldsOnlyForOne(windowSeconds: int, max: nat)
    requires 1 <= windowSeconds && 1 <= max
    ensures max == 1 <==> (forall requests, lo :: WithinTwice(requests, lo, windowSeconds, max))
  {
    if max == 1 {
      forall requests, lo
        ensures WithinTwice(requests, lo, windowSeconds, max)
      {
        if Monotone(requests) {
          FixedWindowBound(requests, windowSeconds, max, lo, lo + windowSeconds * SECOND);
        }
      }
    } else {
      BurstMonotone(windowSeconds, max);
      BurstCount(windowSeconds, max);
      assert !WithinTwice(Burst(windowSeconds, max), Gap(windowSeconds) - 1, windowSeconds, max);
    }
  }
}
