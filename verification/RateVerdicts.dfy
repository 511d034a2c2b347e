/** What the verdicts of the two rate limiters mean for a client, over whole runs (server/api/v1/blockchain.py). */
module RateVerdicts {
  import opened Numbers
  import opened RateLimiter

  // ---------------------------------------------------------------- the sliding window

  lemma {:induction false} RecentCount(times: seq<int>, now: int, window: int)
    requires forall t :: t in times ==> t <= now
    ensures |Recent(times, now, window)| == CountIn(times, now - window + 1, now + 1)
  {
    if times != [] {
      var front := times[..|times| - 1];
      assert times[|times| - 1] in times;
      assert forall t :: t in front ==> t in times;
      RecentCount(front, now, window);
    }
  }

  /** The sliding window accepts a request exactly if fewer than max were accepted within the window before it. */
  lemma {:induction false} SlidingAcceptsExactly(requests: seq<int>, now: int, window: int, max: int)
    requires Monotone(requests + [now]) && 0 < window
    ensures var before := RunSliding(requests, window, max).accepted;
      RunSliding(requests + [now], window, max).accepted
        == if CountIn(before, now - window + 1, now + 1) < max then before + [now] else before
  {
    var all := requests + [now];
    assert all[..|all| - 1] == requests;
    assert forall i :: 0 <= i < |requests| ==> all[i] == requests[i] && all[|requests|] == now;
    SlidingState(requests, window, max, now);
    RecentCount(RunSliding(requests, window, max).accepted, now, window);
    hide Recent, CountIn, Kept;
  }

  // ---------------------------------------------------------------- the fixed window

  /** The requests that were told to go on. */
  ghost function Allowed(requests: seq<int>, windowSeconds: int, max: int): seq<int> {
    if requests == [] then []
    else
      var before, now := requests[..|requests| - 1], requests[|requests| - 1];
      Allowed(before, windowSeconds, max)
      + if Decide(RunRow(before, windowSeconds, max), now, windowSeconds, max).allowed then [now] else []
  }

  /** The instants of all windows, one window after the other. */
  ghost function Flat(windows: seq<Window>): seq<int> {
    if windows == [] then [] else Flat(windows[..|windows| - 1]) + windows[|windows| - 1].times
  }

  lemma FlatAppend(windows: seq<Window>, w: Window)
    ensures Flat(windows + [w]) == Flat(windows) + w.times
  {
    assert (windows + [w])[..|windows|] == windows;
  }

  lemma FlatLonger(windows: seq<Window>, now: int)
    requires windows != []
    ensures var last := windows[|windows| - 1];
      Flat(windows[|windows| - 1 := last.(times := last.times + [now])]) == Flat(windows) + [now]
  {
    var front, last := windows[..|windows| - 1], windows[|windows| - 1];
    var longer := last.(times := last.times + [now]);
    assert windows[|windows| - 1 := longer] == front + [longer];
    FlatAppend(front, longer);
    assert Flat(front) + (last.times + [now]) == Flat(front) + last.times + [now];
  }

  /** A request enters the history exactly if its verdict is to go on. */
  lemma {:induction false} AcceptIfAllowed(windows: seq<Window>, now: int, windowSeconds: int, max: int)
    requires 1 <= windowSeconds && 1 <= max
    ensures Flat(Accept(windows, now, windowSeconds, max))
      == Flat(windows) + if Decide(RowOf(windows), now, windowSeconds, max).allowed then [now] else []
  {
    hide Flat, EpochSeconds, Max;
    if windows == [] {
      RoundedElapsed(0, windowSeconds);
      FlatAppend([], Window(now, [now]));
      assert [] + [Window(now, [now])] == [Window(now, [now])];
    } else {
      FlatAppend(windows, Window(now, [now]));
      FlatLonger(windows, now);
      assert Flat(windows) + [] == Flat(windows);
    }
  }

  /** The verdicts of a run are its history of windows: the requests told to go on are exactly the accepted ones. */
  lemma {:induction false} VerdictsAreHistory(requests: seq<int>, windowSeconds: int, max: int)
    requires 1 <= windowSeconds && 1 <= max
    ensures Flat(RunFixed(requests, windowSeconds, max)) == Allowed(requests, windowSeconds, max)
  {
    if requests != [] {
      var before, now := requests[..|requests| - 1], requests[|requests| - 1];
      hide Accept, Decide, RowOf;
      VerdictsAreHistory(before, windowSeconds, max);
      HistoryMatchesRow(before, windowSeconds, max);
      AcceptIfAllowed(RunFixed(before, windowSeconds, max), now, windowSeconds, max);
    }
  }

  lemma {:induction false} CountConcat(a: seq<int>, b: seq<int>, lo: int, hi: int)
    ensures CountIn(a + b, lo, hi) == CountIn(a, lo, hi) + CountIn(b, lo, hi)
  {
    if b == [] {
      assert a + b == a;
    } else {
      var front, t := b[..|b| - 1], b[|b| - 1];
      CountConcat(a, front, lo, hi);
      assert a + b == (a + front) + [t];
      CountAppend(a + front, t, lo, hi);
    }
  }

  lemma {:induction false} CountFlat(windows: seq<Window>, lo: int, hi: int)
    ensures AcceptedIn(windows, lo, hi) == CountIn(Flat(windows), lo, hi)
  {
    if windows != [] {
      var front, last := windows[..|windows| - 1], windows[|windows| - 1];
      CountFlat(front, lo, hi);
      CountConcat(Flat(front), last.times, lo, hi);
      hide CountIn;
    }
  }

  /** So what clients are told obeys the bounds: fewer than 2 * max go-aheads in any interval half a second shorter
  than the window, and fewer than 3 * max in any interval of window length. */
  lemma {:induction false} VerdictBound(requests: seq<int>, windowSeconds: int, max: int, lo: int, hi: int)
    requires Monotone(requests) && 1 <= windowSeconds && 1 <= max
    ensures var count := CountIn(Allowed(requests, windowSeconds, max), lo, hi);
      && (hi <= lo + windowSeconds * SECOND - SECOND / 2 ==> count < 2 * max)
      && (hi <= lo + windowSeconds * SECOND ==> count < 3 * max)
  {
    hide CountIn, AcceptedIn, Allowed, Flat, RunFixed;
    FixedWindowBound(requests, windowSeconds, max, lo, hi);
    CountFlat(RunFixed(requests, windowSeconds, max), lo, hi);
    VerdictsAreHistory(requests, windowSeconds, max);
  }

  lemma {:induction false} AllowedAreRequests(requests: seq<int>, windowSeconds: int, max: int)
    ensures forall t :: t in Allowed(requests, windowSeconds, max) ==> t in requests
  {
    if requests != [] {
      var before := requests[..|requests| - 1];
      AllowedAreRequests(before, windowSeconds, max);
      assert forall t :: t in before ==> t in requests;
      hide Decide;
    }
  }

  /** A full window that began within the window length before `now` counts in full. */
  lemma LastCounted(windows: seq<Window>, now: int, windowSeconds: int, max: int)
    requires windows != [] && WindowsOk(windows, windowSeconds, max)
    requires forall t :: t in Flat(windows) ==> t <= now
    requires now - LastStart(windows) < Gap(windowSeconds)
    ensures |windows[|windows| - 1].times| <= AcceptedIn(windows, now - Gap(windowSeconds) + 1, now + 1)
  {
    var last := windows[|windows| - 1];
    assert forall t :: t in last.times ==> t in Flat(windows);
    FrontOk(windows, windowSeconds, max);
    CountBounds(last.times, now - Gap(windowSeconds) + 1, now + 1);
    hide CountIn, Gap;
  }

  lemma {:induction false} RejectedWindow(windows: seq<Window>, now: int, windowSeconds: int, max: int)
    requires 1 <= windowSeconds && 1 <= max && !Decide(RowOf(windows), now, windowSeconds, max).allowed
    ensures windows != [] && max <= |windows[|windows| - 1].times|
    ensures now - LastStart(windows) < Gap(windowSeconds)
  {
    if windows != [] {
      RoundedElapsed(now - LastStart(windows), windowSeconds);
    } else {
      RoundedElapsed(0, windowSeconds);
    }
    hide EpochSeconds;
  }

  /** Nobody is turned away before the limit is used up: a rejected request finds max accepted ones within the window
  before it. */
  lemma {:induction false} RejectedOnlyAtLimit(requests: seq<int>, now: int, windowSeconds: int, max: int)
    requires Monotone(requests + [now]) && 1 <= windowSeconds && 1 <= max
    requires !Decide(RunRow(requests, windowSeconds, max), now, windowSeconds, max).allowed
    ensures CountIn(Allowed(requests, windowSeconds, max), now - (windowSeconds * SECOND - SECOND / 2) + 1, now + 1)
      >= max
  {
    var windows := RunFixed(requests, windowSeconds, max);
    var all := requests + [now];
    forall t | t in requests
      ensures t <= now
    {
      var i :| 0 <= i < |requests| && requests[i] == t;
      assert all[i] == t && all[|requests|] == now;
    }
    assert forall i :: 0 <= i < |requests| ==> all[i] == requests[i];
    FixedWindowsOk(requests, windowSeconds, max);
    HistoryMatchesRow(requests, windowSeconds, max);
    VerdictsAreHistory(requests, windowSeconds, max);
    AllowedAreRequests(requests, windowSeconds, max);
    hide CountIn, Allowed, RunFixed, RunRow, Decide, RowOf, WindowsOk, Flat, AcceptedIn;
    RejectedWindow(windows, now, windowSeconds, max);
    LastCounted(windows, now, windowSeconds, max);
    CountFlat(windows, now - Gap(windowSeconds) + 1, now + 1);
  }

  /** Half a second is rounded up, and whole seconds add up. */
  lemma {:induction false} WholeSecondsLater(span: int, seconds: int)
    requires 0 <= span && 0 <= seconds
    ensures EpochSeconds(span + seconds * SECOND) == EpochSeconds(span) + seconds
  {
  }

  lemma {:induction false} LaterIsMore(span: int, longer: int)
    requires 0 <= span <= longer
    ensures EpochSeconds(span) <= EpochSeconds(longer)
  {
  }

  /** The advice of a rejection is good: it asks for at least one second and at most the window, repeating the request
  after exactly that long or longer succeeds, and repeating it any second earlier is rejected again. */
  lemma {:induction false} RetryAfterIsExact(row: Row, now: int, later: int, windowSeconds: int, max: int)
    requires row.windowStartedAt <= now <= later && 1 <= windowSeconds
    requires !Decide(Some(row), now, windowSeconds, max).allowed
    ensures var wait := Decide(Some(row), now, windowSeconds, max).retryAfter;
      && RowAfter(Some(row), now, windowSeconds, max) == row
      && 1 <= wait <= windowSeconds
      && (now + wait * SECOND <= later ==> Decide(Some(row), later, windowSeconds, max).allowed)
      && (later <= now + (wait - 1) * SECOND ==> !Decide(Some(row), later, windowSeconds, max).allowed)
  {
    var wait := Decide(Some(row), now, windowSeconds, max).retryAfter;
    var span := now - row.windowStartedAt;
    LaterIsMore(0, span);
    WholeSecondsLater(0, 0);
    WholeSecondsLater(span, wait);
    WholeSecondsLater(span, wait - 1);
    if now + wait * SECOND <= later {
      LaterIsMore(span + wait * SECOND, later - row.windowStartedAt);
    } else if later <= now + (wait - 1) * SECOND {
      LaterIsMore(later - row.windowStartedAt, span + (wait - 1) * SECOND);
    }
    hide EpochSeconds;
  }
}
