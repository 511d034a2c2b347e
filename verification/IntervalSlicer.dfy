/** Reconstructing work from elapsed time and boundary events
(server/domain/mining/interval_slicer.py). Times are whole microseconds. */
module IntervalSlicer {
  import opened Numbers
  import opened Sorting

  // ---------------------------------------------------------------- multipliers

  /** A hashrate multiplier is a Decimal; it is kept as its canonical text, by which boundaries at the same
  instant are ordered. */
  type DecimalText = string

  function Digit(c: char): int {
    if '0' <= c <= '9' then c as int - '0' as int else 0
  }

  function DigitsValue(s: string): int {
    if s == [] then 0 else 10 * DigitsValue(s[..|s| - 1]) + Digit(s[|s| - 1])
  }

  function IndexOf(s: string, c: char): (i: nat)
    ensures i <= |s|
  {
    if s == [] || s[0] == c then 0 else 1 + IndexOf(s[1..], c)
  }

  function SignedValue(s: string): int {
    if s != [] && s[0] == '-' then -DigitsValue(s[1..])
    else if s != [] && s[0] == '+' then DigitsValue(s[1..])
    else DigitsValue(s)
  }

  /** The number a canonical decimal text stands for. */
  function Value(text: DecimalText): Rational {
    var e := IndexOf(text, 'E');
    var mantissa := text[..e];
    var exponent := if e < |text| then SignedValue(text[e + 1..]) else 0;
    var dot := IndexOf(mantissa, '.');
    var fraction := if dot < |mantissa| then mantissa[dot + 1..] else "";
    var digits := SignedValue(mantissa[..dot] + fraction);
    var shift := exponent - |fraction|;
    if 0 <= shift then Ratio(digits * Power10(shift), 1) else Ratio(digits, Power10(-shift))
  }

  /** A natural number in decimal. */
  function Digits(n: nat): string {
    if n < 10 then [('0' as int + n) as char] else Digits(n / 10) + [('0' as int + n % 10) as char]
  }

  ghost predicate AllDigits(s: string) {
    forall i :: 0 <= i < |s| ==> '0' <= s[i] <= '9'
  }

  /** Reading a number back. */
  lemma {:induction false} DigitsRoundTrip(n: nat)
    ensures DigitsValue(Digits(n)) == n && AllDigits(Digits(n)) && Digits(n) != []
  {
    var c := ('0' as int + n % 10) as char;
    if n < 10 {
      assert Digits(n)[..0] == [];
    } else {
      DigitsRoundTrip(n / 10);
      assert (Digits(n / 10) + [c])[..|Digits(n / 10)|] == Digits(n / 10);
    }
  }

  lemma {:induction false} IndexBehind(a: string, b: string, c: char)
    requires c !in a
    ensures IndexOf(a + b, c) == |a| + IndexOf(b, c)
  {
    if a == [] {
      assert a + b == b;
    } else {
      assert (a + b)[1..] == a[1..] + b;
      IndexBehind(a[1..], b, c);
    }
  }

  function Sign(negative: bool): string {
    if negative then "-" else ""
  }

  function Point(fraction: string): string {
    if fraction == [] then "" else "." + fraction
  }

  function Scale(exponent: Option<int>): string {
    match exponent
    case None => ""
    case Some(k) => if k < 0 then "E-" + Digits(-k) else "E+" + Digits(k)
  }

  /** A canonical text means what it shows: sign, digits, the place of the point, and the power of ten. */
  lemma {:induction false} ValueOfText(negative: bool, whole: string, fraction: string, exponent: Option<int>)
    requires whole != [] && AllDigits(whole) && AllDigits(fraction)
    ensures var n := DigitsValue(whole + fraction);
      var shift := (if exponent.Some? then exponent.value else 0) - |fraction|;
      Value(Sign(negative) + whole + Point(fraction) + Scale(exponent))
        == if 0 <= shift then Ratio((if negative then -n else n) * Power10(shift), 1)
           else Ratio(if negative then -n else n, Power10(-shift))
  {
    hide IndexOf, Digits, DigitsValue, SignedValue, AllDigits, Scale, Sign, Point;
    ScaleParts(negative, whole, fraction, exponent);
    PointParts(negative, whole, fraction);
    ScaleValue(exponent);
    SignedDigits(negative, whole, fraction);
  }

  lemma {:induction false} ScaleParts(negative: bool, whole: string, fraction: string, exponent: Option<int>)
    requires AllDigits(whole) && AllDigits(fraction)
    ensures var mantissa := Sign(negative) + whole + Point(fraction);
      var text := mantissa + Scale(exponent);
      && IndexOf(text, 'E') == |mantissa| && text[..|mantissa|] == mantissa
      && (|mantissa| < |text| <==> exponent.Some?)
      && (exponent.Some? ==> text[|mantissa| + 1..] == Scale(exponent)[1..])
  {
    var mantissa := Sign(negative) + whole + Point(fraction);
    assert 'E' !in mantissa;
    IndexBehind(mantissa, Scale(exponent), 'E');
    assert IndexOf(Scale(exponent), 'E') == 0;
    hide Sign, Point, Digits, AllDigits, IndexOf;
  }

  lemma {:induction false} PointParts(negative: bool, whole: string, fraction: string)
    requires AllDigits(whole) && AllDigits(fraction)
    ensures var front, mantissa := Sign(negative) + whole, Sign(negative) + whole + Point(fraction);
      && IndexOf(mantissa, '.') == |front| && mantissa[..|front|] == front
      && (|front| < |mantissa| <==> fraction != [])
      && (fraction != [] ==> mantissa[|front| + 1..] == fraction)
  {
    var front := Sign(negative) + whole;
    assert '.' !in front;
    IndexBehind(front, Point(fraction), '.');
    assert IndexOf(Point(fraction), '.') == 0;
    hide Sign, AllDigits, IndexOf;
  }

  lemma ScaleValue(exponent: Option<int>)
    ensures exponent.Some? ==> SignedValue(Scale(exponent)[1..]) == exponent.value
  {
    if exponent.Some? {
      var k := exponent.value;
      var digits := Digits(if k < 0 then -k else k);
      DigitsRoundTrip(if k < 0 then -k else k);
      assert Scale(exponent)[1..][1..] == digits;
    }
  }

  lemma SignedDigits(negative: bool, whole: string, fraction: string)
    requires whole != [] && AllDigits(whole)
    ensures var n := DigitsValue(whole + fraction);
      SignedValue(Sign(negative) + whole + fraction) == if negative then -n else n
  {
    if negative {
      assert ("-" + whole + fraction)[1..] == whole + fraction;
    } else {
      assert "" + whole + fraction == whole + fraction;
    }
  }

  /** The multiplier that operations start with. */
  lemma PlainMultiplier()
    ensures Value("1") == Ratio(1, 1)
  {
    assert "1"[..0] == "" && "1"[..1] == "1" && "1" + "" == "1";
    assert DigitsValue("1") == 1;
    assert IndexOf("1", 'E') == 1 && IndexOf("1", '.') == 1;
  }

  // ---------------------------------------------------------------- slices

  datatype Boundary = Boundary(at: int, multiplier: DecimalText, paused: bool)

  datatype Slice = Slice(startedAt: int, endedAt: int, elapsedSeconds: int, rate: int, contribution: int)

  /** Hashes per second in units of 0.000001: zero while paused, otherwise base times multiplier, rounded. */
  function Rate(base: Rational, b: Boundary): int {
    if b.paused then 0
    else
      var m := Value(b.multiplier);
      PositiveProduct(base.den, m.den);
      RoundHalfUp(base.num * m.num * MICRO, base.den * m.den)
  }

  /** Whole seconds between two instants: int(total_seconds()). */
  function Seconds(from: int, to: int): int {
    (to - from) / SECOND
  }

  function BuildSlice(base: Rational, b: Boundary, endedAt: int): Slice {
    var elapsed := Seconds(b.at, endedAt);
    Slice(b.at, endedAt, elapsed, Rate(base, b), RoundHalfUp(Rate(base, b) * elapsed, 1))
  }

  /** Boundaries inside the window, in the given order. */
  function InWindow(boundaries: seq<Boundary>, start: int, end: int): seq<Boundary> {
    if boundaries == [] then []
    else
      var last := boundaries[|boundaries| - 1];
      InWindow(boundaries[..|boundaries| - 1], start, end) + (if start <= last.at < end then [last] else [])
  }

  predicate AtLe(a: Boundary, b: Boundary) {
    a.at <= b.at
  }

  /** The pieces between consecutive boundaries; a piece without duration is not built. */
  function Segments(base: Rational, ordered: seq<Boundary>, current: Boundary, end: int): seq<Slice>
    decreases |ordered|
  {
    if ordered == [] then
      if current.at < end then [BuildSlice(base, current, end)] else []
    else
      (if current.at < ordered[0].at then [BuildSlice(base, current, ordered[0].at)] else [])
      + Segments(base, ordered[1..], ordered[0], end)
  }

  /** Slices shorter than a second are dropped. */
  function Kept(slices: seq<Slice>): seq<Slice> {
    if slices == [] then []
    else (if 0 < slices[0].elapsedSeconds then [slices[0]] else []) + Kept(slices[1..])
  }

  function Slices(start: Boundary, end: int, base: Rational, boundaries: seq<Boundary>): seq<Slice> {
    if end <= start.at then []
    else Kept(Segments(base, SortBy(AtLe, InWindow(boundaries, start.at, end)), start, end))
  }

  /** slice_progression_intervals; `start` holds the start of the window and the state in force there. */
  method SliceProgressionIntervals(start: Boundary, end: int, base: Rational, boundaries: seq<Boundary>)
    returns (slices: seq<Slice>)
    ensures slices == Slices(start, end, base, boundaries)
  {
    if end <= start.at {
      return [];
    }
    hide BuildSlice, SortBy, InWindow, Segments, Kept;
    var ordered := SortBy(AtLe, InWindow(boundaries, start.at, end));
    slices := [];
    var current := start;
    assert ordered[0..] == ordered;
    assert [] + Segments(base, ordered, start, end) == Segments(base, ordered, start, end);
    for i := 0 to |ordered|
      invariant slices + Segments(base, ordered[i..], current, end) == Segments(base, ordered, start, end)
    {
      SegmentStep(base, ordered, i, current, end, slices);
      if current.at < ordered[i].at {
        slices := slices + [BuildSlice(base, current, ordered[i].at)];
      }
      current := ordered[i];
    }
    assert ordered[|ordered|..] == [];
    SegmentsLast(base, current, end);
    if current.at < end {
      slices := slices + [BuildSlice(base, current, end)];
    } else {
      assert slices + [] == slices;
    }
    slices := Kept(slices);
  }

  lemma SegmentStep(base: Rational, ordered: seq<Boundary>, i: nat, current: Boundary, end: int, slices: seq<Slice>)
    requires i < |ordered|
    ensures var more := if current.at < ordered[i].at
      then slices + [BuildSlice(base, current, ordered[i].at)] else slices;
      slices + Segments(base, ordered[i..], current, end) == more + Segments(base, ordered[i + 1..], ordered[i], end)
  {
    hide BuildSlice;
    assert ordered[i..][1..] == ordered[i + 1..];
    var rest := Segments(base, ordered[i + 1..], ordered[i], end);
    if current.at < ordered[i].at {
      var slice := BuildSlice(base, current, ordered[i].at);
      assert slices + ([slice] + rest) == slices + [slice] + rest;
    } else {
      assert [] + rest == rest;
    }
  }

  lemma SegmentsLast(base: Rational, current: Boundary, end: int)
    ensures Segments(base, [], current, end) == if current.at < end then [BuildSlice(base, current, end)] else []
  {
  }

  /** sum(segment.contribution_hashes). */
  function Total(slices: seq<Slice>): int {
    if slices == [] then 0 else slices[0].contribution + Total(slices[1..])
  }

  // ---------------------------------------------------------------- the work of a window

  /** Boundaries in order, from the current one up to the end. */
  ghost predicate Ordered(ordered: seq<Boundary>, current: Boundary, end: int) {
    && SortedBy(AtLe, ordered)
    && current.at <= end
    && forall i :: 0 <= i < |ordered| ==> current.at <= ordered[i].at <= end
  }

  ghost function Next(ordered: seq<Boundary>, end: int): int {
    if ordered == [] then end else ordered[0].at
  }

  /** Each rate times the whole seconds it was in force. */
  ghost function Work(base: Rational, ordered: seq<Boundary>, current: Boundary, end: int): int
    decreases |ordered|
  {
    Piece(base, current, Next(ordered, end))
    + (if ordered == [] then 0 else Work(base, ordered[1..], ordered[0], end))
  }

  /** Hashes from a boundary to the next instant of change. */
  ghost function Piece(base: Rational, b: Boundary, to: int): int {
    Rate(base, b) * Seconds(b.at, to)
  }

  lemma OrderedTail(ordered: seq<Boundary>, current: Boundary, end: int)
    requires Ordered(ordered, current, end) && ordered != []
    ensures Ordered(ordered[1..], ordered[0], end)
  {
    forall i | 0 <= i < |ordered[1..]|
      ensures ordered[0].at <= ordered[1..][i].at
    {
      assert AtLe(ordered[0], ordered[i + 1]);
    }
  }

  /** The contributions of the kept slices are the work of the window. */
  lemma {:induction false} SegmentsWork(base: Rational, ordered: seq<Boundary>, current: Boundary, end: int)
    requires Ordered(ordered, current, end)
    ensures Total(Kept(Segments(base, ordered, current, end))) == Work(base, ordered, current, end)
    decreases |ordered|
  {
    SegmentsStep(base, ordered, current, end);
    hide Rate, Kept, Total, Segments, Piece;
    if ordered != [] {
      OrderedTail(ordered, current, end);
      SegmentsWork(base, ordered[1..], ordered[0], end);
    }
  }

  /** The first piece adds its work to that of the rest. */
  lemma {:induction false} SegmentsStep(base: Rational, ordered: seq<Boundary>, current: Boundary, end: int)
    requires Ordered(ordered, current, end)
    ensures Total(Kept(Segments(base, ordered, current, end)))
      == Piece(base, current, Next(ordered, end))
         + (if ordered == [] then 0 else Total(Kept(Segments(base, ordered[1..], ordered[0], end))))
  {
    var next := Next(ordered, end);
    assert current.at <= next;
    SegmentsUnfold(base, ordered, current, end);
    EmptyTotal(base, current);
    hide Rate, Kept, Total, Segments, Piece, BuildSlice, Ordered;
    if current.at < next {
      PieceAdds(base, current, next, if ordered == [] then [] else Segments(base, ordered[1..], ordered[0], end));
    }
  }

  lemma SegmentsUnfold(base: Rational, ordered: seq<Boundary>, current: Boundary, end: int)
    ensures var next := Next(ordered, end);
      var tail := if ordered == [] then [] else Segments(base, ordered[1..], ordered[0], end);
      Segments(base, ordered, current, end)
        == if current.at < next then [BuildSlice(base, current, next)] + tail else tail
  {
    hide BuildSlice;
    if ordered == [] {
      assert [BuildSlice(base, current, end)] + [] == [BuildSlice(base, current, end)];
    } else {
      var tail := Segments(base, ordered[1..], ordered[0], end);
      assert [] + tail == tail;
    }
  }

  lemma EmptyTotal(base: Rational, b: Boundary)
    ensures Total(Kept([])) == 0 && Piece(base, b, b.at) == 0
  {
    hide Rate;
  }

  /** A piece adds its work whether or not its slice is kept. */
  lemma PieceAdds(base: Rational, b: Boundary, endedAt: int, tail: seq<Slice>)
    requires b.at < endedAt
    ensures Total(Kept([BuildSlice(base, b, endedAt)] + tail)) == Piece(base, b, endedAt) + Total(Kept(tail))
  {
    var slice := BuildSlice(base, b, endedAt);
    SliceContribution(base, b, endedAt);
    hide BuildSlice, Rate, Seconds;
    assert ([slice] + tail)[1..] == tail;
    if 0 < slice.elapsedSeconds {
      assert ([slice] + Kept(tail))[1..] == Kept(tail);
    } else {
      assert [] + Kept(tail) == Kept(tail);
    }
  }

  lemma SliceContribution(base: Rational, b: Boundary, endedAt: int)
    requires b.at < endedAt
    ensures var slice := BuildSlice(base, b, endedAt);
      && slice.contribution == Rate(base, b) * Seconds(b.at, endedAt) && slice.elapsedSeconds == Seconds(b.at, endedAt)
      && 0 <= slice.elapsedSeconds
  {
    RoundExact(Rate(base, b) * Seconds(b.at, endedAt), 1);
  }

  lemma {:induction false} InWindowBounds(boundaries: seq<Boundary>, start: int, end: int)
    ensures forall b :: b in InWindow(boundaries, start, end) <==> b in boundaries && start <= b.at < end
  {
    if boundaries != [] {
      var front := boundaries[..|boundaries| - 1];
      InWindowBounds(front, start, end);
      assert boundaries == front + [boundaries[|boundaries| - 1]];
    }
  }

  lemma WindowOrdered(start: Boundary, end: int, boundaries: seq<Boundary>)
    requires start.at <= end
    ensures Ordered(SortBy(AtLe, InWindow(boundaries, start.at, end)), start, end)
  {
    var inside := InWindow(boundaries, start.at, end);
    InWindowBounds(boundaries, start.at, end);
    SortCorrect(AtLe, inside);
    var ordered := SortBy(AtLe, inside);
    forall i | 0 <= i < |ordered|
      ensures start.at <= ordered[i].at <= end
    {
      assert ordered[i] in multiset(ordered);
      assert ordered[i] in inside;
    }
  }

  // ---------------------------------------------------------------- slices tile the window

  ghost predicate ExactSeconds(slice: Slice) {
    slice.startedAt < slice.endedAt && slice.elapsedSeconds * SECOND == slice.endedAt - slice.startedAt
  }

  ghost predicate Tiles(slices: seq<Slice>, start: int, end: int) {
    && (slices == [] <==> start == end)
    && (slices != [] ==> slices[0].startedAt == start && slices[|slices| - 1].endedAt == end)
    && (forall i :: 0 <= i < |slices| ==> ExactSeconds(slices[i]))
    && (forall i :: 0 <= i < |slices| - 1 ==> slices[i].endedAt == slices[i + 1].startedAt)
  }

  /** Everything happens a whole number of seconds after the origin. */
  ghost predicate WholeSeconds(boundaries: seq<Boundary>, origin: int, end: int) {
    && (end - origin) % SECOND == 0
    && forall b :: b in boundaries ==> (b.at - origin) % SECOND == 0
  }

  lemma {:induction false} SegmentsTile(base: Rational, ordered: seq<Boundary>, current: Boundary, end: int)
    requires Ordered(ordered, current, end) && WholeSeconds(ordered, current.at, end)
    ensures Tiles(Segments(base, ordered, current, end), current.at, end)
    ensures Kept(Segments(base, ordered, current, end)) == Segments(base, ordered, current, end)
    decreases |ordered|
  {
    NextWhole(ordered, current, end);
    SegmentsUnfold(base, ordered, current, end);
    if ordered != [] {
      OrderedTail(ordered, current, end);
      WholeTail(ordered, current.at, end);
      hide Rate, BuildSlice, Ordered, WholeSeconds, Segments, Tiles, Kept;
      SegmentsTile(base, ordered[1..], ordered[0], end);
      OnePieceMore(base, current, ordered[0].at, Segments(base, ordered[1..], ordered[0], end), end);
    } else {
      hide Rate, BuildSlice, Ordered, WholeSeconds, Segments, Tiles, Kept;
      EmptyTiles(end);
      OnePieceMore(base, current, end, [], end);
    }
  }

  lemma NextWhole(ordered: seq<Boundary>, current: Boundary, end: int)
    requires Ordered(ordered, current, end) && WholeSeconds(ordered, current.at, end)
    ensures var next := Next(ordered, end);
      current.at <= next && (next - current.at) % SECOND == 0
  {
    hide AtLe;
    assert ordered != [] ==> ordered[0] in ordered;
  }

  lemma EmptyTiles(end: int)
    ensures Tiles([], end, end) && Kept([]) == []
  {
  }

  lemma OnePieceMore(base: Rational, current: Boundary, next: int, tail: seq<Slice>, end: int)
    requires current.at <= next && (next - current.at) % SECOND == 0 && Tiles(tail, next, end) && Kept(tail) == tail
    ensures var all := if current.at < next then [BuildSlice(base, current, next)] + tail else tail;
      Tiles(all, current.at, end) && Kept(all) == all
  {
    if current.at < next {
      WholeSlice(base, current, next);
      hide BuildSlice, Tiles, Kept;
      KeepOne(BuildSlice(base, current, next), tail);
      TileCons(BuildSlice(base, current, next), tail, end);
    }
  }

  lemma WholeTail(ordered: seq<Boundary>, origin: int, end: int)
    requires WholeSeconds(ordered, origin, end) && ordered != []
    ensures WholeSeconds(ordered[1..], ordered[0].at, end)
  {
    assert (ordered[0].at - origin) % SECOND == 0 by {
      assert ordered[0] in ordered;
    }
    forall b | b in ordered[1..]
      ensures (b.at - ordered[0].at) % SECOND == 0
    {
      assert b in ordered;
      assert (b.at - origin) % SECOND == 0;
    }
  }

  lemma WholeSlice(base: Rational, b: Boundary, endedAt: int)
    requires b.at < endedAt && (endedAt - b.at) % SECOND == 0
    ensures var slice := BuildSlice(base, b, endedAt);
      && ExactSeconds(slice) && 0 < slice.elapsedSeconds && slice.startedAt == b.at && slice.endedAt == endedAt
  {
  }

  lemma KeepOne(slice: Slice, tail: seq<Slice>)
    requires 0 < slice.elapsedSeconds
    ensures Kept([slice] + tail) == [slice] + Kept(tail)
  {
    assert ([slice] + tail)[1..] == tail;
  }

  lemma TileCons(slice: Slice, tail: seq<Slice>, end: int)
    requires ExactSeconds(slice)
    requires Tiles(tail, slice.endedAt, end)
    ensures Tiles([slice] + tail, slice.startedAt, end)
  {
    var all := [slice] + tail;
    if tail == [] {
      assert all == [slice];
    } else {
      assert all[|all| - 1] == tail[|tail| - 1];
    }
    if slice.startedAt == end {
      TileForward(tail, slice.endedAt, end, |tail|);
    }
    forall i | 0 <= i < |all| - 1
      ensures all[i].endedAt == all[i + 1].startedAt
    {
      if 0 < i {
        assert tail[i - 1].endedAt == tail[i].startedAt;
      }
    }
  }

  lemma {:induction false} TileForward(slices: seq<Slice>, start: int, end: int, k: nat)
    requires Tiles(slices, start, end) && k <= |slices|
    ensures start <= (if k < |slices| then slices[k].startedAt else end)
    decreases k
  {
    if 0 < k {
      TileForward(slices, start, end, k - 1);
      if k < |slices| {
        assert slices[k - 1].endedAt == slices[k].startedAt;
      }
    }
  }

  /** For timestamps a whole number of seconds apart, the slices tile the window in order, without gap or
  overlap, and no slice is dropped. */
  lemma SlicesTile(start: Boundary, end: int, base: Rational, boundaries: seq<Boundary>)
    requires start.at <= end && WholeSeconds(boundaries, start.at, end)
    ensures Tiles(Slices(start, end, base, boundaries), start.at, end)
  {
    WindowOrdered(start, end, boundaries);
    WindowWhole(start, end, boundaries);
    SegmentsTile(base, SortBy(AtLe, InWindow(boundaries, start.at, end)), start, end);
  }

  // ---------------------------------------------------------------- the per-second simulation

  /** The state in force at instant s: the latest boundary at or before s; of several at one instant, the
  one given last. Looks at the boundaries as they come, without sorting. */
  ghost function Governing(boundaries: seq<Boundary>, start: Boundary, s: int): Boundary {
    if boundaries == [] then start
    else
      var sofar := Governing(boundaries[..|boundaries| - 1], start, s);
      var b := boundaries[|boundaries| - 1];
      if start.at <= b.at <= s && sofar.at <= b.at then b else sofar
  }

  /** Simulating second by second from s. */
  ghost function PerSecond(base: Rational, boundaries: seq<Boundary>, start: Boundary, s: int, end: int): int
    decreases end - s
  {
    if end <= s then 0
    else Rate(base, Governing(boundaries, start, s)) + PerSecond(base, boundaries, start, s + SECOND, end)
  }

  /** The same lookup in a sorted list. */
  ghost function GoverningSorted(ordered: seq<Boundary>, current: Boundary, s: int): Boundary
    decreases |ordered|
  {
    if ordered == [] || s < ordered[0].at then current else GoverningSorted(ordered[1..], ordered[0], s)
  }

  lemma {:induction false} GoverningInsert(ordered: seq<Boundary>, x: Boundary, current: Boundary, s: int)
    requires SortedBy(AtLe, ordered) && current.at <= x.at && current.at <= s
    requires forall i :: 0 <= i < |ordered| ==> current.at <= ordered[i].at
    ensures var old' := GoverningSorted(ordered, current, s);
      && GoverningSorted(Insert(AtLe, x, ordered), current, s) == (if x.at <= s && old'.at <= x.at then x else old')
      && current.at <= old'.at
    decreases |ordered|
  {
    if ordered == [] {
      assert Insert(AtLe, x, ordered)[1..] == [];
    } else if AtLe(ordered[0], x) {
      assert Insert(AtLe, x, ordered)[1..] == Insert(AtLe, x, ordered[1..]);
      forall i | 0 <= i < |ordered[1..]|
        ensures ordered[0].at <= ordered[1..][i].at
      {
        assert AtLe(ordered[0], ordered[i + 1]);
      }
      if ordered[0].at <= s {
        GoverningInsert(ordered[1..], x, ordered[0], s);
      }
    } else {
      assert Insert(AtLe, x, ordered)[1..] == ordered;
      if ordered[0].at <= s {
        GoverningLater(ordered[1..], ordered[0], s);
      }
    }
  }

  lemma {:induction false} GoverningLater(ordered: seq<Boundary>, current: Boundary, s: int)
    requires SortedBy(AtLe, ordered)
    requires forall i :: 0 <= i < |ordered| ==> current.at <= ordered[i].at
    ensures current.at <= GoverningSorted(ordered, current, s).at
    decreases |ordered|
  {
    if ordered != [] && ordered[0].at <= s {
      forall i | 0 <= i < |ordered[1..]|
        ensures ordered[0].at <= ordered[1..][i].at
      {
        assert AtLe(ordered[0], ordered[i + 1]);
      }
      GoverningLater(ordered[1..], ordered[0], s);
    }
  }

  /** Sorting the boundaries of the window does not change which one governs an instant. */
  lemma {:induction false} GoverningAgrees(boundaries: seq<Boundary>, start: Boundary, s: int, end: int)
    requires start.at <= s < end
    ensures Governing(boundaries, start, s)
      == GoverningSorted(SortBy(AtLe, InWindow(boundaries, start.at, end)), start, s)
  {
    if boundaries != [] {
      var front := boundaries[..|boundaries| - 1];
      var b := boundaries[|boundaries| - 1];
      GoverningAgrees(front, start, s, end);
      var inside := InWindow(front, start.at, end);
      WindowOrdered(start, end, front);
      if start.at <= b.at < end {
        assert (inside + [b])[..|inside|] == inside;
        assert SortBy(AtLe, inside + [b]) == Insert(AtLe, b, SortBy(AtLe, inside));
        GoverningInsert(SortBy(AtLe, inside), b, start, s);
      } else {
        assert inside + [] == inside;
      }
    }
  }

  ghost function PerSecondSorted(base: Rational, ordered: seq<Boundary>, current: Boundary, s: int, end: int): int
    decreases end - s
  {
    if end <= s then 0
    else Rate(base, GoverningSorted(ordered, current, s)) + PerSecondSorted(base, ordered, current, s + SECOND, end)
  }

  lemma {:induction false} PerSecondAgrees(base: Rational, boundaries: seq<Boundary>, start: Boundary, s: int, end: int)
    requires start.at <= s
    ensures PerSecond(base, boundaries, start, s, end)
      == PerSecondSorted(base, SortBy(AtLe, InWindow(boundaries, start.at, end)), start, s, end)
    decreases end - s
  {
    if s < end {
      hide Rate;
      GoverningAgrees(boundaries, start, s, end);
      PerSecondAgrees(base, boundaries, start, s + SECOND, end);
    }
  }

  /** Once the first boundary is reached, it takes over. */
  lemma {:induction false} PerSecondPast(base: Rational, ordered: seq<Boundary>, current: Boundary, s: int, end: int)
    requires ordered != [] && ordered[0].at <= s
    ensures PerSecondSorted(base, ordered, current, s, end) == PerSecondSorted(base, ordered[1..], ordered[0], s, end)
    decreases end - s
  {
    if s < end {
      hide Rate;
      PerSecondPast(base, ordered, current, s + SECOND, end);
    }
  }

  /** Until the next boundary, every second adds the current rate. */
  lemma {:induction false} PerSecondWork(base: Rational, ordered: seq<Boundary>, current: Boundary, s: int, end: int)
    requires Ordered(ordered, current, end) && current.at <= s <= Next(ordered, end)
    requires WholeSeconds(ordered, s, end)
    ensures PerSecondSorted(base, ordered, current, s, end)
      == Rate(base, current) * Seconds(s, Next(ordered, end))
         + (if ordered == [] then 0 else Work(base, ordered[1..], ordered[0], end))
    decreases |ordered|, end - s
  {
    hide Rate;
    if s < Next(ordered, end) {
      assert ordered != [] ==> ordered[0] in ordered;
      NextSecond(ordered, s, end);
      PerSecondWork(base, ordered, current, s + SECOND, end);
      OneMoreSecond(Rate(base, current), s, Next(ordered, end));
    } else if ordered != [] {
      OrderedTail(ordered, current, end);
      PerSecondPast(base, ordered, current, s, end);
      forall b | b in ordered[1..]
        ensures (b.at - s) % SECOND == 0
      {
        assert b in ordered;
      }
      PerSecondWork(base, ordered[1..], ordered[0], s, end);
    }
  }

  lemma NextSecond(ordered: seq<Boundary>, s: int, end: int)
    requires WholeSeconds(ordered, s, end)
    ensures WholeSeconds(ordered, s + SECOND, end)
  {
    forall b | b in ordered
      ensures (b.at - (s + SECOND)) % SECOND == 0
    {
      assert (b.at - s) % SECOND == 0;
    }
  }

  lemma {:induction false} OneMoreSecond(rate: int, s: int, next: int)
    requires s < next
    ensures rate * Seconds(s, next) == rate + rate * Seconds(s + SECOND, next)
  {
    assert Seconds(s, next) == Seconds(s + SECOND, next) + 1;
    assert rate * (Seconds(s + SECOND, next) + 1) == rate * Seconds(s + SECOND, next) + rate;
  }

  /** Time-based reconstruction equals a per-second simulation: for timestamps whole seconds apart, the
  slices' contributions sum to the rate of the governing boundary, second by second. */
  lemma {:induction false} SlicesRefineSimulation(start: Boundary, end: int, base: Rational, boundaries: seq<Boundary>)
    requires start.at <= end && WholeSeconds(boundaries, start.at, end)
    ensures Total(Slices(start, end, base, boundaries)) == PerSecond(base, boundaries, start, start.at, end)
  {
    hide Rate;
    var ordered := SortBy(AtLe, InWindow(boundaries, start.at, end));
    WindowOrdered(start, end, boundaries);
    WindowWhole(start, end, boundaries);
    PerSecondAgrees(base, boundaries, start, start.at, end);
    hide SortBy, InWindow;
    PerSecondWork(base, ordered, start, start.at, end);
    hide PerSecond, PerSecondSorted;
    if start.at < end {
      SegmentsWork(base, ordered, start, end);
    }
  }

  lemma WindowWhole(start: Boundary, end: int, boundaries: seq<Boundary>)
    requires WholeSeconds(boundaries, start.at, end)
    ensures WholeSeconds(SortBy(AtLe, InWindow(boundaries, start.at, end)), start.at, end)
  {
    var inside := InWindow(boundaries, start.at, end);
    InWindowBounds(boundaries, start.at, end);
    SortCorrect(AtLe, inside);
    forall b | b in SortBy(AtLe, inside)
      ensures (b.at - start.at) % SECOND == 0
    {
      assert b in multiset(SortBy(AtLe, inside));
      assert b in inside;
    }
  }

  // ---------------------------------------------------------------- the simulation, spelled out

  /** What one whole second under a boundary adds: nothing while paused, and otherwise the unit nearest to base times
  multiplier, ties away from zero. */
  ghost predicate Adds(base: Rational, b: Boundary, amount: int) {
    if b.paused then amount == 0
    else
      var m := Value(b.multiplier);
      var num, den := base.num * m.num * MICRO, base.den * m.den;
      && (0 <= num ==> 2 * num - den < 2 * (amount * den) <= 2 * num + den)
      && (num <= 0 ==> 2 * num - den <= 2 * (amount * den) < 2 * num + den)
  }

  /** The code's rate is that amount, and no other is. */
  lemma {:induction false} RateAdds(base: Rational, b: Boundary)
    ensures Adds(base, b, Rate(base, b))
    ensures forall amount :: Adds(base, b, amount) ==> amount == Rate(base, b)
  {
    if !b.paused {
      var m := Value(b.multiplier);
      hide Value;
      PositiveProduct(base.den, m.den);
      var num, den := base.num * m.num * MICRO, base.den * m.den;
      forall amount | Adds(base, b, amount)
        ensures amount == Rate(base, b)
      {
        OnlyNearest(num, den, amount, RoundHalfUp(num, den));
      }
    }
  }

  lemma {:induction false} OnlyNearest(num: int, den: int, a: int, b: int)
    requires 0 < den
    requires 0 <= num ==>
      2 * num - den < 2 * (a * den) <= 2 * num + den && 2 * num - den < 2 * (b * den) <= 2 * num + den
    requires num <= 0 ==>
      2 * num - den <= 2 * (a * den) < 2 * num + den && 2 * num - den <= 2 * (b * den) < 2 * num + den
    ensures a == b
  {
    ProductReflects(a, b, den);
    ProductReflects(b, a, den);
  }

  ghost function SumAll(amounts: seq<int>): int {
    if amounts == [] then 0 else amounts[0] + SumAll(amounts[1..])
  }

  /** From the instant s on, every second adds its amount. */
  ghost predicate AddsEach(base: Rational, boundaries: seq<Boundary>, start: Boundary, s: int, amounts: seq<int>) {
    forall k :: 0 <= k < |amounts| ==> Adds(base, Governing(boundaries, start, s + k * SECOND), amounts[k])
  }

  lemma AmountAt(base: Rational, boundaries: seq<Boundary>, start: Boundary, s: int, amounts: seq<int>, k: nat)
    requires AddsEach(base, boundaries, start, s, amounts) && k < |amounts|
    ensures amounts[k] == Rate(base, Governing(boundaries, start, s + k * SECOND))
  {
    RateAdds(base, Governing(boundaries, start, s + k * SECOND));
    hide Adds, Rate, Governing;
  }

  /** The seconds from the k-th on. */
  lemma {:induction false} PerSecondAmounts(base: Rational, boundaries: seq<Boundary>, start: Boundary, s: int,
                                            end: int, amounts: seq<int>, k: nat)
    requires end - s == |amounts| * SECOND && AddsEach(base, boundaries, start, s, amounts) && k <= |amounts|
    ensures PerSecond(base, boundaries, start, s + k * SECOND, end) == SumAll(amounts[k..])
    decreases |amounts| - k
  {
    hide Adds, Rate, Governing, AddsEach;
    if k < |amounts| {
      AmountAt(base, boundaries, start, s, amounts, k);
      PerSecondAmounts(base, boundaries, start, s, end, amounts, k + 1);
      assert amounts[k..][1..] == amounts[k + 1..];
    }
  }

  /** For timestamps whole seconds apart the slices contribute the sum of what the seconds of the window add, each
  under the boundary that governs it: nothing for a paused second, the nearest unit to base times multiplier for any
  other. */
  lemma {:induction false} SlicesAreSecondBySecond(start: Boundary, end: int, base: Rational, boundaries: seq<Boundary>,
                                                   amounts: seq<int>)
    requires end - start.at == |amounts| * SECOND && WholeSeconds(boundaries, start.at, end)
    requires forall k :: 0 <= k < |amounts| ==>
      Adds(base, Governing(boundaries, start, start.at + k * SECOND), amounts[k])
    ensures Total(Slices(start, end, base, boundaries)) == SumAll(amounts)
  {
    hide Adds, Slices, PerSecond, Governing;
    SlicesRefineSimulation(start, end, base, boundaries);
    PerSecondAmounts(base, boundaries, start, start.at, end, amounts, 0);
    assert amounts[0..] == amounts;
  }

  ghost predicate InForce(b: Boundary, start: Boundary, s: int) {
    start.at <= b.at <= s
  }

  /** The boundary that governs an instant is the latest in force, and of several at the same time the one given last;
  without any it is the state at the start. */
  lemma {:induction false} GoverningIsLatest(boundaries: seq<Boundary>, start: Boundary, s: int) returns (at: int)
    requires start.at <= s
    ensures -1 <= at < |boundaries|
    ensures var g := Governing(boundaries, start, s);
      if at == -1 then g == start && forall j :: 0 <= j < |boundaries| ==> !InForce(boundaries[j], start, s)
      else
        && g == boundaries[at] && InForce(g, start, s)
        && forall j :: 0 <= j < |boundaries| && InForce(boundaries[j], start, s) ==>
          boundaries[j].at < g.at || (boundaries[j].at == g.at && j <= at)
  {
    at := -1;
    if boundaries != [] {
      var n := |boundaries| - 1;
      at := GoverningIsLatest(boundaries[..n], start, s);
      var sofar, b := Governing(boundaries[..n], start, s), boundaries[n];
      if InForce(b, start, s) && sofar.at <= b.at {
        at := n;
      }
    }
  }
}
