/** The arithmetic context of the decimal module: every result keeps 28 significant digits and is rounded half
even. The server divides in this context before it rounds to whole units, where the last digit shows. */
module DecimalContext {
  import opened Numbers

  /** The smallest integer of 28 digits. */
  const FIRST: int := 1_000_000_000_000_000_000_000_000_000

  /** The integer part of x has 28 digits. */
  predicate Aligned(x: Rational) {
    FIRST * x.den <= x.num < 10 * FIRST * x.den
  }

  /** How far x is from having 28 digits before the point. */
  function Distance(x: Rational): nat {
    if x.num < FIRST * x.den then FIRST * x.den - x.num else x.num - FIRST * x.den
  }

  /** x as the context keeps it: scaled to 28 digits before the point, rounded, and scaled back. */
  function Round28(x: Rational): Rational
    decreases x.num < 0, !Aligned(x), Distance(x)
  {
    if x.num < 0 then
      var y := Round28(Ratio(-x.num, x.den));
      Ratio(-y.num, y.den)
    else if x.num == 0 then x
    else if x.num < FIRST * x.den then
      var y := Round28(Ratio(10 * x.num, x.den));
      Ratio(y.num, 10 * y.den)
    else if 10 * FIRST * x.den <= x.num then
      var y := Round28(Ratio(x.num, 10 * x.den));
      Ratio(10 * y.num, y.den)
    else Ratio(RoundHalfEven(x.num, x.den), 1)
  }

  /** a * (h / t), both operations in the context. */
  function ShareOf(a: int, h: int, t: int): Rational
    requires 0 < t
  {
    var quotient := Round28(Ratio(h, t));
    Round28(Ratio(a * quotient.num, quotient.den))
  }

  // ---------------------------------------------------------------- accuracy

  /** y differs from x by at most one half of the last of 28 digits. */
  ghost predicate Near(x: Rational, y: Rational) {
    && 0 <= y.num
    && -(x.num * y.den) <= 2 * FIRST * (y.num * x.den - x.num * y.den) <= x.num * y.den
  }

  lemma {:induction false} Round28Near(x: Rational)
    requires 0 <= x.num
    ensures Near(x, Round28(x))
    decreases !Aligned(x), Distance(x)
  {
    hide Near;
    if x.num == 0 {
      NearZero(x);
    } else if x.num < FIRST * x.den {
      var y := Round28(Ratio(10 * x.num, x.den));
      Round28Near(Ratio(10 * x.num, x.den));
      NearDown(x, y);
    } else if 10 * FIRST * x.den <= x.num {
      var y := Round28(Ratio(x.num, 10 * x.den));
      Round28Near(Ratio(x.num, 10 * x.den));
      NearUp(x, y);
    } else {
      NearBase(x);
    }
  }

  lemma NearZero(x: Rational)
    requires x.num == 0
    ensures Near(x, x)
  {
  }

  lemma NearDown(x: Rational, y: Rational)
    requires Near(Ratio(10 * x.num, x.den), y)
    ensures Near(x, Ratio(y.num, 10 * y.den))
  {
    var p, q := y.num * x.den, x.num * y.den;
    assert 10 * x.num * y.den == 10 * q && x.num * (10 * y.den) == 10 * q;
  }

  lemma NearUp(x: Rational, y: Rational)
    requires Near(Ratio(x.num, 10 * x.den), y)
    ensures Near(x, Ratio(10 * y.num, y.den))
  {
    var p, q := y.num * x.den, x.num * y.den;
    assert y.num * (10 * x.den) == 10 * p && 10 * y.num * x.den == 10 * p;
  }

  lemma NearBase(x: Rational)
    requires FIRST * x.den <= x.num
    ensures Near(x, Ratio(RoundHalfEven(x.num, x.den), 1))
  {
    var q := RoundHalfEven(x.num, x.den);
    ProductReflects(0, q, x.den);
  }

  /** Both operations together: within three halves of the last digit. */
  ghost predicate NearShare(a: int, h: int, t: int, p: Rational) {
    && 0 <= p.num
    && -3 * (a * h * p.den) <= 2 * FIRST * (p.num * t - a * h * p.den) <= 3 * (a * h * p.den)
  }

  lemma {:induction false} ShareOfNear(a: int, h: int, t: int)
    requires 0 <= a && 0 <= h && 0 < t
    ensures NearShare(a, h, t, ShareOf(a, h, t))
  {
    var x := Ratio(h, t);
    var c := Round28(x);
    hide Near, NearShare, Round28;
    Round28Near(x);
    assert 0 <= c.num by { NearNonNegative(x, c); }
    ProductMonotone(0, a, c.num);
    var product := Ratio(a * c.num, c.den);
    Round28Near(product);
    TwoRoundings(a, h, t, c, Round28(product));
  }

  lemma NearNonNegative(x: Rational, y: Rational)
    requires Near(x, y)
    ensures 0 <= y.num
  {
  }

  lemma TwoRoundings(a: int, h: int, t: int, c: Rational, p: Rational)
    requires 0 <= a && 0 <= h && 0 < t
    requires Near(Ratio(h, t), c) && Near(Ratio(a * c.num, c.den), p)
    ensures NearShare(a, h, t, p)
  {
    // in units of 1/(t * c.den * p.den): the exact share, the product before rounding, and the result
    var exact, middle, result := a * p.den * (h * c.den), a * p.den * (c.num * t), t * (p.num * c.den);
    ProductMonotone(0, a, p.den);
    ProductMonotone(0, h, c.den);
    ProductMonotone(0, a * p.den, h * c.den);
    Scaled(a * p.den, c.num * t, h * c.den);
    Scaled(t, p.num * c.den, a * c.num * p.den);
    Regroup(a, h, t, c, p);
    Combined(exact, middle, result);
    Unscaled(p.num * t, a * h * p.den, c.den);
  }

  lemma Regroup(a: int, h: int, t: int, c: Rational, p: Rational)
    ensures t * (a * c.num * p.den) == a * p.den * (c.num * t)
    ensures a * p.den * (h * c.den) == a * h * p.den * c.den
    ensures t * (p.num * c.den) == p.num * t * c.den
  {
    assert t * (a * c.num * p.den) == t * a * c.num * p.den;
    assert a * p.den * (h * c.den) == a * p.den * h * c.den;
    assert t * (p.num * c.den) == t * p.num * c.den;
  }

  /** `got` differs from `want` by at most half a unit in the 28th digit. */
  ghost predicate Rounded(got: int, want: int) {
    -want <= 2 * FIRST * (got - want) <= want
  }

  lemma Scaled(k: int, got: int, want: int)
    requires 0 <= k && Rounded(got, want)
    ensures Rounded(k * got, k * want)
  {
    var d := 2 * FIRST * (got - want);
    ProductMonotone(-want, d, k);
    ProductMonotone(d, want, k);
    assert d * k == 2 * FIRST * (k * got - k * want);
  }

  lemma Combined(exact: int, middle: int, result: int)
    requires 0 <= exact && Rounded(middle, exact) && Rounded(result, middle)
    ensures -3 * exact <= 2 * FIRST * (result - exact) <= 3 * exact
  {
  }

  lemma Unscaled(got: int, want: int, k: int)
    requires 0 < k && -3 * (want * k) <= 2 * FIRST * (got * k - want * k) <= 3 * (want * k)
    ensures -3 * want <= 2 * FIRST * (got - want) <= 3 * want
  {
    var d := 2 * FIRST * (got - want);
    assert d * k == 2 * FIRST * (got * k - want * k);
    ProductReflects(d, 3 * want, k);
    ProductReflects(-3 * want, d, k);
  }

  // ---------------------------------------------------------------- rounding down

  /** a * (h / t) in the context, rounded down to whole units. This can be one unit less than the exact share has, as
  3 * (1 / 3) shows. */
  function FloorShare(a: int, h: int, t: int): int
    requires 0 < t
  {
    var share := ShareOf(a, h, t);
    RoundFloor(share.num, share.den)
  }

  /** floored is a multiple of t at most exact and above exact - t, up to the accuracy of the context. */
  ghost predicate FlooredTo(exact: int, floored: int, t: int) {
    && 2 * FIRST * floored <= (2 * FIRST + 3) * exact
    && (2 * FIRST - 3) * exact < 2 * FIRST * (floored + t)
  }

  /** share is the floor of the exact share a * h / t. */
  ghost predicate Floors(a: int, h: int, t: int, share: int) {
    FlooredTo(a * h, share * t, t)
  }

  /** Rounding a share down loses less than one unit, up to three halves of the last digit. */
  lemma {:induction false} FloorShareClose(a: int, h: int, t: int)
    requires 0 <= a && 0 <= h && 0 < t
    ensures Floors(a, h, t, FloorShare(a, h, t)) && 0 <= FloorShare(a, h, t)
  {
    var p := ShareOf(a, h, t);
    hide ShareOf, Floors;
    ShareOfNear(a, h, t);
    assert 0 <= p.num by {
      assert NearShare(a, h, t, p);
    }
    ProductReflects(0, RoundFloor(p.num, p.den), p.den);
    FloorOfNear(a, h, t, p, RoundFloor(p.num, p.den));
  }

  lemma FloorOfNear(a: int, h: int, t: int, p: Rational, share: int)
    requires 0 < t && NearShare(a, h, t, p) && share * p.den <= p.num < share * p.den + p.den
    ensures Floors(a, h, t, share)
  {
    ScaleFloor(share, p.den, p.num, t);
    FloorUpper(share * t, a * h, p.den, p.num * t);
    FloorLower(share * t + t, a * h, p.den, p.num * t);
  }

  lemma ScaleFloor(share: int, den: int, num: int, t: int)
    requires 0 < t && share * den <= num < share * den + den
    ensures share * t * den <= num * t < (share * t + t) * den
  {
    ProductMonotone(share * den, num, t);
    ProductMonotone(num + 1, share * den + den, t);
    assert share * den * t == share * t * den;
    assert (share * den + den) * t == (share * t + t) * den;
  }

  lemma {:induction false} FloorUpper(share: int, exact: int, den: int, got: int)
    requires 0 < den && share * den <= got && 2 * FIRST * (got - exact * den) <= 3 * (exact * den)
    ensures 2 * FIRST * share <= (2 * FIRST + 3) * exact
  {
    ProductReflects(2 * FIRST * share, (2 * FIRST + 3) * exact, den);
  }

  lemma {:induction false} FloorLower(above: int, exact: int, den: int, got: int)
    requires 0 < den && got < above * den && -3 * (exact * den) <= 2 * FIRST * (got - exact * den)
    ensures (2 * FIRST - 3) * exact < 2 * FIRST * above
  {
    ProductReflects((2 * FIRST - 3) * exact + 1, 2 * FIRST * above, den);
  }

  // ---------------------------------------------------------------- rounding half up

  /** a * (h / t) in the context, rounded half up to whole units. */
  function HalfUpShare(a: int, h: int, t: int): int
    requires 0 < t
  {
    var share := ShareOf(a, h, t);
    RoundHalfUp(share.num, share.den)
  }

  /** rounded is a multiple of t less than half of t below exact, and at most `up` halves above it, up to the accuracy
  of the context. */
  ghost predicate RoundedTo(exact: int, rounded: int, t: int, up: int) {
    && (2 * FIRST - 3) * exact - FIRST * t < 2 * FIRST * rounded
    && 2 * FIRST * rounded <= (2 * FIRST + 3) * exact + FIRST * up
  }

  lemma RoundedToFrom(exact: int, rounded: int, t: int, up: int)
    requires (2 * FIRST - 3) * exact - FIRST * t < 2 * FIRST * rounded
    requires 2 * FIRST * rounded <= (2 * FIRST + 3) * exact + FIRST * up
    ensures RoundedTo(exact, rounded, t, up)
  {
  }

  lemma ScaleHalf(share: int, den: int, num: int, t: int)
    requires 0 < t && 2 * num - den < 2 * (share * den) <= 2 * num + den
    ensures 2 * (num * t) - t * den < 2 * (share * t * den) <= 2 * (num * t) + t * den
  {
    ProductMonotone(2 * num - den + 1, 2 * (share * den), t);
    ProductMonotone(2 * (share * den), 2 * num + den, t);
    assert share * den * t == share * t * den;
  }

  lemma {:induction false} HalfUpLower(rounded: int, exact: int, den: int, got: int, t: int)
    requires 0 < den && 2 * got - t * den < 2 * (rounded * den)
    requires -3 * (exact * den) <= 2 * FIRST * (got - exact * den)
    ensures (2 * FIRST - 3) * exact - FIRST * t < 2 * FIRST * rounded
  {
    ProductReflects((2 * FIRST - 3) * exact - FIRST * t + 1, 2 * FIRST * rounded, den);
  }

  lemma {:induction false} HalfUpUpper(rounded: int, exact: int, den: int, got: int, t: int)
    requires 0 < den && 2 * (rounded * den) <= 2 * got + t * den
    requires 2 * FIRST * (got - exact * den) <= 3 * (exact * den)
    ensures 2 * FIRST * rounded <= (2 * FIRST + 3) * exact + FIRST * t
  {
    ProductReflects(2 * FIRST * rounded, (2 * FIRST + 3) * exact + FIRST * t, den);
  }

  /** Amounts for which 28 digits tell neighbouring units apart with room to spare: 666 million million million
  credits. */
  predicate Precise(amount: int) {
    3 * amount < 2 * FIRST
  }

  // ---------------------------------------------------------------- order

  /** What has fewer digits before the point does not gain one by rounding, except as a power of ten. */
  lemma {:induction false} Round28Below(x: Rational)
    requires 0 <= x.num < 10 * FIRST * x.den
    ensures Round28(x).num <= 10 * FIRST * Round28(x).den
    ensures x.num < FIRST * x.den ==> Round28(x).num <= FIRST * Round28(x).den
    decreases !Aligned(x), Distance(x)
  {
    hide RoundHalfEven;
    if 0 < x.num < FIRST * x.den {
      Round28Below(Ratio(10 * x.num, x.den));
    } else if x.num != 0 {
      AlignedBounds(x);
    }
  }

  lemma {:induction false} AlignedBounds(x: Rational)
    requires Aligned(x)
    ensures FIRST <= RoundHalfEven(x.num, x.den) <= 10 * FIRST
  {
    RoundExact(FIRST, x.den);
    RoundExact(10 * FIRST, x.den);
    HalfEvenMonotone(FIRST * x.den, x.num, x.den);
    HalfEvenMonotone(x.num, 10 * FIRST * x.den, x.den);
    hide RoundHalfEven;
  }

  lemma {:induction false} Round28Above(x: Rational)
    requires FIRST * x.den <= x.num
    ensures FIRST * Round28(x).den <= Round28(x).num
    ensures 10 * FIRST * x.den <= x.num ==> 10 * FIRST * Round28(x).den <= Round28(x).num
    decreases !Aligned(x), Distance(x)
  {
    hide RoundHalfEven;
    if 10 * FIRST * x.den <= x.num {
      Round28Above(Ratio(x.num, 10 * x.den));
    } else {
      AlignedBounds(x);
    }
  }

  lemma {:induction false} Between(x: Rational, k: int, y: Rational)
    requires x.num <= k * x.den && k * y.den <= y.num
    ensures AtMost(x, y)
  {
    ProductMonotone(x.num, k * x.den, y.den);
    ProductMonotone(k * y.den, y.num, x.den);
    assert k * x.den * y.den == k * y.den * x.den;
  }

  /** A bound on the smaller is a bound on the larger. */
  lemma {:induction false} SizeReflects(x: Rational, y: Rational, k: int)
    requires AtMost(x, y) && k * x.den <= x.num
    ensures k * y.den <= y.num
  {
    ProductMonotone(k * x.den, x.num, y.den);
    assert k * x.den * y.den == k * y.den * x.den;
    ProductReflects(k * y.den, y.num, x.den);
  }

  lemma ScaleBoth(x: Rational, y: Rational)
    ensures AtMost(x, y) <==> AtMost(Ratio(10 * x.num, x.den), Ratio(10 * y.num, y.den))
    ensures AtMost(x, y) <==> AtMost(Ratio(x.num, 10 * x.den), Ratio(y.num, 10 * y.den))
  {
    assert 10 * x.num * y.den == 10 * (x.num * y.den) && 10 * y.num * x.den == 10 * (y.num * x.den);
    assert x.num * (10 * y.den) == 10 * (x.num * y.den) && y.num * (10 * x.den) == 10 * (y.num * x.den);
  }

  lemma {:induction false} LargeMonotone(x: Rational, y: Rational)
    requires FIRST * x.den <= x.num && FIRST * y.den <= y.num && AtMost(x, y)
    ensures AtMost(Round28(x), Round28(y))
    decreases !Aligned(x), Distance(x)
  {
    if 10 * FIRST * x.den <= x.num {
      SizeReflects(x, y, 10 * FIRST);
      ScaleBoth(x, y);
      var down, down' := Ratio(x.num, 10 * x.den), Ratio(y.num, 10 * y.den);
      LargeMonotone(down, down');
      ScaleBoth(Round28(down), Round28(down'));
      hide AtMost;
    } else if 10 * FIRST * y.den <= y.num {
      Round28Below(x);
      Round28Above(y);
      Between(Round28(x), 10 * FIRST, Round28(y));
    } else {
      HalfEvenAcross(x, y);
    }
  }

  /** Rounding keeps order, across all magnitudes. */
  lemma {:induction false} Round28Monotone(x: Rational, y: Rational)
    requires 0 <= x.num && AtMost(x, y)
    ensures AtMost(Round28(x), Round28(y))
    decreases !Aligned(x), Distance(x)
  {
    assert 0 <= y.num by { SizeReflects(x, y, 0); }
    if x.num == 0 {
      Round28Near(y);
      hide Round28;
      Between(x, 0, Round28(y));
    } else if x.num < FIRST * x.den {
      if y.num < FIRST * y.den {
        ScaleBoth(x, y);
        var up, up' := Ratio(10 * x.num, x.den), Ratio(10 * y.num, y.den);
        Round28Monotone(up, up');
        ScaleBoth(Round28(up), Round28(up'));
        hide AtMost;
      } else {
        Round28Below(x);
        Round28Above(y);
        Between(Round28(x), FIRST, Round28(y));
      }
    } else {
      SizeReflects(x, y, FIRST);
      LargeMonotone(x, y);
    }
  }

  /** A larger part of the same whole never becomes a smaller share. */
  lemma {:induction false} ShareOfMonotone(a: int, h: int, h': int, t: int)
    requires 0 <= a && 0 <= h <= h' && 0 < t
    ensures AtMost(ShareOf(a, h, t), ShareOf(a, h', t))
  {
    var x, y := Ratio(h, t), Ratio(h', t);
    ProductMonotone(h, h', t);
    hide Round28, Near;
    Round28Monotone(x, y);
    Round28Near(x);
    var c, d := Round28(x), Round28(y);
    assert 0 <= c.num by { NearNonNegative(x, c); }
    ProductMonotone(0, a, c.num);
    TimesKeepsOrder(a, c, d);
    hide AtMost;
    Round28Monotone(Ratio(a * c.num, c.den), Ratio(a * d.num, d.den));
  }

  lemma {:induction false} FloorShareMonotone(a: int, h: int, h': int, t: int)
    requires 0 <= a && 0 <= h <= h' && 0 < t
    ensures FloorShare(a, h, t) <= FloorShare(a, h', t)
  {
    hide ShareOf;
    ShareOfMonotone(a, h, h', t);
    FloorAcross(ShareOf(a, h, t), ShareOf(a, h', t));
  }

  lemma {:induction false} HalfUpShareMonotone(a: int, h: int, h': int, t: int)
    requires 0 <= a && 0 <= h <= h' && 0 < t
    ensures HalfUpShare(a, h, t) <= HalfUpShare(a, h', t)
  {
    var x, y := ShareOf(a, h, t), ShareOf(a, h', t);
    hide ShareOf;
    ShareOfMonotone(a, h, h', t);
    ShareOfNear(a, h, t);
    assert 0 <= x.num by {
      assert NearShare(a, h, t, x);
    }
    SizeReflects(x, y, 0);
    HalfUpAcross(x, y);
  }

  /** No part, no share. */
  lemma NoShare(a: int, t: int)
    requires 0 < t
    ensures HalfUpShare(a, 0, t) == 0
  {
    assert Round28(Ratio(0, t)) == Ratio(0, t);
    assert a * 0 == 0;
    RoundExact(0, t);
  }

  lemma TimesKeepsOrder(a: int, c: Rational, d: Rational)
    requires 0 <= a && AtMost(c, d)
    ensures AtMost(Ratio(a * c.num, c.den), Ratio(a * d.num, d.den))
  {
    ProductMonotone(c.num * d.den, d.num * c.den, a);
    assert a * c.num * d.den == c.num * d.den * a && a * d.num * c.den == d.num * c.den * a;
  }

  // ---------------------------------------------------------------- computing one value

  /** x with k digits shifted in front of the point, rounded and shifted back. */
  lemma {:induction false} Round28At(num: int, den: int, k: nat)
    requires 0 < num && 0 < den && FIRST * den <= num * Power10(k) < 10 * FIRST * den
    ensures Round28(Ratio(num, den)) == Ratio(RoundHalfEven(num * Power10(k), den), Power10(k))
    decreases k
  {
    if k == 0 {
      assert num * Power10(0) == num;
    } else {
      ShiftOnce(num, den, k);
      Round28At(10 * num, den, k - 1);
      hide RoundHalfEven;
      assert !Aligned(Ratio(num, den));
    }
  }

  lemma ShiftOnce(num: int, den: int, k: nat)
    requires 0 < num && 0 < den && 0 < k && num * Power10(k) < 10 * FIRST * den
    ensures num * Power10(k) == 10 * num * Power10(k - 1) && Power10(k) == 10 * Power10(k - 1)
    ensures num < FIRST * den
  {
    var p := Power10(k - 1);
    assert num * (10 * p) == 10 * (num * p) && 10 * num * p == 10 * (num * p);
    ProductMonotone(1, p, num);
  }

  lemma Powers()
    ensures Power10(0) == 1 && Power10(22) == 10_000_000_000_000_000_000_000
    ensures Power10(26) == 100_000_000_000_000_000_000_000_000 && Power10(27) == FIRST
    ensures Power10(28) == 10 * FIRST && Power10(29) == 100 * FIRST
  {
    assert Power10(8) == 100_000_000;
    assert Power10(16) == 10_000_000_000_000_000;
    assert Power10(24) == 1_000_000_000_000_000_000_000_000;
  }

  /** Both operations, each with its number of digits shifted in front of the point. */
  lemma {:induction false} ShareInDigits(a: int, h: int, t: int, k: nat, first: int, l: nat, second: int)
    requires 0 < a && 0 < h && 0 < t && 0 < first
    requires FIRST * t <= h * Power10(k) < 10 * FIRST * t && first == RoundHalfEven(h * Power10(k), t)
    requires FIRST * Power10(k) <= a * first * Power10(l) < 10 * FIRST * Power10(k)
    requires second == RoundHalfEven(a * first * Power10(l), Power10(k))
    ensures ShareOf(a, h, t) == Ratio(second, Power10(l))
  {
    hide Round28, Power10, RoundHalfEven;
    Round28At(h, t, k);
    ProductMonotone(1, a, first);
    Round28At(a * first, Power10(k), l);
  }

  // ---------------------------------------------------------------- exact results

  /** x and y are the same value. */
  ghost predicate Same(x: Rational, y: Rational) {
    x.num * y.den == y.num * x.den
  }

  /** x is m / 10^k, and m has at most 28 digits. */
  ghost predicate Decimal28(x: Rational, m: int, k: nat) {
    0 <= m < 10 * FIRST && x.num * Power10(k) == m * x.den
  }

  lemma SameTenfold(x: Rational, y: Rational)
    requires Same(Ratio(10 * x.num, x.den), y)
    ensures Same(x, Ratio(y.num, 10 * y.den))
  {
    var p := x.num * y.den;
    assert 10 * x.num * y.den == 10 * p && x.num * (10 * y.den) == 10 * p;
  }

  lemma {:induction false} ScaledDecimal(x: Rational, m: int, k: nat)
    requires Decimal28(x, m, k)
    ensures if k == 0 then x.num == m * x.den else Decimal28(Ratio(10 * x.num, x.den), m, k - 1)
  {
    if k > 0 {
      var p := Power10(k - 1);
      assert x.num * (10 * p) == 10 * x.num * p;
    }
  }

  lemma {:induction false} NotTooLarge(x: Rational, m: int, k: nat)
    requires Decimal28(x, m, k)
    ensures 0 <= x.num < 10 * FIRST * x.den
    ensures FIRST * x.den <= x.num ==> k == 0
  {
    var d, p := x.den, Power10(k);
    ProductMonotone(0, m, d);
    ProductReflects(0, x.num, p);
    ProductMonotone(1, p, x.num);
    ProductMonotone(m + 1, 10 * FIRST, d);
    assert (m + 1) * d == m * d + d;
    if 0 < k {
      ProductMonotone(10, p, x.num);
    }
  }

  lemma WholeStays(m: int, d: int)
    requires 0 < d
    ensures RoundHalfEven(m * d, d) == m
  {
    RoundExact(m, d);
  }

  /** A decimal of at most 28 digits is kept as it is. */
  lemma {:induction false} Round28Exact(x: Rational, m: int, k: nat)
    requires Decimal28(x, m, k)
    ensures Same(x, Round28(x))
    decreases k, !Aligned(x), Distance(x)
  {
    hide RoundHalfEven, Decimal28, Same;
    NotTooLarge(x, m, k);
    ScaledDecimal(x, m, k);
    if x.num == 0 {
      assert Same(x, x) by { SameItself(x); }
    } else if x.num < FIRST * x.den {
      var up := Ratio(10 * x.num, x.den);
      if k == 0 {
        WholeTenfold(x, m);
        Round28Exact(up, 10 * m, 0);
      } else {
        Round28Exact(up, m, k - 1);
      }
      SameTenfold(x, Round28(up));
    } else {
      WholeStays(m, x.den);
      assert Same(x, Ratio(m, 1)) by { SameWhole(x, m); }
    }
  }

  lemma SameItself(x: Rational)
    ensures Same(x, x)
  {
  }

  lemma SameWhole(x: Rational, m: int)
    requires x.num == m * x.den
    ensures Same(x, Ratio(m, 1))
  {
  }

  lemma WholeTenfold(x: Rational, m: int)
    requires x.num == m * x.den && 0 <= m && x.num < FIRST * x.den
    ensures Decimal28(Ratio(10 * x.num, x.den), 10 * m, 0)
  {
    ProductReflects(m, FIRST - 1, x.den);
    assert 10 * (m * x.den) == 10 * m * x.den;
  }

  /** The same value over a third denominator. */
  lemma {:induction false} SameThrough(a: int, h: int, t: int, c: Rational, z: Rational)
    requires h * c.den == c.num * t && a * c.num * z.den == z.num * c.den
    ensures a * h * z.den == z.num * t
  {
    assert a * h * z.den * c.den == a * z.den * (h * c.den);
    assert a * z.den * (c.num * t) == a * c.num * z.den * t;
    assert z.num * c.den * t == z.num * t * c.den;
    Cancel(a * h * z.den, z.num * t, c.den);
  }

  lemma {:induction false} Cancel(p: int, q: int, k: int)
    requires 0 < k && p * k == q * k
    ensures p == q
  {
    ProductReflects(p, q, k);
    ProductReflects(q, p, k);
  }

  lemma ProductDecimal(a: int, m: int, k: nat, c: Rational)
    requires 0 <= a * m < 10 * FIRST && m * c.den == c.num * Power10(k)
    ensures Decimal28(Ratio(a * c.num, c.den), a * m, k)
  {
    var p := Power10(k);
    assert a * c.num * p == a * (c.num * p) && a * m * c.den == a * (m * c.den);
  }

  /** c is h / t and m / p, so both are equal. */
  lemma {:induction false} TwoForms(h: int, t: int, m: int, p: int, c: Rational)
    requires 0 < t && h * c.den == c.num * t && h * p == m * t
    ensures m * c.den == c.num * p
  {
    assert m * c.den * t == m * t * c.den && c.num * p * t == c.num * t * p;
    assert h * p * c.den == h * c.den * p;
    Cancel(m * c.den, c.num * p, t);
  }

  /** A part h / t of an amount that is a decimal m / 10^k is rounded down exactly, as long as the amount times m has at
  most 28 digits. */
  lemma {:induction false} FloorShareExact(a: int, h: int, t: int, m: int, k: nat)
    requires 0 < t && h * Power10(k) == m * t
    requires 0 <= m < 10 * FIRST && 0 <= a * m < 10 * FIRST
    ensures FloorShare(a, h, t) == RoundFloor(a * h, t)
  {
    var c := Round28(Ratio(h, t));
    var z := Round28(Ratio(a * c.num, c.den));
    assert h * c.den == c.num * t by {
      hide Power10, Round28;
      Round28Exact(Ratio(h, t), m, k);
    }
    assert a * c.num * z.den == z.num * c.den by {
      hide Power10, Round28;
      TwoForms(h, t, m, Power10(k), c);
      ProductDecimal(a, m, k, c);
      Round28Exact(Ratio(a * c.num, c.den), a * m, k);
    }
    SameThrough(a, h, t, c, z);
    hide Round28, Power10, RoundFloor;
    assert AtMost(Ratio(a * h, t), z) && AtMost(z, Ratio(a * h, t));
    FloorAcross(Ratio(a * h, t), z);
    FloorAcross(z, Ratio(a * h, t));
  }
}
