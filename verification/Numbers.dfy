/** Fixed-point arithmetic of the server.

Amounts of credits and work are integers that count units of 0.000001 (MICRO units to one
credit). Values that the code keeps as unrounded Decimals are exact fractions. The three
rounding modes are the ones the server names: ROUND_HALF_UP, ROUND_FLOOR and the default
of the decimal module, ROUND_HALF_EVEN. */
module Numbers {

  /** Number of smallest amounts (0.000001) in one unit. */
  const MICRO: int := 1_000_000

  /** Microseconds in one second. */
  const SECOND: int := 1_000_000

  datatype Ratio = Ratio(num: int, den: int)

  /** An exact value num/den. */
  type Rational = r: Ratio | 0 < r.den witness Ratio(0, 1)

  datatype Option<+T> = None | Some(value: T)

  function Min(a: int, b: int): (r: int)
    ensures r <= a && r <= b && (r == a || r == b)
  {
    if a <= b then a else b
  }

  function Max(a: int, b: int): (r: int)
    ensures a <= r && b <= r && (r == a || r == b)
  {
    if a >= b then a else b
  }

  /** ROUND_FLOOR of num/den. */
  function RoundFloor(num: int, den: int): (q: int)
    requires 0 < den
    ensures q * den <= num < q * den + den
  {
    num / den
  }

  /** ROUND_HALF_UP of num/den: nearest integer, ties away from zero. */
  function RoundHalfUp(num: int, den: int): (q: int)
    requires 0 < den
    ensures 0 <= num ==> 2 * num - den < 2 * (q * den) <= 2 * num + den && 0 <= q
    ensures num <= 0 ==> 2 * num - den <= 2 * (q * den) < 2 * num + den && q <= 0
  {
    if 0 <= num then
      var q := (2 * num + den) / (2 * den);
      HalfQuotient(num, den, q);
      q
    else
      var q := (-2 * num + den) / (2 * den);
      HalfQuotient(-num, den, q);
      NegateProduct(q, den);
      -q
  }

  /** ROUND_HALF_EVEN of num/den: nearest integer, ties to the even neighbour. */
  function RoundHalfEven(num: int, den: int): (q: int)
    requires 0 < den
    ensures 2 * num - den <= 2 * (q * den) <= 2 * num + den
    ensures (2 * (q * den) == 2 * num - den || 2 * (q * den) == 2 * num + den) ==> q % 2 == 0
  {
    var low := num / den;
    var rest := num % den;
    assert num == low * den + rest;
    assert (low + 1) * den == low * den + den;
    if 2 * rest < den || (2 * rest == den && low % 2 == 0) then low else low + 1
  }

  /** A value as a column NUMERIC(38, 6) keeps it. */
  function Stored(value: Rational): int {
    RoundHalfUp(value.num * MICRO, value.den)
  }

  lemma HalfQuotient(num: int, den: int, q: int)
    requires 0 <= num && 0 < den && q == (2 * num + den) / (2 * den)
    ensures 2 * num - den < 2 * (q * den) <= 2 * num + den && 0 <= q
  {
    var rest := (2 * num + den) % (2 * den);
    assert 2 * num + den == (2 * den) * q + rest;
    assert (2 * den) * q == 2 * (q * den);
    if q < 0 {
      ProductMonotone(q, -1, den);
    }
  }

  lemma NegateProduct(a: int, b: int)
    ensures -a * b == -(a * b)
  {
  }

  lemma ProductMonotone(a: int, b: int, c: int)
    requires a <= b && 0 <= c
    ensures a * c <= b * c
  {
    assert (b - a) * c >= 0;
  }

  /** Products with a positive factor reflect the order, up to a gap below the factor. */
  lemma {:induction false} ProductReflects(a: int, b: int, c: int)
    requires 0 < c && a * c < b * c + c
    ensures a <= b
  {
    if b + 1 <= a {
      ProductMonotone(b + 1, a, c);
    }
  }

  /** Half-up rounding keeps the order of the exact values. */
  lemma {:induction false} HalfUpMonotone(a: int, b: int, den: int)
    requires 0 < den && a <= b
    ensures RoundHalfUp(a, den) <= RoundHalfUp(b, den)
  {
    var p, q := RoundHalfUp(a, den), RoundHalfUp(b, den);
    if 0 <= a {
      ProductReflects(p, q, den);
    } else if b <= 0 {
      ProductReflects(p, q, den);
    }
  }

  /** Half-even rounding keeps the order of the exact values. */
  lemma {:induction false} HalfEvenMonotone(a: int, b: int, den: int)
    requires 0 < den && a <= b
    ensures RoundHalfEven(a, den) <= RoundHalfEven(b, den)
  {
    if a < b {
      ProductReflects(RoundHalfEven(a, den), RoundHalfEven(b, den), den);
    }
  }

  /** a <= b, as fractions. */
  ghost predicate AtMost(a: Rational, b: Rational) {
    a.num * b.den <= b.num * a.den
  }

  /** Rounding down keeps the order of fractions with different denominators. */
  lemma {:induction false} FloorAcross(a: Rational, b: Rational)
    requires AtMost(a, b)
    ensures RoundFloor(a.num, a.den) <= RoundFloor(b.num, b.den)
  {
    var p, q := RoundFloor(a.num, a.den), RoundFloor(b.num, b.den);
    hide RoundFloor;
    TimesLe(p, a.den, a.num, b.den);
    TimesLe(-q - 1, b.den, -b.num - 1, a.den);
    assert -(q + 1) * (b.den * a.den) == (-q - 1) * (b.den * a.den);
    FloorsMeet(p, q, a.num * b.den, b.num * a.den, a.den * b.den, a.den);
  }

  lemma TimesLe(p: int, den: int, num: int, k: int)
    requires 0 < k && p * den <= num
    ensures p * (den * k) <= num * k
  {
    ProductMonotone(p * den, num, k);
    assert p * den * k == p * (den * k);
  }

  lemma {:induction false} FloorsMeet(p: int, q: int, u: int, v: int, den: int, k: int)
    requires 0 < k && 0 < den && u <= v && p * den <= u && (-q - 1) * den <= -v - k
    ensures p <= q
  {
    assert (-q - 1) * den == -((q + 1) * den);
    assert (q + 1) * den == q * den + den;
    ProductReflects(p, q, den);
  }

  lemma ThreeFactors(a: int, b: int, c: int)
    ensures a * b * c == a * (b * c) == b * (a * c)
  {
  }

  /** Half-up rounding keeps the order of non-negative fractions with different denominators. */
  lemma {:induction false} HalfUpAcross(a: Rational, b: Rational)
    requires AtMost(a, b) && 0 <= a.num && 0 <= b.num
    ensures RoundHalfUp(a.num, a.den) <= RoundHalfUp(b.num, b.den)
  {
    var p, q := RoundHalfUp(a.num, a.den), RoundHalfUp(b.num, b.den);
    ScaleUpper(p, a.num, a.den, b.den);
    ScaleLower(q, b.num, b.den, a.den);
    hide RoundHalfUp;
    ProductReflects(p, q, a.den * b.den);
  }

  lemma ScaleUpper(p: int, num: int, den: int, k: int)
    requires 2 * (p * den) <= 2 * num + den && 0 < k
    ensures 2 * (p * (den * k)) <= 2 * (num * k) + den * k
  {
    ThreeFactors(p, den, k);
    ProductMonotone(2 * (p * den), 2 * num + den, k);
  }

  lemma ScaleLower(q: int, num: int, den: int, k: int)
    requires 2 * num - den < 2 * (q * den) && 0 < k
    ensures 2 * (num * k) - k * den < 2 * (q * (k * den))
  {
    ThreeFactors(q, den, k);
    ProductMonotone(2 * num - den + 1, 2 * (q * den), k);
  }

  /** Half-even rounding keeps the order of fractions with different denominators. */
  lemma {:induction false} HalfEvenAcross(a: Rational, b: Rational)
    requires AtMost(a, b)
    ensures RoundHalfEven(a.num, a.den) <= RoundHalfEven(b.num, b.den)
  {
    var p, q := RoundHalfEven(a.num, a.den), RoundHalfEven(b.num, b.den);
    hide RoundHalfEven;
    TieOrAbove(p, a.num, a.den, b.den);
    TieOrAbove(-q, -b.num, b.den, a.den);
    assert b.den * a.den == a.den * b.den && -b.num * a.den == -(b.num * a.den);
    hide AtMost;
    if q < p {
      // then a reaches at least q + 1/2 and b at most that: both are ties, and p and q are not both even
      OneHalf(p, q, a.num * b.den, b.num * a.den, a.den * b.den);
    }
  }

  /** If p is at most num/den + 1/2, that holds over the common denominator den * k, with equality for ties only. */
  lemma TieOrAbove(p: int, num: int, den: int, k: int)
    requires 0 < k && 2 * (p * den) <= 2 * num + den
    ensures (2 * p - 1) * (den * k) <= 2 * (num * k)
    ensures (2 * p - 1) * (den * k) == 2 * (num * k) ==> 2 * (p * den) == 2 * num + den
  {
    var d := 2 * num + den - 2 * (p * den);
    ProductMonotone(0, d, k);
    assert (2 * p - 1) * (den * k) == (2 * (p * den) - den) * k;
    assert d * k == 2 * (num * k) - (2 * (p * den) - den) * k;
    if 0 < d {
      ProductMonotone(1, d, k);
    }
  }

  lemma OneHalf(p: int, q: int, u: int, v: int, den: int)
    requires 0 < den && u <= v && q < p
    requires (2 * p - 1) * den <= 2 * u && (2 * -q - 1) * den <= 2 * -v
    ensures p == q + 1 && (2 * p - 1) * den == 2 * u && (2 * -q - 1) * den == 2 * -v
  {
    assert (2 * -q - 1) * den == -((2 * q + 1) * den);
    ProductMonotone(2 * q + 1, 2 * p - 1, den);
    ProductReflects(2 * p - 1, 2 * q + 1, den);
  }

  lemma PositiveProduct(a: int, b: int)
    requires 0 < a && 0 < b
    ensures 0 < a * b
  {
  }

  function Power2(k: nat): (p: int)
    ensures 0 < p
  {
    if k == 0 then 1 else 2 * Power2(k - 1)
  }

  function Power10(k: nat): (p: int)
    ensures 0 < p
  {
    if k == 0 then 1 else 10 * Power10(k - 1)
  }

  lemma {:induction false} ProductMod(k: int, den: int)
    requires 0 < den
    ensures (k * den) % den == 0
  {
    var rest := (k * den) % den;
    var q := (k * den) / den;
    assert k * den == q * den + rest;
    ProductReflects(k, q, den);
    ProductReflects(q, k, den);
  }

  lemma RegroupProduct(k: int, x: int, y: int)
    ensures k * (x * y) == k * x * y
  {
  }

  /** Rounding a whole number of units changes nothing, in any mode. */
  lemma {:induction false} RoundExact(k: int, den: int)
    requires 0 < den
    ensures RoundHalfUp(k * den, den) == k
    ensures RoundHalfEven(k * den, den) == k
    ensures RoundFloor(k * den, den) == k
  {
    var q := RoundHalfUp(k * den, den);
    if 0 <= k {
      ProductMonotone(0, k, den);
    } else {
      ProductMonotone(k, 0, den);
    }
    ProductReflects(q, k, den);
    ProductReflects(k, q, den);
    var e := RoundHalfEven(k * den, den);
    ProductReflects(e, k, den);
    ProductReflects(k, e, den);
    var f := RoundFloor(k * den, den);
    ProductReflects(f, k, den);
    ProductReflects(k, f, den);
  }
}
