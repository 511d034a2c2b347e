/** Splitting a pool's reward into the owner's fee and the members' shares
(server/domain/pools/service.py, calculate_reward_shares). */
module PoolShares {
  import opened Numbers
  import opened Sorting
  import opened Totals
  import opened DecimalContext

  datatype Error = PoolRewardNegative | FeeOutOfRange | HashrateNegative

  datatype RewardShare = RewardShare(memberId: string, memberHashrate: int, grossShare: int, finalShare: int,
                                     bonus: int)

  datatype Result = Shares(ownerFee: int, shares: seq<RewardShare>) | Failed(error: Error)

  const MAX_FEE_PERCENTAGE := 10

  /** The pool reward in whole units. */
  function Quantized(poolReward: Rational): int {
    RoundHalfEven(poolReward.num * MICRO, poolReward.den)
  }

  function OwnerFee(poolReward: Rational, fee: Rational): int {
    FloorShare(Quantized(poolReward), fee.num, 100 * fee.den)
  }

  /** A member's share before the bonus: the proportional part, rounded down. */
  function Gross(afterFee: int, total: int, h: int): int
    requires 0 < total
  {
    FloorShare(afterFee, h, total)
  }

  function GrossShares(afterFee: int, total: int, hashrates: map<string, int>): map<string, int>
    requires 0 < total
  {
    map p | p in hashrates :: Gross(afterFee, total, hashrates[p])
  }

  ghost function FinalTotal(shares: seq<RewardShare>): int {
    if shares == [] then 0 else FinalTotal(shares[..|shares| - 1]) + shares[|shares| - 1].finalShare
  }

  ghost predicate NonNegative(m: map<string, int>) {
    forall p :: p in m ==> 0 <= m[p]
  }

  /** The fee never exceeds the reward and is never negative. */
  lemma {:induction false} FeeBounds(poolReward: Rational, fee: Rational)
    requires 0 <= poolReward.num && 0 <= fee.num <= MAX_FEE_PERCENTAGE * fee.den
    ensures 0 <= OwnerFee(poolReward, fee) <= Quantized(poolReward)
  {
    var q, t := Quantized(poolReward), 100 * fee.den;
    assert 0 <= q by {
      ProductReflects(0, q, poolReward.den);
    }
    hide Quantized, FloorShare, FlooredTo;
    FloorShareClose(q, fee.num, t);
    TenthOfAll(q, fee.num, t, OwnerFee(poolReward, fee));
  }

  /** The reward in whole units is the nearest, ties even. */
  lemma QuantizedNearest(poolReward: Rational)
    ensures var exact, got := poolReward.num * 1_000_000, Quantized(poolReward);
      && 2 * exact - poolReward.den <= 2 * (got * poolReward.den) <= 2 * exact + poolReward.den
      && (2 * (got * poolReward.den) in {2 * exact - poolReward.den, 2 * exact + poolReward.den} ==> got % 2 == 0)
  {
  }

  /** For any fee, what the owner gets is the percentage of the reward rounded down, up to three halves of the last
  digit. */
  lemma {:induction false} FeeFollowsPercentage(poolReward: Rational, fee: Rational)
    requires 0 <= poolReward.num && 0 <= fee.num
    ensures var exact, paid := Quantized(poolReward) * fee.num, OwnerFee(poolReward, fee) * (100 * fee.den);
      2 * FIRST * paid <= (2 * FIRST + 3) * exact && (2 * FIRST - 3) * exact < 2 * FIRST * (paid + 100 * fee.den)
  {
    var q, t := Quantized(poolReward), 100 * fee.den;
    assert 0 <= q by {
      ProductReflects(0, q, poolReward.den);
    }
    hide Quantized, FloorShare;
    FloorShareClose(q, fee.num, t);
  }

  /** A fee in hundredths of a percent, as the database keeps it: the owner gets exactly that part of the reward,
  rounded down to a whole unit. */
  lemma {:induction false} FeeIsExactFloor(poolReward: Rational, hundredths: int)
    requires 0 <= poolReward.num && 0 <= hundredths <= 1_000 && 100 * Quantized(poolReward) < FIRST
    ensures var fee := OwnerFee(poolReward, Ratio(hundredths, 100));
      10_000 * fee <= Quantized(poolReward) * hundredths < 10_000 * fee + 10_000
  {
    var q := Quantized(poolReward);
    assert 0 <= q by {
      ProductReflects(0, q, poolReward.den);
    }
    hide Quantized, FloorShare;
    ProductMonotone(0, q, hundredths);
    ProductMonotone(hundredths, 1_000, q);
    assert Power10(4) == 10_000;
    FloorShareExact(q, hundredths, 10_000, hundredths, 4);
  }

  /** A part of at most a tenth, rounded down, is no more than the whole. */
  lemma TenthOfAll(q: int, part: int, t: int, share: int)
    requires 0 <= q && 0 <= 10 * part <= t && 0 < t && FlooredTo(q * part, share * t, t)
    ensures share <= q
  {
    ProductMonotone(10 * part, t, q);
    assert 10 * part * q == 10 * (q * part);
    ProductReflects(share, q, t);
  }

  lemma GrossClose(afterFee: int, total: int, h: int)
    requires 0 < total && 0 <= afterFee && 0 <= h
    ensures Floors(afterFee, h, total, Gross(afterFee, total, h))
  {
    hide FloorShare;
    FloorShareClose(afterFee, h, total);
  }

  /** Floored shares of n members against the exact shares. */
  ghost predicate WithinFloor(afterFee: int, total: int, amounts: int, shares: int, n: int) {
    && 2 * FIRST * (shares * total) <= (2 * FIRST + 3) * (afterFee * amounts)
    && (2 * FIRST - 3) * (afterFee * amounts) <= 2 * FIRST * (shares * total + n * total)
    && (n != 0 ==> (2 * FIRST - 3) * (afterFee * amounts) < 2 * FIRST * (shares * total + n * total))
  }

  /** The arithmetic of one more member. */
  lemma FloorDriftStep(afterFee: int, total: int, h: int, share: int, amounts: int, shares: int, n: int)
    requires Floors(afterFee, h, total, share)
    requires WithinFloor(afterFee, total, amounts, shares, n)
    ensures WithinFloor(afterFee, total, h + amounts, share + shares, n + 1)
  {
    assert (share + shares) * total == share * total + shares * total;
    assert afterFee * (h + amounts) == afterFee * h + afterFee * amounts;
    assert (n + 1) * total == n * total + total;
  }

  /** Flooring loses less than one unit for each member, beside what the context loses. */
  lemma {:induction false} FloorDrift(afterFee: int, total: int, m: map<string, int>)
    requires 0 < total && 0 <= afterFee && NonNegative(m)
    ensures WithinFloor(afterFee, total, Sum(m), Sum(GrossShares(afterFee, total, m)), |m|)
    decreases |m|
  {
    hide Sum, Gross, GrossShares, WithinFloor, Floors;
    if m == map[] {
      FloorDriftNone(afterFee, total);
    } else {
      var p :| p in m;
      var rest := m - {p};
      assert |rest| < |m| by {
        assert rest.Keys == m.Keys - {p};
      }
      FloorDrift(afterFee, total, rest);
      GrossClose(afterFee, total, m[p]);
      SplitGross(afterFee, total, m, p);
      FloorDriftStep(afterFee, total, m[p], Gross(afterFee, total, m[p]), Sum(rest),
                     Sum(GrossShares(afterFee, total, rest)), |rest|);
    }
  }

  lemma FloorDriftNone(afterFee: int, total: int)
    requires 0 < total
    ensures WithinFloor(afterFee, total, Sum<string>(map[]), Sum(GrossShares(afterFee, total, map[])), 0)
  {
    assert GrossShares(afterFee, total, map[]) == map[];
  }

  lemma SplitGross(afterFee: int, total: int, m: map<string, int>, p: string)
    requires 0 < total && p in m
    ensures Sum(m) == m[p] + Sum(m - {p})
    ensures Sum(GrossShares(afterFee, total, m))
      == Gross(afterFee, total, m[p]) + Sum(GrossShares(afterFee, total, m - {p}))
    ensures |m| == |m - {p}| + 1
  {
    hide Sum, Gross;
    SumRemove(m, p);
    SumRemove(GrossShares(afterFee, total, m), p);
    assert GrossShares(afterFee, total, m) - {p} == GrossShares(afterFee, total, m - {p});
    assert (m - {p}).Keys == m.Keys - {p};
    assert |m.Keys - {p}| == |m| - 1;
  }

  /** What flooring leaves over is non-negative and at most the number of members, so one bonus unit for each
  member suffices. */
  lemma {:induction false} RemainderBounds(afterFee: int, m: map<string, int>)
    requires 0 < Sum(m) && 0 <= afterFee && NonNegative(m) && Precise(afterFee)
    ensures 0 <= afterFee - Sum(GrossShares(afterFee, Sum(m), m)) <= |m|
  {
    assert m != map[];
    hide Sum, GrossShares, WithinFloor;
    FloorDrift(afterFee, Sum(m), m);
    RemainderArithmetic(afterFee, Sum(m), Sum(GrossShares(afterFee, Sum(m), m)), |m|);
  }

  lemma {:induction false} RemainderArithmetic(afterFee: int, total: int, shares: int, n: int)
    requires 0 < total && WithinFloor(afterFee, total, total, shares, n) && n != 0 && Precise(afterFee)
    ensures 0 <= afterFee - shares <= n
  {
    RegroupProduct(2 * FIRST, shares, total);
    RegroupProduct(2 * FIRST + 3, afterFee, total);
    RegroupProduct(2 * FIRST, shares + n, total);
    RegroupProduct(2 * FIRST - 3, afterFee, total);
    assert (shares + n) * total == shares * total + n * total;
    hide Precise;
    ProductReflects(2 * FIRST * shares, (2 * FIRST + 3) * afterFee, total);
    ProductReflects((2 * FIRST - 3) * afterFee + 1, 2 * FIRST * (shares + n), total);
    LeftOver(afterFee, shares, n);
  }

  lemma LeftOver(afterFee: int, shares: int, n: int)
    requires 2 * FIRST * shares <= (2 * FIRST + 3) * afterFee && Precise(afterFee)
    requires (2 * FIRST - 3) * afterFee < 2 * FIRST * (shares + n)
    ensures 0 <= afterFee - shares <= n
  {
  }

  /** With amounts that 28 digits tell apart, a share is floored to one unit below the exact share at most, and to that
  only if the exact share is a whole number. */
  lemma {:induction false} GrossAboveFloor(afterFee: int, total: int, h: int)
    requires 0 < total && 0 <= afterFee && 0 <= h && Precise(afterFee * h)
    ensures var exact, got := afterFee * h, Gross(afterFee, total, h) * total;
      exact - total <= got && (exact % total != 0 ==> exact - total < got)
  {
    var gross, exact := Gross(afterFee, total, h), afterFee * h;
    hide Gross;
    GrossClose(afterFee, total, h);
    AboveFloor(exact, gross * total, total);
    if exact - total == gross * total {
      WholeShare(gross, exact, total);
    }
  }

  lemma AboveFloor(exact: int, floored: int, total: int)
    requires FlooredTo(exact, floored, total) && Precise(exact)
    ensures exact - total <= floored
  {
  }

  lemma {:induction false} WholeShare(gross: int, exact: int, total: int)
    requires 0 < total && exact - total == gross * total
    ensures exact % total == 0
  {
    assert exact == (gross + 1) * total;
    ProductMod(gross + 1, total);
  }

  ghost predicate SomeFraction(afterFee: int, total: int, m: map<string, int>)
    requires 0 < total
  {
    exists p :: p in m && (afterFee * m[p]) % total != 0
  }

  /** The floors of all members together, against the exact shares. */
  lemma {:induction false} GrossTotalAbove(afterFee: int, total: int, m: map<string, int>)
    requires 0 < total && 0 <= afterFee && NonNegative(m) && forall p :: p in m ==> Precise(afterFee * m[p])
    ensures var exact, got := afterFee * Sum(m), Sum(GrossShares(afterFee, total, m)) * total;
      && exact - |m| * total <= got
      && (SomeFraction(afterFee, total, m) ==> exact - |m| * total < got)
    decreases |m|
  {
    hide Sum, Gross, GrossShares, Precise;
    if m == map[] {
      assert GrossShares(afterFee, total, m) == map[] by {
        NoGross(afterFee, total);
      }
      NoTotal();
    } else {
      var p :| p in m && (SomeFraction(afterFee, total, m) ==> (afterFee * m[p]) % total != 0);
      var rest := m - {p};
      assert |rest| < |m| by {
        assert rest.Keys == m.Keys - {p};
      }
      GrossTotalAbove(afterFee, total, rest);
      GrossAboveFloor(afterFee, total, m[p]);
      SplitGross(afterFee, total, m, p);
      hide SomeFraction;
      AddUp(afterFee, total, m[p], Gross(afterFee, total, m[p]), Sum(rest), Sum(GrossShares(afterFee, total, rest)),
            |rest|);
    }
  }

  lemma NoGross(afterFee: int, total: int)
    requires 0 < total
    ensures GrossShares(afterFee, total, map[]) == map[]
  {
  }

  lemma NoTotal()
    ensures Sum<string>(map[]) == 0
  {
  }

  lemma AddUp(afterFee: int, total: int, h: int, share: int, amounts: int, shares: int, n: int)
    ensures afterFee * (h + amounts) == afterFee * h + afterFee * amounts
    ensures (share + shares) * total == share * total + shares * total
    ensures (n + 1) * total == n * total + total
  {
  }

  /** The remainder reaches the number of members only if every exact share is a whole number: with any fraction among
  them one member goes without a bonus. */
  lemma {:induction false} RemainderBelowMembers(afterFee: int, m: map<string, int>)
    requires 0 < Sum(m) && 0 <= afterFee && NonNegative(m) && Precise(afterFee * Sum(m))
    requires SomeFraction(afterFee, Sum(m), m)
    ensures afterFee - Sum(GrossShares(afterFee, Sum(m), m)) < |m|
  {
    var total := Sum(m);
    SumNonNegative(m);
    forall p | p in m
      ensures Precise(afterFee * m[p])
    {
      ProductMonotone(m[p], total, afterFee);
    }
    hide Sum, GrossShares, SomeFraction, Precise;
    GrossTotalAbove(afterFee, total, m);
    BelowTotal(afterFee, Sum(GrossShares(afterFee, total, m)), |m|, total);
  }

  lemma {:induction false} BelowTotal(afterFee: int, got: int, n: int, total: int)
    requires 0 < total && afterFee * total - n * total < got * total
    ensures afterFee - got < n
  {
    assert (got + n) * total == got * total + n * total;
    assert (afterFee + 1) * total == afterFee * total + total;
    ProductReflects(afterFee + 1, got + n, total);
  }

  /** shares lists the members by id, the first `remainder` of them with one bonus unit. */
  ghost predicate Distributed(shares: seq<RewardShare>, order: seq<string>, hashrates: map<string, int>,
                              gross: map<string, int>, remainder: int) {
    && |shares| == |order|
    && forall i :: 0 <= i < |order| ==>
      var bonus := if i < remainder then 1 else 0;
      shares[i] == RewardShare(order[i], Get(hashrates, order[i]), Get(gross, order[i]),
                               Get(gross, order[i]) + bonus, bonus)
  }

  ghost function Elements(s: seq<string>): set<string> {
    set x | x in s
  }

  /** The final shares add up to the gross shares and one unit for each bonus. */
  lemma {:induction false} DistributedTotal(shares: seq<RewardShare>, order: seq<string>, hashrates: map<string, int>,
                                            gross: map<string, int>, remainder: int)
    requires Distinct(order) && hashrates.Keys == gross.Keys == Elements(order)
    requires Distributed(shares, order, hashrates, gross, remainder)
    ensures FinalTotal(shares) == Sum(gross) + Min(Max(remainder, 0), |order|)
  {
    hide Sum, FinalTotal;
    if order == [] {
      assert gross == map[] && shares == [];
      NothingDistributed();
    } else {
      var n := |order| - 1;
      var last := order[n];
      WithoutLast(order);
      assert last in Elements(order);
      DistributedTotal(shares[..n], order[..n], hashrates - {last}, gross - {last}, remainder);
      SumRemove(gross, last);
      OneShareMore(shares);
    }
  }

  lemma NothingDistributed()
    ensures FinalTotal([]) == Sum<string>(map[]) == 0
  {
  }

  lemma OneShareMore(shares: seq<RewardShare>)
    requires shares != []
    ensures FinalTotal(shares) == FinalTotal(shares[..|shares| - 1]) + shares[|shares| - 1].finalShare
  {
  }

  lemma WithoutLast(order: seq<string>)
    requires Distinct(order) && order != []
    ensures Elements(order[..|order| - 1]) == Elements(order) - {order[|order| - 1]}
  {
    forall x | x in order && x != order[|order| - 1]
      ensures x in order[..|order| - 1]
    {
      var i :| 0 <= i < |order| && order[i] == x;
    }
  }

  ghost predicate Acceptable(poolReward: Rational, fee: Rational, hashrates: map<string, int>) {
    0 <= poolReward.num && 0 <= fee.num <= MAX_FEE_PERCENTAGE * fee.den && NonNegative(hashrates)
  }

  /** calculate_reward_shares. Hashrates are in a common unit; only their proportions matter. */
  method CalculateRewardShares(poolReward: Rational, feePercentage: Rational, hashrates: map<string, int>)
    returns (result: Result)
    ensures result.Shares? <==> Acceptable(poolReward, feePercentage, hashrates)
    ensures poolReward.num < 0 ==> result == Failed(PoolRewardNegative)
    ensures 0 <= poolReward.num && !(0 <= feePercentage.num <= 10 * feePercentage.den) ==>
      result == Failed(FeeOutOfRange)
    ensures 0 <= poolReward.num && 0 <= feePercentage.num <= 10 * feePercentage.den && !NonNegative(hashrates) ==>
      result == Failed(HashrateNegative)
    ensures result.Shares? && Sum(hashrates) <= 0 ==> result == Shares(Quantized(poolReward), [])
    // everything that comes in goes out, whatever the last digits of the shares
    ensures result.Shares? && Precise(Quantized(poolReward)) ==>
      result.ownerFee + FinalTotal(result.shares) == Quantized(poolReward)
    ensures result.Shares? && 0 < Sum(hashrates) ==>
      var fee := OwnerFee(poolReward, feePercentage);
      var afterFee := Quantized(poolReward) - fee;
      var gross := GrossShares(afterFee, Sum(hashrates), hashrates);
      && result.ownerFee == fee
      && Distributed(result.shares, Arrange(TextLe, hashrates.Keys), hashrates, gross, afterFee - Sum(gross))
      // for any amount: exact if and only if one bonus unit for each member can repair what flooring left over
      && (fee + FinalTotal(result.shares) == Quantized(poolReward) <==> 0 <= afterFee - Sum(gross) <= |hashrates|)
  {
    hide Quantized, OwnerFee, GrossShares, Gross, Distributed, Arrange;
    if poolReward.num < 0 {
      return Failed(PoolRewardNegative);
    }
    if feePercentage.num < 0 || MAX_FEE_PERCENTAGE * feePercentage.den < feePercentage.num {
      return Failed(FeeOutOfRange);
    }
    if exists p | p in hashrates :: hashrates[p] < 0 {
      return Failed(HashrateNegative);
    }
    var total := Total(hashrates);
    if hashrates == map[] || total <= 0 {
      return Shares(Quantized(poolReward), []);
    }
    var quantized := Quantized(poolReward);
    var ownerFee := OwnerFee(poolReward, feePercentage);
    FeeBounds(poolReward, feePercentage);
    hide Sum, FinalTotal;
    var shares := ShareOut(quantized - ownerFee, total, hashrates);
    result := Shares(ownerFee, shares);
  }

  /** The part after the fee: floored shares, then the remainder in single units. */
  method ShareOut(afterFee: int, total: int, hashrates: map<string, int>) returns (shares: seq<RewardShare>)
    requires 0 < total == Sum(hashrates) && NonNegative(hashrates) && 0 <= afterFee
    ensures Precise(afterFee) ==> FinalTotal(shares) == afterFee
    ensures var gross := GrossShares(afterFee, total, hashrates);
      && Distributed(shares, Arrange(TextLe, hashrates.Keys), hashrates, gross, afterFee - Sum(gross))
      && (FinalTotal(shares) == afterFee <==> 0 <= afterFee - Sum(gross) <= |hashrates|)
  {
    hide Sum, Gross, Arrange, Distributed, FinalTotal, Precise;
    var raw := FloorShares(afterFee, total, hashrates);
    var totalFloored := Total(raw);
    var remainder := afterFee - totalFloored;
    TextOrder();
    var order := ArrangeSet(TextLe, hashrates.Keys);
    MembersInOrder(hashrates.Keys);
    shares := Distribute(order, hashrates, raw, remainder);
    ShareOutIsExact(shares, afterFee, hashrates);
    if Precise(afterFee) {
      RemainderBounds(afterFee, hashrates);
    }
  }

  lemma MembersInOrder(ids: set<string>)
    ensures var order := Arrange(TextLe, ids);
      Distinct(order) && Elements(order) == ids && |order| == |ids| && forall p :: p in order <==> p in ids
  {
    TextOrder();
    Arranged(TextLe, ids);
  }

  /** The final shares add up to the whole exactly if what flooring left over lies between nothing and one unit for
  each member. */
  lemma {:induction false} ShareOutIsExact(shares: seq<RewardShare>, afterFee: int, hashrates: map<string, int>)
    requires 0 < Sum(hashrates)
    requires var gross := GrossShares(afterFee, Sum(hashrates), hashrates);
      Distributed(shares, Arrange(TextLe, hashrates.Keys), hashrates, gross, afterFee - Sum(gross))
    ensures FinalTotal(shares) == afterFee
      <==> 0 <= afterFee - Sum(GrossShares(afterFee, Sum(hashrates), hashrates)) <= |hashrates|
  {
    hide Sum, Gross, Arrange, Distributed, FinalTotal, Elements;
    var order, gross := Arrange(TextLe, hashrates.Keys), GrossShares(afterFee, Sum(hashrates), hashrates);
    assert gross.Keys == hashrates.Keys;
    hide GrossShares;
    MembersInOrder(hashrates.Keys);
    assert |hashrates.Keys| == |hashrates|;
    DistributedTotal(shares, order, hashrates, gross, afterFee - Sum(gross));
  }

  method FloorShares(afterFee: int, total: int, hashrates: map<string, int>) returns (raw: map<string, int>)
    requires 0 < total
    ensures raw == GrossShares(afterFee, total, hashrates)
  {
    hide Gross;
    raw := map[];
    var remaining := hashrates.Keys;
    while remaining != {}
      invariant remaining <= hashrates.Keys && raw.Keys == hashrates.Keys - remaining
      invariant forall p :: p in raw ==> raw[p] == Gross(afterFee, total, hashrates[p])
      decreases |remaining|
    {
      var p :| p in remaining;
      raw := raw[p := Gross(afterFee, total, hashrates[p])];
      remaining := remaining - {p};
    }
  }

  method Distribute(order: seq<string>, hashrates: map<string, int>, raw: map<string, int>, remainder: int)
    returns (shares: seq<RewardShare>)
    requires forall p :: p in order ==> p in hashrates && p in raw
    ensures Distributed(shares, order, hashrates, raw, remainder)
  {
    shares := [];
    for index := 0 to |order|
      invariant |shares| == index
      invariant Distributed(shares, order[..index], hashrates, raw, remainder)
    {
      var memberId := order[index];
      var bonus := if index < remainder then 1 else 0;
      shares := shares + [RewardShare(memberId, hashrates[memberId], raw[memberId], raw[memberId] + bonus, bonus)];
    }
    assert order[..|order|] == order;
  }

  /** What the i-th share of a distribution says about its member. */
  lemma ShareOfMember(shares: seq<RewardShare>, order: seq<string>, afterFee: int, total: int,
                      hashrates: map<string, int>, remainder: int, i: nat)
    requires 0 < total && i < |shares| && forall p :: p in order ==> p in hashrates
    requires Distributed(shares, order, hashrates, GrossShares(afterFee, total, hashrates), remainder)
    ensures var s := shares[i];
      && s.memberId in hashrates && s.memberHashrate == hashrates[s.memberId]
      && s.finalShare == Gross(afterFee, total, s.memberHashrate) + s.bonus && 0 <= s.bonus <= 1
  {
    hide Gross;
    assert order[i] in order;
  }

  /** In every distribution of floored shares, whoever gets a bonus unit: each member is paid within one unit of the
  exact share afterFee * hashrate / total, up to three halves of the last of 28 digits; and within one unit as long as
  28 digits can tell the exact share from its neighbours. */
  lemma FinalShareClose(shares: seq<RewardShare>, order: seq<string>, afterFee: int, total: int,
                        hashrates: map<string, int>, remainder: int, i: nat)
    requires 0 < total && i < |shares| && forall p :: p in order ==> p in hashrates
    requires 0 <= afterFee && NonNegative(hashrates)
    requires Distributed(shares, order, hashrates, GrossShares(afterFee, total, hashrates), remainder)
    ensures Close(afterFee * shares[i].memberHashrate, shares[i].finalShare * total, total)
  {
    hide Gross, Distributed, GrossShares, Close;
    ShareOfMember(shares, order, afterFee, total, hashrates, remainder, i);
    FloorPlusBonus(afterFee, total, shares[i].memberHashrate, shares[i].bonus);
  }

  /** paid / total against exact / total. */
  ghost predicate Close(exact: int, paid: int, total: int) {
    && 2 * FIRST * (exact - total - paid) <= 3 * exact
    && 2 * FIRST * (paid - total - exact) <= 3 * exact
    && (Precise(exact) ==> exact - total <= paid <= exact + total)
  }

  lemma FloorPlusBonus(afterFee: int, total: int, h: int, bonus: int)
    requires 0 < total && 0 <= bonus <= 1 && 0 <= afterFee && 0 <= h
    ensures Close(afterFee * h, (Gross(afterFee, total, h) + bonus) * total, total)
  {
    var gross := Gross(afterFee, total, h);
    hide Gross, Close;
    GrossClose(afterFee, total, h);
    hide FlooredTo;
    CloseFromFloor(afterFee * h, gross * total, total);
    BonusAdds(gross, bonus, total);
  }

  lemma BonusAdds(gross: int, bonus: int, total: int)
    requires 0 <= bonus <= 1
    ensures (gross + bonus) * total == if bonus == 0 then gross * total else gross * total + total
  {
  }

  /** With and without the bonus unit. */
  lemma CloseFromFloor(exact: int, floored: int, total: int)
    requires 0 < total && FlooredTo(exact, floored, total)
    ensures Close(exact, floored, total) && Close(exact, floored + total, total)
  {
  }

  /** A member with more hashrate is never paid less, apart from the single bonus unit. */
  lemma {:induction false} GrossSharesKeepOrder(afterFee: int, total: int, hashrates: map<string, int>, p: string,
                                                q: string)
    requires 0 < total && 0 <= afterFee && p in hashrates && q in hashrates && 0 <= hashrates[q] <= hashrates[p]
    ensures GrossShares(afterFee, total, hashrates)[q] <= GrossShares(afterFee, total, hashrates)[p]
  {
    FloorShareMonotone(afterFee, hashrates[q], hashrates[p], total);
  }

  // ---------------------------------------------------------------- what the last digit does

  ghost predicate AllEqual(m: map<string, int>, value: int) {
    forall p :: p in m ==> m[p] == value
  }

  lemma {:induction false} SumOfEqual(m: map<string, int>, value: int)
    requires AllEqual(m, value)
    ensures Sum(m) == Times(|m|, value)
    decreases |m|
  {
    if m == map[] {
      assert Sum(m) == 0;
    } else {
      hide Sum, Times;
      var p :| p in m;
      var rest := m - {p};
      SumRemove(m, p);
      assert rest.Keys == m.Keys - {p};
      assert |rest| == |m| - 1;
      SumOfEqual(rest, value);
      OneMore(|rest|, value);
    }
  }

  /** Members with one unit of hashrate each, paid `share` each before the bonus. */
  lemma EqualMembers(afterFee: int, m: map<string, int>, share: int)
    requires AllEqual(m, 1) && m != map[] && Gross(afterFee, |m|, 1) == share
    ensures Sum(m) == |m| && AllEqual(GrossShares(afterFee, Sum(m), m), share)
    ensures Sum(GrossShares(afterFee, Sum(m), m)) == |m| * share
  {
    hide Sum, Gross;
    SumOfEqual(m, 1);
    var gross := GrossShares(afterFee, Sum(m), m);
    SumOfEqual(gross, share);
    assert gross.Keys == m.Keys;
    assert |gross| == |m|;
  }

  lemma OneThird()
    ensures Gross(3 * MICRO, 3, 1) == MICRO - 1
  {
    Powers();
    hide Power10, ShareOf;
    ShareInDigits(3 * MICRO, 1, 3, 28, 3_333_333_333_333_333_333_333_333_333, 22,
                  9_999_999_999_999_999_999_999_999_999);
  }

  /** Three credits for three equal members: 1/3 in 28 digits is too small, so each share is floored to 0.999999, the
  remainder is as large as the number of members, and every member gets a bonus unit. */
  lemma ThirdsNeedEveryBonus(m: map<string, int>)
    requires AllEqual(m, 1) && |m| == 3
    ensures Sum(m) == 3 && AllEqual(GrossShares(3 * MICRO, Sum(m), m), MICRO - 1)
    ensures 3 * MICRO - Sum(GrossShares(3 * MICRO, Sum(m), m)) == |m|
  {
    hide Gross, Sum, GrossShares, AllEqual;
    OneThird();
    EqualMembers(3 * MICRO, m, MICRO - 1);
  }

  /** A reward of 28 digits. */
  const HUGE := 9_999_999_999_999_999_999_999_999_992

  lemma OneSixth()
    ensures Gross(HUGE, 6, 1) == 1_666_666_666_666_666_666_666_666_666
  {
    Powers();
    hide Power10, ShareOf;
    ShareInDigits(HUGE, 1, 6, 28, 1_666_666_666_666_666_666_666_666_667, 0, 1_666_666_666_666_666_666_666_666_666);
  }

  /** For rewards that use up all 28 digits the shares can exceed the reward: here by four units for six equal
  members, and no bonus can repair that. */
  lemma HugeRewardOverpays(m: map<string, int>)
    requires AllEqual(m, 1) && |m| == 6
    ensures Sum(m) == 6 && Sum(GrossShares(HUGE, Sum(m), m)) == HUGE + 4
  {
    hide Gross, Sum, GrossShares, AllEqual;
    OneSixth();
    EqualMembers(HUGE, m, 1_666_666_666_666_666_666_666_666_666);
  }
}
