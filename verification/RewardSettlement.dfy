/** Splitting the reward pool of a finalized block among its contributors
(server/domain/economy/reward_settlement.py). */
module RewardSettlement {
  import opened Numbers
  import opened Sorting
  import opened Totals
  import opened DecimalContext

  /** Pool settings; the three amounts count units of 0.000001. */
  datatype Config = Config(baseBlockReward: int, targetRequiredWork: int, minimumBlockReward: int)

  const DEFAULT_CONFIG := Config(100 * MICRO, 100 * MICRO, MICRO)

  /** One player with its contribution, as the sort key of the residual loops sees it. */
  datatype Entry = Entry(id: string, amount: int)

  /** Ascending order by (contribution, share, player id). The share grows with the contribution,
  so it never decides. */
  predicate EntryLe(a: Entry, b: Entry) {
    a.amount < b.amount || (a.amount == b.amount && TextLe(a.id, b.id))
  }

  function ComputeBlockReward(config: Config, requiredWork: int): (reward: int)
    ensures 0 <= config.minimumBlockReward && 0 <= config.baseBlockReward ==> 0 <= reward
  {
    if config.targetRequiredWork <= 0 then config.baseBlockReward
    else if config.baseBlockReward * requiredWork >= config.minimumBlockReward * config.targetRequiredWork then
      BaseAboveMinimum(config, requiredWork);
      RoundHalfUp(config.baseBlockReward * requiredWork, config.targetRequiredWork)
    else config.minimumBlockReward
  }

  lemma BaseAboveMinimum(config: Config, requiredWork: int)
    requires 0 < config.targetRequiredWork
    requires config.baseBlockReward * requiredWork >= config.minimumBlockReward * config.targetRequiredWork
    ensures 0 <= config.minimumBlockReward ==> 0 <= config.baseBlockReward * requiredWork
  {
    if 0 <= config.minimumBlockReward {
      ProductMonotone(0, config.minimumBlockReward, config.targetRequiredWork);
    }
  }

  /** The pool never shrinks when a block was harder, and with a target it never drops below the minimum. */
  lemma {:induction false} BlockRewardMonotone(config: Config, easier: int, harder: int)
    requires 0 <= config.baseBlockReward && easier <= harder
    ensures ComputeBlockReward(config, easier) <= ComputeBlockReward(config, harder)
    ensures 0 < config.targetRequiredWork ==> config.minimumBlockReward <= ComputeBlockReward(config, easier)
  {
    var base, target, least := config.baseBlockReward, config.targetRequiredWork, config.minimumBlockReward;
    if 0 < target {
      ProductMonotone(easier, harder, base);
      RoundExact(least, target);
      if base * easier >= least * target {
        HalfUpMonotone(least * target, base * easier, target);
        HalfUpMonotone(base * easier, base * harder, target);
      } else if base * harder >= least * target {
        HalfUpMonotone(least * target, base * harder, target);
      }
    }
  }

  /** The pool is within half a unit of base * required / target, or of the minimum where that is larger; without a
  target it is the base reward, even if that is below the minimum. */
  lemma {:induction false} BlockRewardProportional(config: Config, requiredWork: int)
    requires 0 <= config.minimumBlockReward
    ensures var target := config.targetRequiredWork;
      var reward := ComputeBlockReward(config, requiredWork);
      var exact := Max(config.baseBlockReward * requiredWork, config.minimumBlockReward * target);
      if target <= 0 then reward == config.baseBlockReward
      else 2 * exact - target < 2 * (reward * target) <= 2 * exact + target
  {
    if 0 < config.targetRequiredWork
      && config.baseBlockReward * requiredWork >= config.minimumBlockReward * config.targetRequiredWork {
      BaseAboveMinimum(config, requiredWork);
    }
  }

  // ---------------------------------------------------------------- specification

  function Entries(m: map<string, int>): set<Entry> {
    set p | p in m :: Entry(p, m[p])
  }

  /** All contributors in ascending order. */
  ghost function Ordering(m: map<string, int>): seq<Entry> {
    Arrange(EntryLe, Entries(m))
  }

  /** Proportional share of a contribution c, with 28 digits and rounded half up to whole units. */
  function Rounded(reward: int, total: int, c: int): int
    requires 0 < total
  {
    HalfUpShare(reward, c, total)
  }

  function RoundedShares(reward: int, total: int, m: map<string, int>): (r: map<string, int>)
    requires 0 < total
  {
    map p | p in m :: Rounded(reward, total, m[p])
  }

  /** The entries, in order, whose share is positive. */
  ghost function Positive(shares: map<string, int>, s: seq<Entry>): seq<Entry> {
    if s == [] then []
    else Positive(shares, s[..|s| - 1]) + (if 0 < Get(shares, s[|s| - 1].id) then [s[|s| - 1]] else [])
  }

  ghost function Ids(s: seq<Entry>): set<string> {
    set i | 0 <= i < |s| :: s[i].id
  }

  /** What rounding left over (positive) or overspent (negative). */
  ghost function Residual(reward: int, m: map<string, int>): int
    requires 0 < Sum(m)
  {
    reward - Sum(RoundedShares(reward, Sum(m), m))
  }

  /** Players that one pass repairs: as far as the residual goes, the largest contributors gain one unit each, or the
  smallest contributors with a positive share lose one unit each. */
  ghost function Chosen(shares: map<string, int>, order: seq<Entry>, residual: int): set<string> {
    if 0 <= residual then Ids(order[|order| - Min(residual, |order|)..])
    else
      var payers := Positive(shares, order);
      Ids(payers[..Min(-residual, |payers|)])
  }

  /** Shares after one pass. */
  ghost function Passed(shares: map<string, int>, order: seq<Entry>, residual: int): map<string, int> {
    Bump(shares, Chosen(shares, order, residual), if 0 <= residual then 1 else -1)
  }

  /** Residual after one pass. */
  ghost function Left(shares: map<string, int>, order: seq<Entry>, residual: int): (left: int)
    ensures 0 <= residual ==> 0 <= left <= residual
    ensures residual <= 0 ==> residual <= left <= 0
  {
    if 0 <= residual then residual - Min(residual, |order|)
    else residual + Min(-residual, |Positive(shares, order)|)
  }

  /** Shares after the passes that it takes. */
  ghost function Repair(shares: map<string, int>, order: seq<Entry>, residual: int): map<string, int>
    decreases if residual < 0 then -residual else residual
  {
    var left := Left(shares, order, residual);
    if left == residual then shares else Repair(Passed(shares, order, residual), order, left)
  }

  ghost function Repaired(reward: int, m: map<string, int>): map<string, int>
    requires 0 < Sum(m)
  {
    Repair(RoundedShares(reward, Sum(m), m), Ordering(m), Residual(reward, m))
  }

  function PositivePart(m: map<string, int>): map<string, int> {
    map p | p in m && 0 < m[p] :: m[p]
  }

  /** The rewards that are posted. */
  ghost function Allocation(reward: int, m: map<string, int>): map<string, int> {
    if Sum(m) <= 0 then map[] else PositivePart(Repaired(reward, m))
  }

  ghost predicate NonNegative(m: map<string, int>) {
    forall p :: p in m ==> 0 <= m[p]
  }

  // ---------------------------------------------------------------- ordering

  lemma EntryOrder()
    ensures TotalPreorder(EntryLe) && Antisymmetric(EntryLe)
  {
    TextOrder();
  }

  lemma EntriesMembers(m: map<string, int>)
    ensures forall e :: e in Entries(m) <==> e.id in m && m[e.id] == e.amount
  {
    forall e: Entry | e.id in m && m[e.id] == e.amount
      ensures e in Entries(m)
    {
      assert e == Entry(e.id, m[e.id]);
    }
  }

  lemma {:induction false} EntriesSize(m: map<string, int>)
    ensures |Entries(m)| == |m|
    decreases |m|
  {
    EntriesMembers(m);
    if m != map[] {
      var p :| p in m;
      EntriesSize(m - {p});
      EntriesMembers(m - {p});
      assert Entries(m) == Entries(m - {p}) + {Entry(p, m[p])};
    }
  }

  ghost predicate DistinctIds(s: seq<Entry>) {
    forall i, j :: 0 <= i < j < |s| ==> s[i].id != s[j].id
  }

  /** The order lists every contributor once, with its contribution. */
  ghost predicate Enumerates(order: seq<Entry>, m: map<string, int>) {
    && |order| == |m|
    && (forall e :: e in order <==> e.id in m && m[e.id] == e.amount)
    && DistinctIds(order)
    && Ids(order) == m.Keys
  }

  lemma OrderingProperties(m: map<string, int>)
    ensures SortedBy(EntryLe, Ordering(m)) && Enumerates(Ordering(m), m)
  {
    EntryOrder();
    Arranged(EntryLe, Entries(m));
    EntriesMembers(m);
    EntriesSize(m);
    hide Arrange, Entries, EntryLe;
    Enumerated(Ordering(m), m);
  }

  /** A list of the entries without repetition names every contributor once. */
  lemma Enumerated(order: seq<Entry>, m: map<string, int>)
    requires |order| == |m| && Distinct(order)
    requires forall e :: e in order <==> e.id in m && m[e.id] == e.amount
    ensures Enumerates(order, m)
  {
    forall p | p in m
      ensures p in Ids(order)
    {
      assert Entry(p, m[p]) in order;
    }
    forall i | 0 <= i < |order|
      ensures order[i].id in m && order[i] == Entry(order[i].id, m[order[i].id])
    {
      assert order[i] in order;
    }
  }

  /** Finds a contributor in a list. */
  lemma Locate(s: seq<Entry>, p: string) returns (i: nat)
    requires p in Ids(s)
    ensures i < |s| && s[i].id == p
  {
    i :| 0 <= i < |s| && s[i].id == p;
  }

  // ---------------------------------------------------------------- the positive shares in order

  lemma {:induction false} PositiveProperties(shares: map<string, int>, s: seq<Entry>)
    requires SortedBy(EntryLe, s) && DistinctIds(s)
    ensures var pos := Positive(shares, s);
      && SortedBy(EntryLe, pos)
      && DistinctIds(pos)
      && (forall e :: e in pos <==> e in s && 0 < Get(shares, e.id))
  {
    hide EntryLe;
    if s != [] {
      var front, last := s[..|s| - 1], s[|s| - 1];
      assert s == front + [last];
      FrontOf(s);
      hide SortedBy, DistinctIds;
      PositiveProperties(shares, front);
      if 0 < Get(shares, last.id) {
        AppendGreatest(front, Positive(shares, front), last);
      }
    }
  }

  lemma FrontOf(s: seq<Entry>)
    requires SortedBy(EntryLe, s) && DistinctIds(s) && s != []
    ensures var front, last := s[..|s| - 1], s[|s| - 1];
      && SortedBy(EntryLe, front) && DistinctIds(front)
      && forall e :: e in front ==> EntryLe(e, last) && e.id != last.id
  {
    hide EntryLe;
  }

  lemma AppendGreatest(front: seq<Entry>, part: seq<Entry>, last: Entry)
    requires SortedBy(EntryLe, part) && DistinctIds(part) && forall e :: e in part ==> e in front
    requires forall e :: e in front ==> EntryLe(e, last) && e.id != last.id
    ensures SortedBy(EntryLe, part + [last]) && DistinctIds(part + [last])
  {
    hide EntryLe;
    forall i | 0 <= i < |part|
      ensures EntryLe(part[i], last) && part[i].id != last.id
    {
      assert part[i] in front;
    }
  }

  lemma {:induction false} PositivePrefix(shares: map<string, int>, s: seq<Entry>, i: nat)
    requires i <= |s|
    ensures Positive(shares, s[..i]) <= Positive(shares, s)
    decreases |s|
  {
    if i == |s| {
      assert s[..i] == s;
    } else {
      PositivePrefix(shares, s[..|s| - 1], i);
      assert s[..|s| - 1][..i] == s[..i];
    }
  }

  lemma PositiveOneMore(shares: map<string, int>, order: seq<Entry>, at: nat)
    requires at < |order|
    ensures Positive(shares, order[..at + 1])
      == Positive(shares, order[..at]) + (if 0 < Get(shares, order[at].id) then [order[at]] else [])
  {
    assert order[..at + 1][..at] == order[..at];
  }

  // ---------------------------------------------------------------- bounds of the residual

  ghost function PositiveSet(reward: int, total: int, m: map<string, int>): set<string>
    requires 0 < total
  {
    set p | p in m && 0 < Rounded(reward, total, m[p])
  }

  /** Rounding a share moves it by at most half a unit, up to three halves of the last digit, and what is rounded up
  becomes positive. */
  lemma {:induction false} RoundingDriftOne(reward: int, total: int, c: int)
    requires 0 < total && 0 <= reward && 0 <= c
    ensures 0 <= Rounded(reward, total, c) && Halves(reward, total, c, Rounded(reward, total, c))
  {
    var p := ShareOf(reward, c, total);
    var share := RoundHalfUp(p.num, p.den);
    ShareOfNear(reward, c, total);
    assert 0 <= p.num by {
      assert NearShare(reward, c, total, p);
    }
    assert -3 * (reward * c * p.den) <= 2 * FIRST * (p.num * total - reward * c * p.den)
      <= 3 * (reward * c * p.den) by {
      assert NearShare(reward, c, total, p);
    }
    hide ShareOf, NearShare, RoundedTo, RoundHalfUp;
    ScaleHalf(share, p.den, p.num, total);
    HalfUpLower(share * total, reward * c, p.den, p.num * total, total);
    if 0 < share {
      HalfUpUpper(share * total, reward * c, p.den, p.num * total, total);
    } else {
      ProductMonotone(0, reward, c);
    }
    RoundedToFrom(reward * c, share * total, total, if 0 < share then total else 0);
  }

  /** One share against the exact one: less than half a unit below, at most half a unit above, and only positive
  shares were rounded up. */
  ghost predicate Halves(reward: int, total: int, c: int, share: int) {
    RoundedTo(reward * c, share * total, total, if 0 < share then total else 0)
  }

  /** Rounded shares of n players, `up` of them positive, against the exact shares. */
  ghost predicate WithinHalf(reward: int, total: int, amounts: int, shares: int, up: int, n: int) {
    && 2 * FIRST * (shares * total) <= (2 * FIRST + 3) * (reward * amounts) + FIRST * (up * total)
    && (2 * FIRST - 3) * (reward * amounts) - FIRST * (n * total) <= 2 * FIRST * (shares * total)
    && (n != 0 ==> (2 * FIRST - 3) * (reward * amounts) - FIRST * (n * total) < 2 * FIRST * (shares * total))
  }

  lemma {:induction false} RoundingDrift(reward: int, total: int, m: map<string, int>)
    requires 0 < total && 0 <= reward && NonNegative(m)
    ensures WithinHalf(reward, total, Sum(m), Sum(RoundedShares(reward, total, m)), |PositiveSet(reward, total, m)|,
                       |m|)
    decreases |m|
  {
    hide Sum, Rounded, RoundedShares, PositiveSet, WithinHalf, Halves;
    if m == map[] {
      RoundingDriftNone(reward, total);
    } else {
      var p :| p in m;
      var rest := m - {p};
      assert |rest| < |m| by {
        assert rest.Keys == m.Keys - {p};
      }
      RoundingDrift(reward, total, rest);
      RoundingDriftOne(reward, total, m[p]);
      SplitShares(reward, total, m, p);
      DriftStep(reward, total, m[p], Rounded(reward, total, m[p]), Sum(rest), Sum(RoundedShares(reward, total, rest)),
                |PositiveSet(reward, total, rest)|, |rest|);
    }
  }

  lemma RoundingDriftNone(reward: int, total: int)
    requires 0 < total
    ensures WithinHalf(reward, total, Sum<string>(map[]), Sum(RoundedShares(reward, total, map[])),
                       |PositiveSet(reward, total, map[])|, 0)
  {
    assert RoundedShares(reward, total, map[]) == map[] && PositiveSet(reward, total, map[]) == {};
  }

  lemma {:induction false} SplitShares(reward: int, total: int, m: map<string, int>, p: string)
    requires 0 < total && p in m
    ensures var share := Rounded(reward, total, m[p]);
      && Sum(m) == m[p] + Sum(m - {p})
      && Sum(RoundedShares(reward, total, m)) == share + Sum(RoundedShares(reward, total, m - {p}))
      && |PositiveSet(reward, total, m)| == |PositiveSet(reward, total, m - {p})| + (if 0 < share then 1 else 0)
      && |m| == |m - {p}| + 1
  {
    hide Sum, Rounded;
    SumRemove(m, p);
    SumRemove(RoundedShares(reward, total, m), p);
    assert RoundedShares(reward, total, m) - {p} == RoundedShares(reward, total, m - {p});
    var restUp := PositiveSet(reward, total, m - {p});
    assert PositiveSet(reward, total, m) == if 0 < Rounded(reward, total, m[p]) then restUp + {p} else restUp;
    assert |m.Keys - {p}| == |m| - 1;
    assert (m - {p}).Keys == m.Keys - {p};
  }

  /** The arithmetic of one more player. */
  lemma DriftStep(reward: int, total: int, c: int, share: int, amounts: int, shares: int, up: int, n: int)
    requires Halves(reward, total, c, share)
    requires WithinHalf(reward, total, amounts, shares, up, n)
    ensures WithinHalf(reward, total, c + amounts, share + shares, up + (if 0 < share then 1 else 0), n + 1)
  {
    Distribute(reward, c, amounts);
    Distribute(total, share, shares);
    Distribute(total, n, 1);
    Distribute(total, up, 1);
  }

  lemma Distribute(k: int, a: int, b: int)
    ensures k * (a + b) == k * a + k * b
    ensures (a + b) * k == a * k + b * k
  {
  }

  /** Rewards for which 28 digits are accurate enough that all shares together are off by less than half a unit: 333
  million million million credits. */
  predicate Fine(reward: int) {
    3 * reward < FIRST
  }

  /** One pass suffices: at most half the players gain a unit, and at most half of the players with a positive rounded
  share lose one. */
  lemma {:induction false} OnePassSuffices(reward: int, m: map<string, int>)
    requires 0 <= reward && NonNegative(m) && 0 < Sum(m) && Fine(reward)
    ensures 2 * Residual(reward, m) <= |Ordering(m)|
    ensures -2 * Residual(reward, m) <= |Positive(RoundedShares(reward, Sum(m), m), Ordering(m))|
  {
    hide Ordering, Positive, Rounded, Fine;
    OrderingProperties(m);
    ResidualBounds(reward, m);
    PositiveListed(reward, m);
  }

  lemma {:induction false} ResidualBounds(reward: int, m: map<string, int>)
    requires 0 <= reward && NonNegative(m) && 0 < Sum(m) && Fine(reward)
    ensures 2 * Residual(reward, m) <= |m|
    ensures -2 * Residual(reward, m) <= |PositiveSet(reward, Sum(m), m)|
  {
    assert m != map[];
    hide PositiveSet, RoundedShares, Sum, WithinHalf, Fine;
    RoundingDrift(reward, Sum(m), m);
    ResidualArithmetic(reward, Sum(m), Sum(RoundedShares(reward, Sum(m), m)), |m|, |PositiveSet(reward, Sum(m), m)|);
  }

  lemma {:induction false} ResidualArithmetic(reward: int, total: int, shares: int, n: int, up: int)
    requires 0 < total && Fine(reward)
    requires WithinHalf(reward, total, total, shares, up, n) && n != 0
    ensures 2 * (reward - shares) <= n && -2 * (reward - shares) <= up
  {
    RegroupProduct(2 * FIRST, shares, total);
    RegroupProduct(2 * FIRST + 3, reward, total);
    RegroupProduct(2 * FIRST - 3, reward, total);
    RegroupProduct(FIRST, up, total);
    RegroupProduct(FIRST, n, total);
    hide Fine;
    ProductReflects(2 * FIRST * shares, (2 * FIRST + 3) * reward + FIRST * up, total);
    ProductReflects((2 * FIRST - 3) * reward - FIRST * n + 1, 2 * FIRST * shares, total);
    Halved(reward, shares, n, up);
  }

  lemma Halved(reward: int, shares: int, n: int, up: int)
    requires 2 * FIRST * shares <= (2 * FIRST + 3) * reward + FIRST * up && Fine(reward)
    requires (2 * FIRST - 3) * reward - FIRST * n < 2 * FIRST * shares
    ensures 2 * (reward - shares) <= n && -2 * (reward - shares) <= up
  {
  }

  lemma {:induction false} PositiveListed(reward: int, m: map<string, int>)
    requires 0 < Sum(m)
    ensures |PositiveSet(reward, Sum(m), m)| <= |Positive(RoundedShares(reward, Sum(m), m), Ordering(m))|
  {
    hide Ordering, Rounded;
    var total := Sum(m);
    var order, shares := Ordering(m), RoundedShares(reward, total, m);
    OrderingProperties(m);
    PositiveProperties(shares, order);
    var pos := Positive(shares, order);
    hide Positive, Sum;
    forall p | p in PositiveSet(reward, total, m)
      ensures p in Ids(pos)
    {
      assert Entry(p, m[p]) in pos;
    }
    IdsSize(pos);
    SubsetSize(PositiveSet(reward, total, m), Ids(pos));
  }

  lemma {:induction false} IdsSize(s: seq<Entry>)
    requires DistinctIds(s)
    ensures |Ids(s)| == |s|
  {
    if s != [] {
      var front := s[..|s| - 1];
      IdsSize(front);
      assert Ids(s) == Ids(front) + {s[|s| - 1].id};
    }
  }

  lemma SliceIds(s: seq<Entry>, lo: nat, hi: nat)
    requires DistinctIds(s) && lo <= hi <= |s|
    ensures |Ids(s[lo..hi])| == hi - lo
    ensures Ids(s[lo..hi]) <= Ids(s)
    ensures forall i :: 0 <= i < |s| ==> (s[i].id in Ids(s[lo..hi]) <==> lo <= i < hi)
  {
    var part := s[lo..hi];
    forall i, j | 0 <= i < j < |part|
      ensures part[i].id != part[j].id
    {
      assert part[i] == s[lo + i] && part[j] == s[lo + j];
    }
    IdsSize(part);
    assert forall i :: 0 <= i < |part| ==> part[i] == s[lo + i];
    forall i | lo <= i < hi
      ensures s[i].id in Ids(part)
    {
      assert part[i - lo] == s[i];
    }
  }

  // ---------------------------------------------------------------- one pass

  /** Shares that the passes can work on: everybody in the order has one, and none is negative. */
  ghost predicate Repairable(shares: map<string, int>, order: seq<Entry>, residual: int) {
    && SortedBy(EntryLe, order) && DistinctIds(order) && Ids(order) == shares.Keys && NonNegative(shares)
    && (0 < residual ==> order != [])
    && -residual <= Sum(shares)
  }

  lemma {:induction false} PayersProperties(shares: map<string, int>, order: seq<Entry>)
    requires SortedBy(EntryLe, order) && DistinctIds(order) && Ids(order) == shares.Keys
    ensures var payers := Positive(shares, order);
      && DistinctIds(payers) && Ids(payers) <= shares.Keys && |Ids(payers)| == |payers|
      && (forall p :: p in Ids(payers) <==> p in shares && 0 < shares[p])
  {
    hide EntryLe;
    var payers := Positive(shares, order);
    PositiveProperties(shares, order);
    hide Positive, SortedBy;
    IdsSize(payers);
    forall p | p in Ids(payers)
      ensures p in shares && 0 < shares[p]
    {
      var i := Locate(payers, p);
      assert payers[i] in payers && payers[i] in order;
      var j :| 0 <= j < |order| && order[j] == payers[i];
      assert order[j].id in Ids(order);
    }
    forall p | p in shares && 0 < shares[p]
      ensures p in Ids(payers)
    {
      var j := Locate(order, p);
      assert order[j] in order && order[j] in payers;
    }
  }

  /** A pass takes one unit for every unit of residual that it settles, from players that have one. */
  lemma {:induction false} ChosenProperties(shares: map<string, int>, order: seq<Entry>, residual: int)
    requires Repairable(shares, order, residual)
    ensures var chosen, left := Chosen(shares, order, residual), Left(shares, order, residual);
      && chosen <= shares.Keys
      && |chosen| == (if 0 <= residual then residual - left else left - residual)
      && (residual < 0 ==> forall p :: p in chosen ==> 0 < shares[p])
      && (residual != 0 ==> left != residual)
  {
    hide SortedBy, EntryLe, Sum;
    if 0 <= residual {
      var k := Min(residual, |order|);
      SliceIds(order, |order| - k, |order|);
      assert order[|order| - k..] == order[|order| - k..|order|];
    } else {
      PayersProperties(shares, order);
      SomebodyPays(shares, order, residual);
      hide Positive;
      var payers := Positive(shares, order);
      var k := Min(-residual, |payers|);
      SliceIds(payers, 0, k);
      assert payers[..k] == payers[0..k];
    }
  }

  lemma SomebodyPays(shares: map<string, int>, order: seq<Entry>, residual: int)
    requires Repairable(shares, order, residual) && residual < 0
    ensures Positive(shares, order) != []
  {
    hide EntryLe, SortedBy;
    PayersProperties(shares, order);
    if Positive(shares, order) == [] {
      assert Ids(Positive(shares, order)) == {};
      AllZero(shares);
    }
  }

  lemma {:induction false} AllZero(shares: map<string, int>)
    requires forall p :: p in shares ==> shares[p] <= 0
    ensures Sum(shares) <= 0
    decreases |shares|
  {
    if shares != map[] {
      var p :| p in shares;
      SumRemove(shares, p);
      assert (shares - {p}).Keys == shares.Keys - {p};
      AllZero(shares - {p});
    }
  }

  /** A pass moves the total by what it settles of the residual. */
  lemma {:induction false} PassKeeps(shares: map<string, int>, order: seq<Entry>, residual: int)
    requires Repairable(shares, order, residual)
    ensures var after, left := Passed(shares, order, residual), Left(shares, order, residual);
      && Repairable(after, order, left) && after.Keys == shares.Keys
      && Sum(after) + left == Sum(shares) + residual
  {
    hide Sum, SortedBy, EntryLe, Chosen, Left, DistinctIds, Ids;
    ChosenProperties(shares, order, residual);
    SumBump(shares, Chosen(shares, order, residual), if 0 <= residual then 1 else -1);
  }

  /** The passes end with shares that sum to everything, however the shares were rounded. */
  lemma {:induction false} RepairConserves(shares: map<string, int>, order: seq<Entry>, residual: int)
    requires Repairable(shares, order, residual)
    ensures var after := Repair(shares, order, residual);
      after.Keys == shares.Keys && NonNegative(after) && Sum(after) == Sum(shares) + residual
    decreases if residual < 0 then -residual else residual
  {
    hide Sum, SortedBy, EntryLe, Chosen, Passed, DistinctIds, Ids;
    ChosenProperties(shares, order, residual);
    PassKeeps(shares, order, residual);
    var left := Left(shares, order, residual);
    if left != residual {
      hide Repairable, Left;
      RepairConserves(Passed(shares, order, residual), order, left);
    }
  }

  // ---------------------------------------------------------------- passes keep the order

  /** Players further up the order have no smaller share. */
  ghost predicate InOrder(shares: map<string, int>, order: seq<Entry>) {
    forall i, j :: 0 <= i < j < |order| ==> Get(shares, order[i].id) <= Get(shares, order[j].id)
  }

  /** Where a player with a positive share stands among those. */
  lemma {:induction false} PayerPosition(shares: map<string, int>, order: seq<Entry>, i: nat)
    requires i < |order| && 0 < Get(shares, order[i].id)
    ensures var at := |Positive(shares, order[..i])|;
      at < |Positive(shares, order)| && Positive(shares, order)[at] == order[i]
  {
    PositiveOneMore(shares, order, i);
    PositivePrefix(shares, order, i + 1);
  }

  lemma {:induction false} EarlierPosition(shares: map<string, int>, order: seq<Entry>, i: nat, j: nat)
    requires i < j < |order| && 0 < Get(shares, order[i].id)
    ensures |Positive(shares, order[..i])| < |Positive(shares, order[..j])|
  {
    PositiveOneMore(shares, order, i);
    assert order[..j][..i + 1] == order[..i + 1];
    PositivePrefix(shares, order[..j], i + 1);
    hide Positive;
  }

  /** Of two players with a positive share, the lower one pays first. */
  lemma {:induction false} LowerPaysFirst(shares: map<string, int>, order: seq<Entry>, residual: int, i: nat, j: nat)
    requires Repairable(shares, order, residual) && residual < 0 && i < j < |order|
    requires 0 < Get(shares, order[i].id) && 0 < Get(shares, order[j].id)
    requires order[j].id in Chosen(shares, order, residual)
    ensures order[i].id in Chosen(shares, order, residual)
  {
    var payers := Positive(shares, order);
    assert DistinctIds(payers) by {
      PayersProperties(shares, order);
    }
    PayerPosition(shares, order, i);
    PayerPosition(shares, order, j);
    EarlierPosition(shares, order, i, j);
    hide Positive, Sum, SortedBy, EntryLe, Repairable;
    FirstOnes(payers, Min(-residual, |payers|), |Positive(shares, order[..i])|, |Positive(shares, order[..j])|);
  }

  lemma FirstOnes(payers: seq<Entry>, k: nat, a: nat, b: nat)
    requires DistinctIds(payers) && k <= |payers| && a < b < |payers| && payers[b].id in Ids(payers[..k])
    ensures payers[a].id in Ids(payers[..k])
  {
    SliceIds(payers, 0, k);
    assert payers[..k] == payers[0..k];
    hide Ids;
  }

  lemma {:induction false} PassKeepsOrder(shares: map<string, int>, order: seq<Entry>, residual: int)
    requires Repairable(shares, order, residual) && InOrder(shares, order)
    ensures InOrder(Passed(shares, order, residual), order)
  {
    var after := Passed(shares, order, residual);
    forall i, j | 0 <= i < j < |order|
      ensures Get(after, order[i].id) <= Get(after, order[j].id)
    {
      PairKeepsOrder(shares, order, residual, i, j);
    }
  }

  lemma {:induction false} PairKeepsOrder(shares: map<string, int>, order: seq<Entry>, residual: int, i: nat, j: nat)
    requires Repairable(shares, order, residual) && i < j < |order|
    requires Get(shares, order[i].id) <= Get(shares, order[j].id)
    ensures var after := Passed(shares, order, residual);
      Get(after, order[i].id) <= Get(after, order[j].id)
  {
    assert order[i].id in Ids(order) && order[j].id in Ids(order);
    hide Sum, SortedBy, EntryLe;
    if 0 <= residual {
      var k := Min(residual, |order|);
      SliceIds(order, |order| - k, |order|);
      assert order[|order| - k..] == order[|order| - k..|order|];
      hide Ids;
    } else {
      ChosenProperties(shares, order, residual);
      if 0 < Get(shares, order[i].id) && order[j].id in Chosen(shares, order, residual) {
        assert 0 < Get(shares, order[j].id);
        LowerPaysFirst(shares, order, residual, i, j);
      }
      hide Ids, Chosen;
    }
  }

  lemma {:induction false} RepairKeepsOrder(shares: map<string, int>, order: seq<Entry>, residual: int)
    requires Repairable(shares, order, residual) && InOrder(shares, order)
    ensures InOrder(Repair(shares, order, residual), order)
    decreases if residual < 0 then -residual else residual
  {
    var left := Left(shares, order, residual);
    if left != residual {
      PassKeeps(shares, order, residual);
      PassKeepsOrder(shares, order, residual);
      hide Repairable, Left, Passed, InOrder;
      RepairKeepsOrder(Passed(shares, order, residual), order, left);
    }
  }

  // ---------------------------------------------------------------- main results

  lemma {:induction false} SharesNonNegative(reward: int, m: map<string, int>)
    requires 0 <= reward && NonNegative(m) && 0 < Sum(m)
    ensures NonNegative(RoundedShares(reward, Sum(m), m)) && RoundedShares(reward, Sum(m), m).Keys == m.Keys
  {
    hide Sum, Rounded;
    forall p | p in m
      ensures 0 <= Rounded(reward, Sum(m), m[p])
    {
      RoundingDriftOne(reward, Sum(m), m[p]);
    }
  }

  lemma EmptyTotal(m: map<string, int>)
    requires 0 < Sum(m)
    ensures m != map[]
  {
  }

  /** Whatever the last digits of the shares, the passes can repair them: for every reward. */
  lemma {:induction false} RepairInputs(reward: int, m: map<string, int>)
    requires 0 <= reward && NonNegative(m) && 0 < Sum(m)
    ensures Repairable(RoundedShares(reward, Sum(m), m), Ordering(m), Residual(reward, m))
  {
    EmptyTotal(m);
    hide Sum, Rounded, RoundedShares, Ordering, EntryLe, SortedBy, Ids, DistinctIds;
    OrderingProperties(m);
    SharesNonNegative(reward, m);
    SumNonNegative(RoundedShares(reward, Sum(m), m));
    assert Ordering(m) != [];
  }

  /** For every reward the repaired shares sum to it, and none is negative. */
  lemma {:induction false} RepairedProperties(reward: int, m: map<string, int>)
    requires 0 <= reward && NonNegative(m) && 0 < Sum(m)
    ensures Repaired(reward, m).Keys == m.Keys && NonNegative(Repaired(reward, m)) && Sum(Repaired(reward, m)) == reward
  {
    RepairInputs(reward, m);
    SharesNonNegative(reward, m);
    hide Sum, Ordering, RoundedShares, Repairable, Repair;
    RepairConserves(RoundedShares(reward, Sum(m), m), Ordering(m), Residual(reward, m));
  }

  lemma {:induction false} PositivePartTotal(m: map<string, int>)
    requires NonNegative(m)
    ensures Sum(PositivePart(m)) == Sum(m)
  {
    hide Sum;
    SumDropZeros(m);
    assert PositivePart(m) == map p | p in m && m[p] != 0 :: m[p];
  }

  /** The posted rewards sum to exactly the pool: for every reward and whatever the last digits of the shares. */
  lemma {:induction false} AllocationConserves(reward: int, m: map<string, int>)
    requires 0 <= reward && NonNegative(m)
    ensures Sum(Allocation(reward, m)) == if 0 < Sum(m) then reward else 0
  {
    if 0 < Sum(m) {
      hide Sum, Repaired;
      RepairedProperties(reward, m);
      PositivePartTotal(Repaired(reward, m));
    }
  }

  lemma {:induction false} RoundedInOrder(reward: int, m: map<string, int>)
    requires 0 <= reward && NonNegative(m) && 0 < Sum(m)
    ensures InOrder(RoundedShares(reward, Sum(m), m), Ordering(m))
  {
    var shares, order := RoundedShares(reward, Sum(m), m), Ordering(m);
    OrderingProperties(m);
    hide Sum, HalfUpShare, Ordering, EntryLe;
    forall i, j | 0 <= i < j < |order|
      ensures Get(shares, order[i].id) <= Get(shares, order[j].id)
    {
      assert order[i] in order && order[j] in order;
      OrderBlocks(order, i, j);
      HalfUpShareMonotone(reward, order[i].amount, order[j].amount, Sum(m));
    }
  }

  /** A strictly larger contribution never earns less, even after the repair: for every reward. */
  lemma {:induction false} AllocationKeepsOrder(reward: int, m: map<string, int>, p: string, q: string)
    requires 0 <= reward && NonNegative(m) && 0 < Sum(m)
    requires p in m && q in m && m[q] < m[p]
    ensures Get(Allocation(reward, m), q) <= Get(Allocation(reward, m), p)
  {
    hide Sum, Repaired, Ordering, InOrder, EntryLe;
    RepairedProperties(reward, m);
    RepairedInOrder(reward, m);
    OrderingProperties(m);
    hide SortedBy, Enumerates, DistinctIds;
    LargerIsLater(m, Ordering(m), Repaired(reward, m), p, q);
  }

  lemma {:induction false} RepairedInOrder(reward: int, m: map<string, int>)
    requires 0 <= reward && NonNegative(m) && 0 < Sum(m)
    ensures InOrder(Repaired(reward, m), Ordering(m))
  {
    RepairInputs(reward, m);
    RoundedInOrder(reward, m);
    hide Sum, Ordering, RoundedShares, Repairable, Repair, InOrder;
    RepairKeepsOrder(RoundedShares(reward, Sum(m), m), Ordering(m), Residual(reward, m));
  }

  lemma LargerIsLater(m: map<string, int>, order: seq<Entry>, shares: map<string, int>, p: string, q: string)
    requires SortedBy(EntryLe, order) && Enumerates(order, m) && InOrder(shares, order)
    requires p in m && q in m && m[q] < m[p]
    ensures Get(shares, q) <= Get(shares, p)
  {
    hide EntryLe;
    var i := Locate(order, q);
    var j := Locate(order, p);
    assert order[i] in order && order[j] in order;
    EarlierIsSmaller(order, i, j);
  }

  /** q ranks above p: it contributed more, or the same and its id is greater by code points. */
  ghost predicate RanksAbove(m: map<string, int>, q: string, p: string)
    requires p in m && q in m
  {
    m[p] < m[q] || (m[p] == m[q] && CodePointLess(p, q))
  }

  lemma {:induction false} AboveIsLater(m: map<string, int>, order: seq<Entry>, i: nat, j: nat)
    requires SortedBy(EntryLe, order) && Enumerates(order, m) && i < |order| && j < |order|
    ensures order[i].id in m && order[j].id in m
    ensures RanksAbove(m, order[j].id, order[i].id) <==> i < j
  {
    assert order[i] in order && order[j] in order;
    var p, q := order[i].id, order[j].id;
    CodePointOrder(p, q);
    TextLeMeans(p, q);
    TextLeMeans(q, p);
    if i < j {
      assert EntryLe(order[i], order[j]);
    } else if j < i {
      assert EntryLe(order[j], order[i]);
    }
    hide TextLe, CodePointLess;
  }

  /** Of two players with equal contributions the one whose id is greater by code points never gets less: for every
  reward. */
  lemma {:induction false} EqualContributionsById(reward: int, m: map<string, int>, p: string, q: string)
    requires 0 <= reward && NonNegative(m) && 0 < Sum(m)
    requires p in m && q in m && m[p] == m[q] && CodePointLess(p, q)
    ensures Get(Allocation(reward, m), p) <= Get(Allocation(reward, m), q)
  {
    hide Sum, Repaired, Ordering, InOrder, EntryLe, CodePointLess;
    RepairedProperties(reward, m);
    RepairedInOrder(reward, m);
    OrderingProperties(m);
    hide SortedBy, Enumerates, DistinctIds;
    RankedIsLater(m, Ordering(m), Repaired(reward, m), p, q);
  }

  lemma {:induction false} RankedIsLater(m: map<string, int>, order: seq<Entry>, shares: map<string, int>, p: string,
                                         q: string)
    requires SortedBy(EntryLe, order) && Enumerates(order, m) && InOrder(shares, order)
    requires p in m && q in m && RanksAbove(m, q, p)
    ensures Get(shares, p) <= Get(shares, q)
  {
    hide EntryLe, SortedBy, CodePointLess, RanksAbove;
    var i := Locate(order, p);
    var j := Locate(order, q);
    AboveIsLater(m, order, i, j);
  }

  /** While 28 digits are accurate enough, one pass repairs everything. */
  lemma {:induction false} OnePass(reward: int, m: map<string, int>)
    requires 0 <= reward && NonNegative(m) && 0 < Sum(m) && Fine(reward)
    ensures var shares, order, residual := RoundedShares(reward, Sum(m), m), Ordering(m), Residual(reward, m);
      Left(shares, order, residual) == 0 && Repaired(reward, m) == Passed(shares, order, residual)
  {
    var shares, order, residual := RoundedShares(reward, Sum(m), m), Ordering(m), Residual(reward, m);
    OnePassSuffices(reward, m);
    hide Sum, Ordering, Rounded, RoundedShares, Positive, Chosen, Fine;
    assert Left(shares, order, residual) == 0;
    if residual == 0 {
      NobodyChosen(shares, order);
    } else {
      assert Repair(Passed(shares, order, residual), order, 0) == Passed(shares, order, residual);
    }
  }

  lemma NobodyChosen(shares: map<string, int>, order: seq<Entry>)
    ensures Passed(shares, order, 0) == shares
  {
    assert Ids(order[|order| - 0..]) == {};
  }

  /** Every repaired share is at most one unit away from the rounded share. */
  lemma {:induction false} RepairedShare(reward: int, m: map<string, int>, p: string)
    requires 0 <= reward && NonNegative(m) && 0 < Sum(m) && p in m && Fine(reward)
    ensures p in Repaired(reward, m) && Get(Allocation(reward, m), p) == Repaired(reward, m)[p]
    ensures -1 <= Repaired(reward, m)[p] - Rounded(reward, Sum(m), m[p]) <= 1
  {
    RepairedProperties(reward, m);
    OnePass(reward, m);
    hide Sum, Ordering, Rounded, Repaired, Chosen, Left, Fine;
  }

  /** got * total against exact: one and a half units, up to three halves of the last of 28 digits. */
  ghost predicate Close(exact: int, got: int, total: int) {
    && 2 * FIRST * (exact - got) <= 3 * exact + 3 * FIRST * total
    && 2 * FIRST * (got - exact) <= 3 * exact + 3 * FIRST * total
    && (Fine(exact) ==> 2 * exact - 3 * total <= 2 * got <= 2 * exact + 3 * total)
  }

  /** Every reward is within one and a half units of the exact proportional share reward * m[p] / Sum(m), as long as 28
  digits tell that share from its neighbours, and otherwise up to three halves of the last digit. */
  lemma {:induction false} AllocationCloseToShare(reward: int, m: map<string, int>, p: string)
    requires 0 <= reward && NonNegative(m) && 0 < Sum(m) && p in m && Fine(reward)
    ensures Close(reward * m[p], Get(Allocation(reward, m), p) * Sum(m), Sum(m))
  {
    RoundingDriftOne(reward, Sum(m), m[p]);
    hide Sum, Rounded, Allocation, Fine, Close, RoundedTo;
    RepairedShare(reward, m, p);
    hide Repaired;
    var share, got := Rounded(reward, Sum(m), m[p]), Get(Allocation(reward, m), p);
    OneUnit(share, got, Sum(m));
    CloseFromRounded(reward * m[p], share * Sum(m), got * Sum(m), Sum(m), if 0 < share then Sum(m) else 0);
  }

  lemma OneUnit(share: int, got: int, total: int)
    requires 0 < total && -1 <= got - share <= 1
    ensures share * total - total <= got * total <= share * total + total
  {
    ProductMonotone(share - 1, got, total);
    ProductMonotone(got, share + 1, total);
  }

  lemma CloseFromRounded(exact: int, rounded: int, got: int, total: int, up: int)
    requires RoundedTo(exact, rounded, total, up) && up <= total && 0 < total
    requires rounded - total <= got <= rounded + total
    ensures Close(exact, got, total)
  {
  }

  lemma ContributorShares(reward: int, total: int, m: map<string, int>)
    requires 0 <= reward && NonNegative(m) && 0 < total
    ensures Sum(RoundedShares(reward, total, PositivePart(m))) == Sum(RoundedShares(reward, total, m))
    ensures Sum(PositivePart(m)) == Sum(m)
  {
    hide Sum;
    PositivePartTotal(m);
    var shares, kept := RoundedShares(reward, total, m), RoundedShares(reward, total, PositivePart(m));
    SumDropZeros(shares);
    SumDropZeros(kept);
    SameNonZero(reward, total, m);
    hide RoundedShares, PositivePart;
  }

  lemma SameNonZero(reward: int, total: int, m: map<string, int>)
    requires 0 < total && NonNegative(m)
    ensures var shares, kept := RoundedShares(reward, total, m), RoundedShares(reward, total, PositivePart(m));
      (map p | p in shares && shares[p] != 0 :: shares[p]) == (map p | p in kept && kept[p] != 0 :: kept[p])
  {
    NoShare(reward, total);
    hide HalfUpShare;
  }

  /** The contributors alone, without the players that added nothing, cover an upward residual. */
  lemma {:induction false} ContributorsCoverResidual(reward: int, m: map<string, int>)
    requires 0 <= reward && NonNegative(m) && 0 < Sum(m) && Fine(reward)
    ensures 2 * Residual(reward, m) <= |PositivePart(m)|
  {
    hide Sum, RoundedShares, Fine;
    ContributorShares(reward, Sum(m), m);
    ResidualBounds(reward, PositivePart(m));
  }

  lemma {:induction false} ZeroNotChosen(reward: int, m: map<string, int>, p: string)
    requires 0 <= reward && NonNegative(m) && 0 < Sum(m) && p in m && m[p] == 0 && Fine(reward)
    ensures p !in Chosen(RoundedShares(reward, Sum(m), m), Ordering(m), Residual(reward, m))
  {
    var shares, order, residual := RoundedShares(reward, Sum(m), m), Ordering(m), Residual(reward, m);
    assert shares[p] == 0 by {
      NoShare(reward, Sum(m));
    }
    RepairInputs(reward, m);
    ContributorsCoverResidual(reward, m);
    hide Sum, Ordering, RoundedShares, Residual, Fine, EntryLe, SortedBy;
    if residual < 0 {
      ChosenProperties(shares, order, residual);
    } else {
      OrderingProperties(m);
      hide Repairable;
      ZeroIsEarly(m, order, residual, p);
    }
  }

  lemma {:induction false} ZeroIsEarly(m: map<string, int>, order: seq<Entry>, residual: int, p: string)
    requires SortedBy(EntryLe, order) && Enumerates(order, m) && p in m && m[p] == 0
    requires 0 <= 2 * residual <= |PositivePart(m)|
    ensures p !in Ids(order[|order| - Min(residual, |order|)..])
  {
    hide EntryLe, SortedBy;
    var i := Locate(order, p);
    assert order[i] in order;
    ContributorsAbove(m, order, i);
    var k := Min(residual, |order|);
    SliceIds(order, |order| - k, |order|);
    assert order[|order| - k..] == order[|order| - k..|order|];
    hide Ids, PositivePart;
  }

  lemma {:induction false} ContributorsAbove(m: map<string, int>, order: seq<Entry>, i: nat)
    requires SortedBy(EntryLe, order) && Enumerates(order, m)
    requires i < |order| && order[i].amount == 0
    ensures |PositivePart(m)| <= |order| - i - 1
  {
    var contributors := PositivePart(m);
    forall q | q in contributors
      ensures q in Ids(order[i + 1..|order|])
    {
      ContributorAbove(m, order, i, q);
    }
    SliceIds(order, i + 1, |order|);
    hide Ids, Enumerates, PositivePart;
    SubsetSize(contributors.Keys, Ids(order[i + 1..|order|]));
    assert |contributors.Keys| == |contributors|;
  }

  lemma ContributorAbove(m: map<string, int>, order: seq<Entry>, i: nat, q: string)
    requires SortedBy(EntryLe, order) && Enumerates(order, m)
    requires i < |order| && order[i].amount == 0 && q in m && 0 < m[q]
    ensures q in Ids(order[i + 1..|order|])
  {
    var j := Locate(order, q);
    assert order[j] in order;
    EarlierIsSmaller(order, i, j);
    assert order[i + 1..|order|][j - i - 1] == order[j];
  }

  /** A player without contribution gets nothing: every contributor is served before. */
  lemma {:induction false} ZeroGetsNothing(reward: int, m: map<string, int>, p: string)
    requires 0 <= reward && NonNegative(m) && 0 < Sum(m) && p in m && m[p] == 0 && Fine(reward)
    ensures p !in Allocation(reward, m)
  {
    assert RoundedShares(reward, Sum(m), m)[p] == 0 by {
      NoShare(reward, Sum(m));
    }
    OnePass(reward, m);
    ZeroNotChosen(reward, m, p);
    hide Sum, Ordering, RoundedShares, Chosen, Fine, Residual, Left, Repaired;
  }

  lemma EarlierIsSmaller(s: seq<Entry>, i: nat, j: nat)
    requires SortedBy(EntryLe, s) && i < |s| && j < |s|
    requires s[i].amount < s[j].amount
    ensures i < j
  {
    if j < i {
      OrderBlocks(s, j, i);
    }
  }

  lemma OrderBlocks(s: seq<Entry>, i: nat, j: nat)
    requires SortedBy(EntryLe, s) && i < j < |s|
    ensures s[i].amount <= s[j].amount
  {
    assert EntryLe(s[i], s[j]);
  }

  /** Nobody gets less than a contributor of lower rank. */
  ghost predicate FollowsRank(rewards: map<string, int>, m: map<string, int>) {
    forall p, q :: p in m && q in m && RanksAbove(m, q, p) ==> Get(rewards, p) <= Get(rewards, q)
  }

  /** More contribution, or the same and the greater id, never means a smaller reward: for every pool. */
  lemma {:induction false} AllocationFollowsRank(reward: int, m: map<string, int>)
    requires 0 <= reward && NonNegative(m)
    ensures FollowsRank(Allocation(reward, m), m)
  {
    if 0 < Sum(m) {
      hide Sum, Allocation, CodePointLess;
      forall p, q | p in m && q in m && RanksAbove(m, q, p)
        ensures Get(Allocation(reward, m), p) <= Get(Allocation(reward, m), q)
      {
        if m[p] == m[q] {
          EqualContributionsById(reward, m, p, q);
        } else {
          AllocationKeepsOrder(reward, m, q, p);
        }
      }
    }
  }

  lemma {:induction false} OrderedByRank(m: map<string, int>)
    ensures var order := Ordering(m);
      && |order| == |m|
      && (forall i :: 0 <= i < |order| ==> order[i].id in m && order[i].amount == m[order[i].id])
      && forall i, j :: 0 <= i < j < |order| ==> RanksAbove(m, order[j].id, order[i].id)
  {
    var order := Ordering(m);
    OrderingProperties(m);
    hide Ordering, SortedBy, EntryLe, RanksAbove, DistinctIds, Ids;
    forall i | 0 <= i < |order|
      ensures order[i].id in m && order[i].amount == m[order[i].id]
    {
      assert order[i] in order;
    }
    hide Enumerates;
    forall i, j | 0 <= i < j < |order|
      ensures RanksAbove(m, order[j].id, order[i].id)
    {
      AboveIsLater(m, order, i, j);
    }
  }

  // ---------------------------------------------------------------- who gains or loses a unit

  /** Everybody who ranks above p. */
  ghost function Above(m: map<string, int>, p: string): set<string>
    requires p in m
  {
    set q | q in m && RanksAbove(m, q, p)
  }

  /** Everybody with a positive rounded share who ranks below p. */
  ghost function PositiveBelow(reward: int, m: map<string, int>, p: string): set<string>
    requires 0 < Sum(m) && p in m
  {
    set q | q in m && RanksAbove(m, p, q) && 0 < Rounded(reward, Sum(m), m[q])
  }

  lemma {:induction false} AboveSize(m: map<string, int>, order: seq<Entry>, i: nat)
    requires SortedBy(EntryLe, order) && Enumerates(order, m) && i < |order|
    ensures order[i].id in m && |Above(m, order[i].id)| == |order| - i - 1
  {
    assert order[i] in order;
    var p, later := order[i].id, Ids(order[i + 1..|order|]);
    SliceIds(order, i + 1, |order|);
    hide EntryLe, SortedBy, RanksAbove, Ids;
    assert Above(m, p) == later by {
      forall q | q in m
        ensures q in Above(m, p) <==> q in later
      {
        var j := Locate(order, q);
        AboveIsLater(m, order, i, j);
      }
      assert later <= m.Keys;
    }
  }

  /** What one pass pays out, by membership. */
  lemma {:induction false} PaidByMembership(reward: int, m: map<string, int>, p: string)
    requires 0 <= reward && NonNegative(m) && 0 < Sum(m) && p in m && Fine(reward)
    ensures var chosen := Chosen(RoundedShares(reward, Sum(m), m), Ordering(m), Residual(reward, m));
      Get(Allocation(reward, m), p)
        == Rounded(reward, Sum(m), m[p])
           + (if p in chosen then (if 0 <= Residual(reward, m) then 1 else -1) else 0)
  {
    RepairedShare(reward, m, p);
    OnePass(reward, m);
    hide Sum, Ordering, Rounded, Repaired, Allocation, Chosen, Left, Fine, Residual;
  }

  lemma {:induction false} ChosenAbove(m: map<string, int>, order: seq<Entry>, residual: nat, p: string)
    requires SortedBy(EntryLe, order) && Enumerates(order, m) && p in m && residual <= |order|
    ensures p in Ids(order[|order| - residual..]) <==> |Above(m, p)| < residual
  {
    hide EntryLe, SortedBy, Above, Ids;
    var i := Locate(order, p);
    AboveSize(m, order, i);
    SliceIds(order, |order| - residual, |order|);
    assert order[|order| - residual..] == order[|order| - residual..|order|];
  }

  /** Of what rounding left over, exactly the highest ranked players get a unit each. */
  lemma {:induction false} WhoGainsAUnit(reward: int, m: map<string, int>, p: string)
    requires 0 <= reward && NonNegative(m) && 0 < Sum(m) && p in m && Fine(reward) && 0 <= Residual(reward, m)
    ensures Get(Allocation(reward, m), p)
      == Rounded(reward, Sum(m), m[p]) + (if |Above(m, p)| < Residual(reward, m) then 1 else 0)
  {
    hide Sum, Ordering, Rounded, RoundedShares, Allocation, Positive, Fine, EntryLe, SortedBy, Above, Ids, Residual,
      Enumerates;
    PaidByMembership(reward, m, p);
    OnePassSuffices(reward, m);
    OrderingProperties(m);
    ChosenAbove(m, Ordering(m), Residual(reward, m), p);
  }

  lemma {:induction false} PayerRank(reward: int, m: map<string, int>, order: seq<Entry>, i: nat)
    requires 0 < Sum(m) && SortedBy(EntryLe, order) && Enumerates(order, m) && i < |order|
    ensures order[i].id in m
    ensures |PositiveBelow(reward, m, order[i].id)| == |Positive(RoundedShares(reward, Sum(m), m), order[..i])|
  {
    var shares, p, below := RoundedShares(reward, Sum(m), m), order[i].id, order[..i];
    assert order[i] in order;
    BelowSorted(order, i);
    PositiveProperties(shares, below);
    var paid := Positive(shares, below);
    IdsSize(paid);
    hide EntryLe, SortedBy, RanksAbove, Sum, Rounded, Positive;
    assert PositiveBelow(reward, m, p) == Ids(paid) by {
      forall q | q in m
        ensures q in PositiveBelow(reward, m, p) <==> q in Ids(paid)
      {
        RankAmong(reward, m, order, i, q, paid);
      }
      forall q | q in Ids(paid)
        ensures q in m
      {
        var k := Locate(paid, q);
        assert paid[k] in paid && paid[k] in order;
      }
    }
  }

  lemma BelowSorted(order: seq<Entry>, i: nat)
    requires SortedBy(EntryLe, order) && DistinctIds(order) && i <= |order|
    ensures SortedBy(EntryLe, order[..i]) && DistinctIds(order[..i])
    ensures forall e :: e in order[..i] ==> e in order
  {
    hide EntryLe;
  }

  lemma {:induction false} RankAmong(reward: int, m: map<string, int>, order: seq<Entry>, i: nat, q: string,
                                     paid: seq<Entry>)
    requires 0 < Sum(m) && SortedBy(EntryLe, order) && Enumerates(order, m) && i < |order| && q in m
    requires order[i].id in m
    requires forall e :: e in paid <==> e in order[..i] && 0 < Get(RoundedShares(reward, Sum(m), m), e.id)
    ensures q in PositiveBelow(reward, m, order[i].id) <==> q in Ids(paid)
  {
    hide EntryLe, SortedBy, RanksAbove, Sum, Rounded;
    var j := Locate(order, q);
    assert order[j] in order;
    AboveIsLater(m, order, j, i);
    if j < i {
      assert order[..i][j] == order[j];
      if 0 < Get(RoundedShares(reward, Sum(m), m), q) {
        assert order[j] in paid;
        var k :| 0 <= k < |paid| && paid[k] == order[j];
      }
    }
    if q in Ids(paid) {
      var k := Locate(paid, q);
      assert paid[k] in paid;
      var l :| 0 <= l < i && order[..i][l] == paid[k];
      assert order[l].id == order[j].id;
    }
  }

  /** Of what rounding overspent, exactly the lowest ranked players with a positive rounded share pay a unit each. */
  lemma {:induction false} WhoLosesAUnit(reward: int, m: map<string, int>, p: string)
    requires 0 <= reward && NonNegative(m) && 0 < Sum(m) && p in m && Fine(reward) && Residual(reward, m) < 0
    ensures Get(Allocation(reward, m), p)
      == Rounded(reward, Sum(m), m[p])
         - (if 0 < Rounded(reward, Sum(m), m[p]) && |PositiveBelow(reward, m, p)| < -Residual(reward, m) then 1 else 0)
  {
    hide Sum, Ordering, Rounded, Allocation, Positive, Fine, EntryLe, SortedBy, PositiveBelow, Ids, Residual,
      Enumerates, Repairable, Chosen;
    PaidByMembership(reward, m, p);
    OnePassSuffices(reward, m);
    OrderingProperties(m);
    RepairInputs(reward, m);
    ChosenBelow(reward, m, Ordering(m), Residual(reward, m), p);
  }

  lemma {:induction false} ChosenBelow(reward: int, m: map<string, int>, order: seq<Entry>, residual: int, p: string)
    requires 0 < Sum(m) && SortedBy(EntryLe, order) && Enumerates(order, m) && p in m && residual < 0
    requires Repairable(RoundedShares(reward, Sum(m), m), order, residual)
    requires -residual <= |Positive(RoundedShares(reward, Sum(m), m), order)|
    ensures p in Chosen(RoundedShares(reward, Sum(m), m), order, residual)
      <==> 0 < Rounded(reward, Sum(m), m[p]) && |PositiveBelow(reward, m, p)| < -residual
  {
    var shares := RoundedShares(reward, Sum(m), m);
    hide Sum, Rounded, EntryLe, SortedBy, PositiveBelow, Ids, Repairable, Positive, DistinctIds, Chosen;
    var i := Locate(order, p);
    PayerRank(reward, m, order, i);
    if 0 < shares[p] {
      ChosenPayer(shares, order, residual, i);
    } else {
      ChosenProperties(shares, order, residual);
    }
  }

  lemma {:induction false} ChosenPayer(shares: map<string, int>, order: seq<Entry>, residual: int, i: nat)
    requires SortedBy(EntryLe, order) && DistinctIds(order) && residual < 0 && i < |order|
    requires -residual <= |Positive(shares, order)| && 0 < Get(shares, order[i].id)
    ensures order[i].id in Chosen(shares, order, residual) <==> |Positive(shares, order[..i])| < -residual
  {
    PayerPosition(shares, order, i);
    PayersDistinct(shares, order);
    hide Positive, DistinctIds, Ids, SortedBy, EntryLe;
    ByPosition(Positive(shares, order), -residual, |Positive(shares, order[..i])|);
  }

  lemma PayersDistinct(shares: map<string, int>, order: seq<Entry>)
    requires SortedBy(EntryLe, order) && DistinctIds(order)
    ensures DistinctIds(Positive(shares, order))
  {
    hide EntryLe;
    PositiveProperties(shares, order);
  }

  lemma ByPosition(payers: seq<Entry>, k: nat, at: nat)
    requires DistinctIds(payers) && k <= |payers| && at < |payers|
    ensures payers[at].id in Ids(payers[..k]) <==> at < k
  {
    SliceIds(payers, 0, k);
    assert payers[..k] == payers[0..k];
    hide Ids;
  }

  lemma OneHalfOfOne()
    ensures Rounded(1, 2, 1) == 1
  {
    Powers();
    hide Power10, ShareOf;
    ShareInDigits(1, 1, 2, 28, 5 * FIRST, 28, 5 * FIRST);
  }

  /** One unit for two equal contributors: both shares are rounded up, and the smaller id pays the unit back. */
  lemma TheSmallerIdPays()
    ensures Allocation(1, map["a" := 1, "b" := 1]) == map["b" := 1]
  {
    hide *;
    var m := map["a" := 1, "b" := 1];
    TwoShares();
    TwoRanks(m);
    assert |PositiveBelow(1, m, "a")| == 0 && |PositiveBelow(1, m, "b")| == 1;
    WhoLosesAUnit(1, m, "a");
    WhoLosesAUnit(1, m, "b");
    OnlyPositive(1, m);
    Got(Allocation(1, m), "a", 0);
    Got(Allocation(1, m), "b", 1);
  }

  lemma TwoShares()
    ensures var m := map["a" := 1, "b" := 1];
      && Sum(m) == 2 && Residual(1, m) == -1 && Rounded(1, 2, 1) == 1 && NonNegative(m) && Fine(1)
      && CodePointLess("a", "b")
  {
    var m := map["a" := 1, "b" := 1];
    OneHalfOfOne();
    TwoTotal(m, 1);
    assert SmallerAt("a", "b", 0);
    hide Sum, Rounded;
    assert RoundedShares(1, 2, m) == m;
  }

  lemma Got(m: map<string, int>, p: string, amount: int)
    requires Get(m, p) == amount
    ensures p in m ==> m[p] == amount
    ensures amount != 0 ==> p in m
  {
  }

  lemma OnlyPositive(reward: int, m: map<string, int>)
    requires 0 <= reward && NonNegative(m) && 0 < Sum(m)
    ensures forall p :: p in Allocation(reward, m) ==> p in m && 0 < Allocation(reward, m)[p]
  {
    RepairedProperties(reward, m);
    hide Repaired, Sum;
  }

  lemma TwoTotal(m: map<string, int>, value: int)
    requires m.Keys == {"a", "b"} && m["a"] == m["b"] == value
    ensures Sum(m) == 2 * value
  {
    var none: map<string, int> := map[];
    assert Sum(none) == 0;
    hide Sum;
    SumUpdate(none, "a", value);
    SumUpdate(none["a" := value], "b", value);
    assert m == none["a" := value]["b" := value];
  }

  lemma TwoRanks(m: map<string, int>)
    requires m == map["a" := 1, "b" := 1] && CodePointLess("a", "b") && Sum(m) == 2 && Rounded(1, 2, 1) == 1
    ensures PositiveBelow(1, m, "a") == {} && PositiveBelow(1, m, "b") == {"a"}
  {
    CodePointOrder("a", "b");
    CodePointOrder("b", "b");
    hide Sum, Rounded, CodePointLess;
  }

  // ---------------------------------------------------------------- what the last digit does

  function Four(a: int, b: int, c: int, d: int): map<string, int> {
    map["a" := a, "b" := b, "c" := c, "d" := d]
  }

  lemma FourTotal(a: int, b: int, c: int, d: int)
    ensures Sum(Four(a, b, c, d)) == a + b + c + d
  {
    assert Sum<string>(map[]) == 0;
    hide Sum;
    var none: map<string, int> := map[];
    SumUpdate(none, "a", a);
    SumUpdate(none["a" := a], "b", b);
    SumUpdate(none["a" := a]["b" := b], "c", c);
    SumUpdate(none["a" := a]["b" := b]["c" := c], "d", d);
    assert Four(a, b, c, d) == none["a" := a]["b" := b]["c" := c]["d" := d];
  }

  /** 121 * 11 / 242 is 5.5, but 11 / 242 with 28 digits is a little too small. */
  lemma TiedElevens()
    ensures Rounded(121, 242, 11) == 5
  {
    Powers();
    hide Power10, ShareOf;
    ShareInDigits(121, 11, 242, 29, 4_545_454_545_454_545_454_545_454_545, 27, 5_499_999_999_999_999_999_999_999_999);
  }

  lemma TiedFortyOne()
    ensures Rounded(121, 242, 41) == 20
  {
    Powers();
    hide Power10, ShareOf;
    ShareInDigits(121, 41, 242, 28, 1_694_214_876_033_057_851_239_669_421, 26, 2_049_999_999_999_999_999_999_999_999);
  }

  lemma TiedRest()
    ensures Rounded(121, 242, 179) == 89
  {
    Powers();
    hide Power10, ShareOf;
    ShareInDigits(121, 179, 242, 28, 7_396_694_214_876_033_057_851_239_669, 26, 8_949_999_999_999_999_999_999_999_999);
  }

  /** The bound of half the players is reached: of 121 units for contributions of 11, 11, 41 and 179 every exact share
  ends in a half, every share with 28 digits falls just below it and is rounded down, and two units are left over for
  four players. Exact shares would all be rounded up and overspend two units. */
  lemma TiesLeaveHalf()
    ensures var m := Four(11, 11, 41, 179);
      && Sum(m) == 242 && RoundedShares(121, Sum(m), m) == Four(5, 5, 20, 89)
      && 2 * Residual(121, m) == |m| == 4
    ensures RoundHalfUp(121 * 11, 242) == 6 && RoundHalfUp(121 * 41, 242) == 21 && RoundHalfUp(121 * 179, 242) == 90
  {
    var m := Four(11, 11, 41, 179);
    hide Rounded, Sum;
    FourTotal(11, 11, 41, 179);
    FourTotal(5, 5, 20, 89);
    TiedElevens();
    TiedFortyOne();
    TiedRest();
    assert m.Keys == {"a", "b", "c", "d"};
    assert |m.Keys| == 4;
  }

  // ---------------------------------------------------------------- the code

  /** sorted(contributions, key=(contribution, share, player id)). */
  method OrderPlayers(m: map<string, int>) returns (order: seq<Entry>)
    ensures order == Ordering(m)
    // each contributor once, and every one ranks above those before
    ensures |order| == |m| && forall i :: 0 <= i < |order| ==> order[i].id in m && order[i].amount == m[order[i].id]
    ensures forall i, j :: 0 <= i < j < |order| ==> RanksAbove(m, order[j].id, order[i].id)
  {
    EntryOrder();
    order := ArrangeSet(EntryLe, Entries(m));
    OrderedByRank(m);
  }

  /** The first loop: every share, rounded. */
  method RoundShares(totalReward: int, totalContribution: int, contributions: map<string, int>)
    returns (rounded: map<string, int>)
    requires 0 < totalContribution
    ensures rounded == RoundedShares(totalReward, totalContribution, contributions)
  {
    hide Rounded;
    rounded := map[];
    var remaining := contributions.Keys;
    while remaining != {}
      invariant rounded.Keys == contributions.Keys - remaining && remaining <= contributions.Keys
      invariant forall p :: p in rounded ==> rounded[p] == Rounded(totalReward, totalContribution, contributions[p])
      decreases |remaining|
    {
      var p :| p in remaining;
      rounded := rounded[p := Rounded(totalReward, totalContribution, contributions[p])];
      remaining := remaining - {p};
    }
  }

  /** allocate_player_rewards. */
  method AllocatePlayerRewards(totalReward: int, contributions: map<string, int>)
    returns (rewards: map<string, int>)
    requires 0 <= totalReward && NonNegative(contributions)
    ensures rewards == Allocation(totalReward, contributions)
    ensures Sum(rewards) == if 0 < Sum(contributions) then totalReward else 0
    ensures FollowsRank(rewards, contributions)
  {
    AllocationConserves(totalReward, contributions);
    AllocationFollowsRank(totalReward, contributions);
    hide Sum, Rounded, RoundedShares, Ordering, Repairable, Repair, FollowsRank;
    var totalContribution := Total(contributions);
    if totalContribution <= 0 {
      return map[];
    }
    var rounded := RoundShares(totalReward, totalContribution, contributions);
    var roundedSum := Total(rounded);
    var residual := totalReward - roundedSum;
    var order := OrderPlayers(contributions);
    RepairInputs(totalReward, contributions);
    if residual > 0 {
      rounded := RaiseLargest(order, residual, rounded);
    } else if residual < 0 {
      rounded := LowerSmallest(order, residual, rounded);
    } else {
      NothingToRepair(rounded, order);
    }
    rewards := PositivePart(rounded);
  }

  lemma NothingToRepair(shares: map<string, int>, order: seq<Entry>)
    ensures Repair(shares, order, 0) == shares
  {
  }

  lemma OnePassMore(shares: map<string, int>, order: seq<Entry>, residual: int)
    requires Left(shares, order, residual) != residual
    ensures Repair(shares, order, residual)
      == Repair(Passed(shares, order, residual), order, Left(shares, order, residual))
  {
  }

  /** The upward loop: passes over the players, largest first, one unit each. */
  method RaiseLargest(order: seq<Entry>, residual0: int, shares: map<string, int>) returns (rounded: map<string, int>)
    requires 0 < residual0 && Repairable(shares, order, residual0)
    ensures rounded == Repair(shares, order, residual0)
  {
    hide Repair, Repairable, Ids, SortedBy, EntryLe, Passed, Left, Sum;
    rounded := shares;
    var residual := residual0;
    var n := |order|;
    while residual > 0
      invariant 0 <= residual && Repairable(rounded, order, residual)
      invariant Repair(rounded, order, residual) == Repair(shares, order, residual0)
      decreases residual
    {
      ghost var start, before := rounded, residual;
      OrderListed(start, order, before);
      BumpNobody(start, order);
      var i := 0;
      while i < n && residual > 0
        invariant 0 <= i <= n && residual == before - i && 0 <= residual
        invariant rounded == Bump(start, Ids(order[n - i..]), 1)
        decreases n - i
      {
        RaiseOneMore(order, n - 1 - i, start);
        rounded := rounded[order[n - 1 - i].id := rounded[order[n - 1 - i].id] + 1];
        residual := residual - 1;
        i := i + 1;
      }
      RaisedPass(start, order, before, i);
      PassKeeps(start, order, before);
      OnePassMore(start, order, before);
    }
    NothingToRepair(rounded, order);
  }

  lemma OrderListed(shares: map<string, int>, order: seq<Entry>, residual: int)
    requires Repairable(shares, order, residual)
    ensures DistinctIds(order) && SortedBy(EntryLe, order) && (0 < residual ==> order != [])
    ensures forall i :: 0 <= i < |order| ==> order[i].id in shares
  {
    hide EntryLe;
    forall i | 0 <= i < |order|
      ensures order[i].id in shares
    {
      assert order[i].id in Ids(order);
    }
  }

  lemma RaisedPass(start: map<string, int>, order: seq<Entry>, before: int, i: int)
    requires 0 < before && order != [] && 0 <= i <= |order| && i <= before && (i == |order| || i == before)
    ensures Passed(start, order, before) == Bump(start, Ids(order[|order| - i..]), 1)
    ensures Left(start, order, before) == before - i != before
  {
    assert i == Min(before, |order|);
  }

  lemma BumpNobody(shares: map<string, int>, order: seq<Entry>)
    ensures Ids(order[|order| - 0..]) == {} && Bump(shares, {}, 1) == shares
  {
  }

  /** Counting one more player among those that gained a unit. */
  lemma RaiseOneMore(order: seq<Entry>, at: nat, shares: map<string, int>)
    requires at < |order| && DistinctIds(order) && order[at].id in shares
    ensures var before := Bump(shares, Ids(order[at + 1..]), 1);
      order[at].id in before && Bump(shares, Ids(order[at..]), 1) == before[order[at].id := before[order[at].id] + 1]
  {
    var p, tail := order[at].id, order[at + 1..];
    forall k | 0 <= k < |tail|
      ensures tail[k].id != p
    {
      assert tail[k] == order[at + 1 + k];
    }
    assert order[at..] == [order[at]] + tail;
    IdsCons(order[at], tail);
  }

  lemma IdsCons(e: Entry, s: seq<Entry>)
    ensures Ids([e] + s) == Ids(s) + {e.id}
    ensures Ids(s + [e]) == Ids(s) + {e.id}
  {
    assert ([e] + s)[0] == e && (s + [e])[|s|] == e;
    assert forall k :: 0 <= k < |s| ==> ([e] + s)[k + 1] == s[k];
    assert forall k :: 0 <= k < |s| ==> (s + [e])[k] == s[k];
  }

  /** The downward loop: passes over the players, smallest first, one unit each from those above zero. */
  method LowerSmallest(order: seq<Entry>, residual0: int, shares: map<string, int>) returns (rounded: map<string, int>)
    requires residual0 < 0 && Repairable(shares, order, residual0)
    ensures rounded == Repair(shares, order, residual0)
  {
    hide Repair, Repairable, Ids, SortedBy, EntryLe, Passed, Left, Sum, Bump, Positive;
    rounded := shares;
    var residual := residual0;
    var n := |order|;
    while residual < 0
      invariant residual <= 0 && Repairable(rounded, order, residual)
      invariant Repair(rounded, order, residual) == Repair(shares, order, residual0)
      decreases -residual
    {
      ghost var start, before := rounded, residual;
      OrderListed(start, order, before);
      LowerNobody(order, start);
      var i := 0;
      while i < n && residual < 0
        invariant 0 <= i <= n && residual == before + |Positive(start, order[..i])| && residual <= 0
        invariant rounded == Bump(start, Ids(Positive(start, order[..i])), -1)
        decreases n - i
      {
        LowerOneMore(order, i, start);
        if rounded[order[i].id] > 0 {
          rounded := rounded[order[i].id := rounded[order[i].id] - 1];
          residual := residual + 1;
        }
        i := i + 1;
      }
      LoweredPass(start, order, before, i);
      PassKeeps(start, order, before);
      OnePassMore(start, order, before);
    }
    NothingToRepair(rounded, order);
  }

  lemma LoweredPass(start: map<string, int>, order: seq<Entry>, before: int, i: nat)
    requires Repairable(start, order, before) && before < 0 && i <= |order|
    requires var paid := |Positive(start, order[..i])|;
      paid <= -before && (i == |order| || paid == -before)
    ensures var paid := Positive(start, order[..i]);
      && Passed(start, order, before) == Bump(start, Ids(paid), -1)
      && Left(start, order, before) == before + |paid| != before
  {
    ChosenProperties(start, order, before);
    PositivePrefix(start, order, i);
    var payers, paid := Positive(start, order), Positive(start, order[..i]);
    if i == |order| {
      assert order[..i] == order;
    }
    hide Positive, Repairable;
    assert Min(-before, |payers|) == |paid|;
    assert payers[..|paid|] == paid;
  }

  lemma LowerNobody(order: seq<Entry>, shares: map<string, int>)
    ensures Positive(shares, order[..0]) == [] && Bump(shares, Ids([]), -1) == shares
  {
    assert order[..0] == [];
  }

  /** Looking at one more player on the way down. */
  lemma {:induction false} LowerOneMore(order: seq<Entry>, at: nat, shares: map<string, int>)
    requires at < |order| && SortedBy(EntryLe, order) && DistinctIds(order) && order[at].id in shares
    ensures var p := order[at].id;
      var paid := Positive(shares, order[..at]);
      var before := Bump(shares, Ids(paid), -1);
      && p in before
      && (if 0 < before[p]
          then Positive(shares, order[..at + 1]) == paid + [order[at]]
            && Bump(shares, Ids(paid + [order[at]]), -1) == before[p := before[p] - 1]
          else Positive(shares, order[..at + 1]) == paid)
  {
    var paid := Positive(shares, order[..at]);
    PositiveOneMore(shares, order, at);
    PositiveProperties(shares, order[..at]);
    hide Positive;
    NotAmong(order, at, paid);
    hide SortedBy, DistinctIds, Ids;
    LowerAlsoOne(shares, paid, order[at]);
  }

  lemma NotAmong(order: seq<Entry>, at: nat, part: seq<Entry>)
    requires at < |order| && DistinctIds(order) && forall e :: e in part ==> e in order[..at]
    ensures order[at].id !in Ids(part)
  {
    forall k | 0 <= k < |part|
      ensures part[k].id != order[at].id
    {
      assert part[k] in order[..at];
    }
  }

  lemma LowerAlsoOne(shares: map<string, int>, paid: seq<Entry>, e: Entry)
    requires e.id in shares && e.id !in Ids(paid)
    ensures var before := Bump(shares, Ids(paid), -1);
      && e.id in before && before[e.id] == shares[e.id]
      && Bump(shares, Ids(paid + [e]), -1) == before[e.id := before[e.id] - 1]
  {
    IdsCons(e, paid);
    hide Ids;
  }
}
