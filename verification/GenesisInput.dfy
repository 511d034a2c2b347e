/** What the genesis block depends on (server/domain/genesis/service.py). */
module GenesisInput {
  import opened Numbers
  import opened Sorting
  import opened Text
  import opened Genesis

  // ---------------------------------------------------------------- the players

  /** A snapshot keeps the player, with the balance to the nearest unit and a tier of at least 1. */
  ghost predicate Keeps(input: PlayerInput, s: Snapshot) {
    && s.playerId == input.playerId && s.joinedAt == input.joinedAt && s.migrated == input.migrated
    && s.tier == (if input.tier < 1 then 1 else input.tier)
    && var exact := input.balance.num * 1_000_000;
    && 2 * exact - input.balance.den <= 2 * (s.balance * input.balance.den) <= 2 * exact + input.balance.den
    && (2 * (s.balance * input.balance.den) in {2 * exact - input.balance.den, 2 * exact + input.balance.den} ==>
          s.balance % 2 == 0)
  }

  ghost function Normalized(inputs: seq<PlayerInput>): seq<Snapshot> {
    seq(|inputs|, i requires 0 <= i < |inputs| => Normalize(inputs[i]))
  }

  lemma PlayerOrder()
    ensures TotalPreorder(PlayerLe)
  {
    TextOrder();
    hide TextLe;
    assert forall a: Snapshot, b: Snapshot :: TextLe(a.playerId, b.playerId) || TextLe(b.playerId, a.playerId);
  }

  /** The genesis holds every player that was loaded, each as often as it was loaded, in code-point order. */
  lemma EveryPlayerOnce(inputs: seq<PlayerInput>)
    ensures var snapshots := NormalizeAll(inputs);
      && multiset(snapshots) == multiset(Normalized(inputs)) && |snapshots| == |inputs|
      && (forall i :: 0 <= i < |inputs| ==> Keeps(inputs[i], Normalized(inputs)[i]))
      && (forall i, j :: 0 <= i < j < |snapshots| ==>
            snapshots[i].playerId == snapshots[j].playerId
            || CodePointLess(snapshots[i].playerId, snapshots[j].playerId))
  {
    PlayerOrder();
    SortCorrect(PlayerLe, Normalized(inputs));
    hide TextLe, Normalize, CodePointLess, Keeps;
    forall i | 0 <= i < |inputs|
      ensures Keeps(inputs[i], Normalized(inputs)[i])
    {
      NormalizeKeeps(inputs[i]);
    }
    var snapshots := NormalizeAll(inputs);
    forall i, j | 0 <= i < j < |snapshots|
      ensures snapshots[i].playerId == snapshots[j].playerId
        || CodePointLess(snapshots[i].playerId, snapshots[j].playerId)
    {
      assert PlayerLe(snapshots[i], snapshots[j]);
      TextLeMeans(snapshots[i].playerId, snapshots[j].playerId);
    }
  }

  lemma NormalizeKeeps(input: PlayerInput)
    ensures Keeps(input, Normalize(input))
  {
  }

  // ---------------------------------------------------------------- the order of loading

  /** Entries of one player are equal. */
  ghost predicate OnePerPlayer(snapshots: seq<Snapshot>) {
    forall x, y :: x in snapshots && y in snapshots && x.playerId == y.playerId ==> x == y
  }

  lemma NormalizedParts(first: seq<PlayerInput>, second: seq<PlayerInput>)
    ensures Normalized(first + second) == Normalized(first) + Normalized(second)
  {
    hide Normalize;
  }

  lemma TakenOut<T>(s: seq<T>, j: nat)
    requires j < |s|
    ensures s == s[..j] + ([s[j]] + s[j + 1..])
    ensures multiset(s) == multiset(s[..j] + s[j + 1..]) + multiset{s[j]}
  {
    assert s == s[..j] + ([s[j]] + s[j + 1..]);
  }

  lemma NormalizedWithout(b: seq<PlayerInput>, j: nat)
    requires j < |b|
    ensures multiset(Normalized(b)) == multiset(Normalized(b[..j] + b[j + 1..])) + multiset{Normalize(b[j])}
  {
    TakenOut(b, j);
    NormalizedParts(b[..j], [b[j]] + b[j + 1..]);
    NormalizedParts([b[j]], b[j + 1..]);
    NormalizedParts(b[..j], b[j + 1..]);
    assert Normalized([b[j]]) == [Normalize(b[j])];
    hide Normalized, Normalize;
  }

  /** The first element of a, found in b. */
  lemma FindFirst<T>(a: seq<T>, b: seq<T>) returns (j: nat)
    requires multiset(a) == multiset(b) && a != []
    ensures j < |b| && b[j] == a[0]
    ensures multiset(b[..j] + b[j + 1..]) == multiset(a[1..])
  {
    SplitFirst(a);
    assert a[0] in multiset(b);
    j :| 0 <= j < |b| && b[j] == a[0];
    TakenOut(b, j);
    assert multiset(a[1..]) == multiset(a) - multiset{a[0]};
    assert multiset(b[..j] + b[j + 1..]) == multiset(b) - multiset{b[j]};
  }

  lemma {:induction false} MappedContents(a: seq<PlayerInput>, b: seq<PlayerInput>)
    requires multiset(a) == multiset(b)
    ensures multiset(Normalized(a)) == multiset(Normalized(b))
    decreases |a|
  {
    hide Normalized, Normalize;
    if a == [] {
      assert |multiset(b)| == 0;
    } else {
      var j := FindFirst(a, b);
      MappedContents(a[1..], b[..j] + b[j + 1..]);
      NormalizedWithout(a, 0);
      assert a[..0] + a[1..] == a[1..];
      NormalizedWithout(b, j);
    }
  }

  lemma {:induction false} SameHead(a: seq<Snapshot>, b: seq<Snapshot>)
    requires TotalPreorder(PlayerLe) && Antisymmetric(TextLe) && OnePerPlayer(a) && a != []
    requires SortedBy(PlayerLe, a) && SortedBy(PlayerLe, b) && multiset(a) == multiset(b)
    ensures b != [] && a[0] == b[0] && multiset(a[1..]) == multiset(b[1..])
  {
    hide TextLe, SortedBy;
    SplitFirst(a);
    FirstIsLeast(PlayerLe, b, a[0]);
    SplitFirst(b);
    FirstIsLeast(PlayerLe, a, b[0]);
    assert b[0] in a;
    hide TotalPreorder;
    assert a[0] == b[0];
    assert multiset(a[1..]) == multiset(a) - multiset{a[0]};
    assert multiset(b[1..]) == multiset(b) - multiset{b[0]};
  }

  lemma {:induction false} SortedByPlayerUnique(a: seq<Snapshot>, b: seq<Snapshot>)
    requires TotalPreorder(PlayerLe) && Antisymmetric(TextLe) && OnePerPlayer(a)
    requires SortedBy(PlayerLe, a) && SortedBy(PlayerLe, b) && multiset(a) == multiset(b)
    ensures a == b
  {
    hide TextLe, TotalPreorder, Antisymmetric, PlayerLe;
    if a == [] {
      assert |multiset(b)| == 0;
    } else {
      SameHead(a, b);
      SortedByPlayerUnique(a[1..], b[1..]);
      assert a == [a[0]] + a[1..] && b == [b[0]] + b[1..];
    }
  }

  /** The order in which players are loaded plays no part: with one entry for each player, the same players give the
  same snapshots, and so the same root, hash and signature. */
  lemma {:induction false} LoadOrderIsIrrelevant(setup: Setup, s: State, id: string, createdAt: int, admin: string,
                                                 a: seq<PlayerInput>, b: seq<PlayerInput>)
    requires multiset(a) == multiset(b) && OnePerPlayer(Normalized(a))
    ensures NormalizeAll(a) == NormalizeAll(b)
    ensures Apply(setup, s, Create(id, createdAt, admin, a)) == Apply(setup, s, Create(id, createdAt, admin, b))
  {
    PlayerOrder();
    TextOrder();
    MappedContents(a, b);
    SortCorrect(PlayerLe, Normalized(a));
    SortCorrect(PlayerLe, Normalized(b));
    hide TextLe, Normalize, MerkleRoot, TotalPreorder, Antisymmetric, SortedBy;
    forall x
      ensures x in NormalizeAll(a) <==> x in Normalized(a)
    {
      assert x in NormalizeAll(a) <==> x in multiset(NormalizeAll(a));
      assert x in Normalized(a) <==> x in multiset(Normalized(a));
    }
    SortedByPlayerUnique(NormalizeAll(a), NormalizeAll(b));
  }

  // ---------------------------------------------------------------- the tree and the chain id

  /** One, two and three players: an odd last digest is paired with itself. */
  lemma SmallTrees(a: Snapshot, b: Snapshot, c: Snapshot)
    ensures MerkleRoot([a]) == LeafHash(a)
    ensures MerkleRoot([a, b]) == PairHash(LeafHash(a), LeafHash(b))
    ensures MerkleRoot([a, b, c])
      == PairHash(PairHash(LeafHash(a), LeafHash(b)), PairHash(LeafHash(c), LeafHash(c)))
  {
    assert Leaves([a]) == [LeafHash(a)];
    assert Leaves([a, b]) == [LeafHash(a), LeafHash(b)];
    assert NextLevel(Leaves([a, b])) == [PairHash(LeafHash(a), LeafHash(b))];
    assert Root([PairHash(LeafHash(a), LeafHash(b))]) == PairHash(LeafHash(a), LeafHash(b));
    var next := [PairHash(LeafHash(a), LeafHash(b)), PairHash(LeafHash(c), LeafHash(c))];
    assert NextLevel(Leaves([a, b, c])) == next;
    assert NextLevel(next) == [PairHash(next[0], next[1])];
    assert Root([PairHash(next[0], next[1])]) == PairHash(next[0], next[1]);
    assert Root(next) == Root(NextLevel(next));
  }

  lemma {:induction false} NextOfHalves(a: seq<Hash>, b: seq<Hash>, half: nat)
    requires |a| == |b| == 2 * half
    ensures NextLevel(a + b) == NextLevel(a) + NextLevel(b)
    ensures |NextLevel(a)| == |NextLevel(b)| == half
  {
    var all := a + b;
    assert Padded(all) == all && Padded(a) == a && Padded(b) == b;
    var got, want := NextLevel(all), NextLevel(a) + NextLevel(b);
    forall i | 0 <= i < 2 * half
      ensures got[i] == want[i]
    {
      if i < half {
        assert all[2 * i] == a[2 * i] && all[2 * i + 1] == a[2 * i + 1];
      } else {
        assert all[2 * i] == b[2 * (i - half)] && all[2 * i + 1] == b[2 * (i - half) + 1];
      }
    }
  }

  /** A full tree is the pair of the trees over its halves, left before right. */
  lemma {:induction false} RootOfHalves(a: seq<Hash>, b: seq<Hash>, height: nat)
    requires |a| == |b| == Power2(height)
    ensures Root(a + b) == PairHash(Root(a), Root(b))
    decreases height
  {
    if height == 0 {
      var level := a + b;
      assert Padded(level) == level;
      assert NextLevel(level) == [PairHash(a[0], b[0])];
    } else {
      NextOfHalves(a, b, Power2(height - 1));
      hide NextLevel;
      RootOfHalves(NextLevel(a), NextLevel(b), height - 1);
    }
  }

  /** White space around the environment and the case of its letters do not change the chain id; another second of
  launch does. */
  lemma ChainIdDependsOn(setup: Setup, environment: string, before: string, after: string, launch: int, other: int)
    requires Blank(before) && Blank(after) && Trimmed(environment) && setup.environment == Lower(environment)
    ensures BuildChainId(setup.(environment := before + environment + after), launch) == BuildChainId(setup, launch)
    ensures BuildChainId(setup, launch) == BuildChainId(setup, other) <==> launch / 1_000_000 == other / 1_000_000
  {
    StripRemovesSurroundings(before, environment, after);
    StripRemovesSurroundings([], Lower(environment), []);
    assert [] + Lower(environment) + [] == Lower(environment);
    hide Strip;
    assert Lower(Lower(environment)) == Lower(environment);
  }
}
