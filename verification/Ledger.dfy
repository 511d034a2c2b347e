/** The ledger that settlement posts to (server/domain/economy/ledger.py). */
module Ledger {
  import opened Totals

  datatype PoolEntry = PoolEntry(block: int, requiredWork: int, totalWork: int, reward: int, postedAt: int)

  datatype PlayerEntry = PlayerEntry(block: int, player: string, reward: int, contribution: int, postedAt: int)

  ghost predicate Rewards(entry: PlayerEntry, block: int, rewards: map<string, int>, contributions: map<string, int>,
                          postedAt: int) {
    && entry.player in rewards
    && entry == PlayerEntry(block, entry.player, rewards[entry.player], Get(contributions, entry.player), postedAt)
  }

  /** batch lists every rewarded player of one block once, in some order. */
  ghost predicate Posts(batch: seq<PlayerEntry>, block: int, rewards: map<string, int>,
                        contributions: map<string, int>, postedAt: int) {
    && |batch| == |rewards|
    && (forall i :: 0 <= i < |batch| ==> Rewards(batch[i], block, rewards, contributions, postedAt))
    && (forall i, j :: 0 <= i < j < |batch| ==> batch[i].player != batch[j].player)
  }

  /** Sum of the rewards posted to players for one block. */
  function PaidFor(entries: seq<PlayerEntry>, block: int): int {
    if entries == [] then 0
    else
      var last := entries[|entries| - 1];
      PaidFor(entries[..|entries| - 1], block) + (if last.block == block then last.reward else 0)
  }

  class NoOpLedgerPoster {
    var entries: seq<PoolEntry>
    var playerEntries: seq<PlayerEntry>

    constructor ()
      ensures entries == [] && playerEntries == []
    {
      entries := [];
      playerEntries := [];
    }

    method PostBlockFinalization(block: int, requiredWork: int, totalWork: int, reward: int, postedAt: int)
      modifies this`entries
      ensures entries == old(entries) + [PoolEntry(block, requiredWork, totalWork, reward, postedAt)]
    {
      entries := entries + [PoolEntry(block, requiredWork, totalWork, reward, postedAt)];
    }

    method PostPlayerRewardEntries(block: int, rewards: map<string, int>, contributions: map<string, int>,
                                   postedAt: int)
      modifies this`playerEntries
      ensures old(playerEntries) <= playerEntries
      ensures Posts(playerEntries[|old(playerEntries)|..], block, rewards, contributions, postedAt)
    {
      hide Posts;
      PostNothing(block, rewards, contributions, postedAt);
      ghost var before := playerEntries;
      ghost var batch: seq<PlayerEntry> := [];
      var remaining := rewards.Keys;
      assert playerEntries == before + batch;
      while remaining != {}
        invariant remaining <= rewards.Keys
        invariant playerEntries == before + batch
        invariant Posts(batch, block, rewards - remaining, contributions, postedAt)
        decreases |remaining|
      {
        var player :| player in remaining;
        var entry := PlayerEntry(block, player, rewards[player], Get(contributions, player), postedAt);
        playerEntries := playerEntries + [entry];
        PostOneMore(batch, entry, block, rewards, remaining, contributions, postedAt);
        assert before + batch + [entry] == before + (batch + [entry]);
        batch := batch + [entry];
        remaining := remaining - {player};
      }
      assert rewards - {} == rewards;
      assert playerEntries[|before|..] == batch;
    }
  }

  lemma PostNothing(block: int, rewards: map<string, int>, contributions: map<string, int>, postedAt: int)
    ensures Posts([], block, rewards - rewards.Keys, contributions, postedAt)
  {
    assert rewards - rewards.Keys == map[];
  }

  lemma PostOneMore(batch: seq<PlayerEntry>, entry: PlayerEntry, block: int, rewards: map<string, int>,
                    remaining: set<string>, contributions: map<string, int>, postedAt: int)
    requires remaining <= rewards.Keys && entry.player in remaining
    requires Rewards(entry, block, rewards, contributions, postedAt)
    requires Posts(batch, block, rewards - remaining, contributions, postedAt)
    ensures Posts(batch + [entry], block, rewards - (remaining - {entry.player}), contributions, postedAt)
  {
    var done := rewards - remaining;
    var more := rewards - (remaining - {entry.player});
    assert more.Keys == done.Keys + {entry.player};
    assert |more.Keys| == |done.Keys| + 1;
    forall i | 0 <= i < |batch|
      ensures batch[i].player in done && Rewards(batch[i], block, more, contributions, postedAt)
    {
      assert Rewards(batch[i], block, done, contributions, postedAt);
    }
  }

  lemma {:induction false} PaidForAppend(a: seq<PlayerEntry>, b: seq<PlayerEntry>, block: int)
    ensures PaidFor(a + b, block) == PaidFor(a, block) + PaidFor(b, block)
  {
    if b == [] {
      assert a + b == a;
    } else {
      var front := b[..|b| - 1];
      PaidForAppend(a, front, block);
      assert (a + b)[..|a + b| - 1] == a + front;
    }
  }

  lemma {:induction false} PostsPaid(batch: seq<PlayerEntry>, block: int, rewards: map<string, int>,
                                     contributions: map<string, int>, postedAt: int, other: int)
    requires Posts(batch, block, rewards, contributions, postedAt)
    ensures PaidFor(batch, other) == if other == block then Sum(rewards) else 0
  {
    if batch == [] {
      assert rewards == map[];
    } else {
      var n := |batch| - 1;
      var player := batch[n].player;
      assert (rewards - {player}).Keys == rewards.Keys - {player};
      assert |rewards.Keys - {player}| == |rewards| - 1;
      PostsPaid(batch[..n], block, rewards - {player}, contributions, postedAt, other);
      SumRemove(rewards, player);
    }
  }
}
