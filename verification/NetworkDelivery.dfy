/** What a client of each channel receives (server/domain/blockchain/read_models.py). */
module NetworkDelivery {
  import opened Numbers
  import opened NetworkStream

  // ---------------------------------------------------------------- whose events

  /** The three event types of the two channels, and everything else. */
  datatype Kind = Progress | Finalized | RewardFor(player: string) | Foreign

  /** Event types as the publishers write them. */
  ghost predicate IsKind(kind: Kind, p: Publication) {
    match kind
    case Progress => p.eventType == "network.block_progress.v1"
    case Finalized => p.eventType == "network.block_finalized.v1"
    case RewardFor(player) =>
      p.eventType == "network.player_reward.v1" && (p.player == Some(player) || (p.player == None && player == "None"))
    case Foreign =>
      p.eventType !in {"network.block_progress.v1", "network.block_finalized.v1", "network.player_reward.v1"}
  }

  /** Every publication is of one kind, and what a channel passes on depends on the kind alone: progress and
  finalizations are for the global channel, a reward is for its own player (without one, for "None"), everything
  else is for nobody. */
  lemma ChannelsByKind(sub: Subscription, kind: Kind, p: Publication, sequence: int)
    requires IsKind(kind, p)
    ensures Matches(sub, NetworkEvent(sequence, p.eventType, p.player))
      <==> match kind
           case Progress => sub.channel == "global"
           case Finalized => sub.channel == "global"
           case RewardFor(player) => sub == Subscription("player_rewards", player)
           case Foreign => false
  {
  }

  lemma EveryPublicationHasAKind(p: Publication) returns (kind: Kind)
    ensures IsKind(kind, p) && forall other :: IsKind(other, p) ==> other == kind
  {
    kind :=
      if p.eventType == "network.block_progress.v1" then Progress
      else if p.eventType == "network.block_finalized.v1" then Finalized
      else if p.eventType == "network.player_reward.v1" then
        RewardFor(if p.player.Some? then p.player.value else "None")
      else Foreign;
  }

  /** Over every run a subscriber to rewards receives only rewards of its own player, a subscriber to the global
  channel only progress and finalizations, and any other channel is silent. */
  lemma {:induction false} NobodyReceivesForeignEvents(sub: Subscription, sys: System, steps: seq<Step>,
                                                      e: NetworkEvent)
    requires Inv(sub, sys) && Complete(sub, sys, sys.cursor) && e in Run(sub, sys, steps).received
    ensures sub.channel == "player_rewards" ==>
      e.eventType == "network.player_reward.v1" && e.player == (if e.player.Some? then Some(sub.player) else None)
      && (e.player == None ==> sub.player == "None")
    ensures sub.channel == "global" ==> e.eventType in {"network.block_progress.v1", "network.block_finalized.v1"}
    ensures sub.channel in {"global", "player_rewards"}
  {
    hide Run, Complete;
    ClientReceivesOnce(sub, sys, steps);
    assert Matches(sub, e);
  }

  // ---------------------------------------------------------------- how much one poll delivers

  lemma {:induction false} MatchingLength(sub: Subscription, events: seq<NetworkEvent>)
    ensures |Matching(sub, events)| <= |events|
  {
    if events != [] {
      MatchingLength(sub, events[1..]);
      hide Matches;
    }
  }

  /** A poll delivers at most `limit` events, and when it delivers fewer, every match in reach was among them. */
  lemma PollFillsUp(s: Stream, sub: Subscription, cursor: int, limit: nat, e: NetworkEvent)
    requires Numbered(s) && 0 <= cursor <= s.sequence
    ensures |Delivered(s, sub, cursor, limit)| <= limit
    ensures |Delivered(s, sub, cursor, limit)| < limit && e in s.events && Matches(sub, e)
            && cursor < e.sequence <= cursor + 4 * limit ==>
      e in Delivered(s, sub, cursor, limit)
  {
    WindowOf(s, cursor, limit * 4);
    var window := ListAfter(s, cursor, limit * 4);
    hide ListAfter, Matches;
    assert IsWindow(s, cursor, window);
    WindowMatches(s, sub, cursor, window);
    hide Matching, IsWindow;
    if e in s.events {
      assert e.sequence <= s.sequence;
    }
  }

  /** The cursor a poll returns: the last delivered event, or the end of the stream as the second read saw it. */
  lemma PollCursor(s: Stream, between: seq<Publication>, sub: Subscription, cursor: int, limit: nat)
    requires Numbered(s) && 0 <= cursor <= s.sequence
    ensures var response := Poll(s, PublishedAll(s, between), sub, cursor, limit);
      && response.latestSequence == s.sequence + |between|
      && (response.events == [] ==> response.reconnectCursor == s.sequence + |between|)
      && (response.events != [] ==> cursor < response.reconnectCursor <= cursor + 4 * limit)
  {
    hide Matches;
    PublishedCount(s, between);
    WindowOf(s, cursor, limit * 4);
    var window := ListAfter(s, cursor, limit * 4);
    hide ListAfter;
    assert IsWindow(s, cursor, window);
    WindowMatches(s, sub, cursor, window);
    hide Matching, IsWindow, PublishedAll;
    var events := Delivered(s, sub, cursor, limit);
    if events != [] {
      assert events[|events| - 1] in Matching(sub, window);
    }
  }

  lemma {:induction false} PublishedCount(s: Stream, ps: seq<Publication>)
    ensures PublishedAll(s, ps).sequence == s.sequence + |ps|
  {
    if ps != [] {
      PublishedCount(s, ps[..|ps| - 1]);
    }
  }
}
