/** The network event stream and its reconnecting readers
(server/domain/blockchain/network_stream.py, read_models.py). */
module NetworkStream {
  import opened Numbers

  /** The payload is kept only as far as readers look at it: the player a reward is for. */
  datatype NetworkEvent = NetworkEvent(sequence: int, eventType: string, player: Option<string>)

  datatype Stream = Stream(sequence: int, events: seq<NetworkEvent>)

  datatype Publication = Publication(eventType: string, player: Option<string>)

  datatype Response = Response(events: seq<NetworkEvent>, reconnectCursor: int, latestSequence: int)

  /** Which channel a client reads, and for which player. */
  datatype Subscription = Subscription(channel: string, player: string)

  function Published(s: Stream, p: Publication): Stream {
    Stream(s.sequence + 1, s.events + [NetworkEvent(s.sequence + 1, p.eventType, p.player)])
  }

  /** item.sequence > floor. */
  function After(events: seq<NetworkEvent>, floor: int): seq<NetworkEvent> {
    if events == [] then []
    else (if floor < events[0].sequence then [events[0]] else []) + After(events[1..], floor)
  }

  /** str(payload.get("player_id")): a missing player reads as "None". */
  function PlayerText(player: Option<string>): string {
    if player.Some? then player.value else "None"
  }

  function Matches(sub: Subscription, e: NetworkEvent): bool {
    if sub.channel == "global" then e.eventType in {"network.block_progress.v1", "network.block_finalized.v1"}
    else
      sub.channel == "player_rewards" && e.eventType == "network.player_reward.v1"
      && PlayerText(e.player) == sub.player
  }

  function Matching(sub: Subscription, events: seq<NetworkEvent>): seq<NetworkEvent> {
    if events == [] then []
    else (if Matches(sub, events[0]) then [events[0]] else []) + Matching(sub, events[1..])
  }

  function Take<T>(s: seq<T>, limit: nat): seq<T> {
    if limit <= |s| then s[..limit] else s
  }

  function ListAfter(s: Stream, floor: int, limit: nat): seq<NetworkEvent> {
    Take(After(s.events, floor), limit)
  }

  /** The events of a poll: at most `limit` matches among the next 4 * limit events. */
  function Delivered(s: Stream, sub: Subscription, cursor: int, limit: nat): seq<NetworkEvent> {
    Take(Matching(sub, ListAfter(s, cursor, limit * 4)), limit)
  }

  /** A poll reads the stream twice: first the events, then the latest sequence. */
  function Poll(listed: Stream, latest: Stream, sub: Subscription, cursor: int, limit: nat): Response {
    var events := Delivered(listed, sub, cursor, limit);
    Response(events, if events == [] then latest.sequence else events[|events| - 1].sequence, latest.sequence)
  }

  class InMemoryNetworkEventStream {
    var sequence: int
    var events: seq<NetworkEvent>

    ghost function State(): Stream
      reads this
    {
      Stream(sequence, events)
    }

    constructor ()
      ensures State() == Stream(0, []) && Numbered(State())
    {
      sequence := 0;
      events := [];
    }

    method Publish(eventType: string, player: Option<string>) returns (event: NetworkEvent)
      modifies this
      ensures State() == Published(old(State()), Publication(eventType, player))
      ensures event == events[|events| - 1]
      ensures old(Numbered(State())) ==> Numbered(State()) && event.sequence == |events|
    {
      sequence := sequence + 1;
      event := NetworkEvent(sequence, eventType, player);
      events := events + [event];
    }

    /** list_after: the first `limit` events behind the floor, in the order they were published. */
    method ListAfterSequence(afterSequence: Option<int>, limit: nat) returns (listed: seq<NetworkEvent>)
      ensures listed == ListAfter(State(), FloorOf(afterSequence), limit)
      ensures |listed| <= limit && forall e :: e in listed ==> e in events && FloorOf(afterSequence) < e.sequence
      ensures |listed| < limit ==> forall e :: e in events && FloorOf(afterSequence) < e.sequence ==> e in listed
      // on a stream that was only published to, this is a slice of it: a position in the stream is a sequence number
      ensures Numbered(State()) && 0 <= FloorOf(afterSequence) ==>
        listed == events[Min(FloorOf(afterSequence), sequence)..Min(FloorOf(afterSequence) + limit, sequence)]
    {
      listed := Take(After(events, FloorOf(afterSequence)), limit);
      AfterMembers(events, FloorOf(afterSequence));
      if Numbered(State()) && 0 <= FloorOf(afterSequence) {
        AfterIsSuffix(events, 1, FloorOf(afterSequence));
      }
    }
  }

  /** after_sequence or 0. */
  function FloorOf(afterSequence: Option<int>): int {
    if afterSequence.Some? then afterSequence.value else 0
  }

  // ---------------------------------------------------------------- what one poll delivers

  /** Sequences count from 1 without gaps. */
  ghost predicate Numbered(s: Stream) {
    && |s.events| == s.sequence
    && forall i :: 0 <= i < |s.events| ==> s.events[i].sequence == i + 1
  }

  ghost predicate Increasing(events: seq<NetworkEvent>) {
    forall i, j :: 0 <= i < j < |events| ==> events[i].sequence < events[j].sequence
  }

  lemma {:induction false} AfterIsSuffix(events: seq<NetworkEvent>, from: int, floor: int)
    requires forall i :: 0 <= i < |events| ==> events[i].sequence == from + i
    ensures After(events, floor)
      == if floor < from then events else if floor - from + 1 <= |events| then events[floor - from + 1..] else []
    decreases |events|
  {
    if events != [] {
      var rest := events[1..];
      AfterIsSuffix(rest, from + 1, floor);
      assert [events[0]] + rest == events;
      if from <= floor < from + |rest| {
        assert rest[floor - from..] == events[floor - from + 1..];
      }
    }
  }

  lemma {:induction false} AfterMembers(events: seq<NetworkEvent>, floor: int)
    ensures forall e :: e in After(events, floor) <==> e in events && floor < e.sequence
    decreases |events|
  {
    if events != [] {
      AfterMembers(events[1..], floor);
      assert events == [events[0]] + events[1..];
    }
  }

  /** The listed window is the part of the stream right after the cursor. */
  lemma WindowOf(s: Stream, cursor: int, limit: nat)
    requires Numbered(s) && 0 <= cursor <= s.sequence
    ensures ListAfter(s, cursor, limit) == Take(s.events[cursor..], limit)
  {
    AfterIsSuffix(s.events, 1, cursor);
  }

  lemma {:induction false} MatchingProperties(sub: Subscription, events: seq<NetworkEvent>)
    requires Increasing(events)
    ensures Increasing(Matching(sub, events))
    ensures forall e :: e in Matching(sub, events) <==> e in events && Matches(sub, e)
    decreases |events|
  {
    hide Matches;
    if events != [] {
      MatchingProperties(sub, events[1..]);
      var rest := Matching(sub, events[1..]);
      assert events == [events[0]] + events[1..];
      forall i | 0 <= i < |rest|
        ensures events[0].sequence < rest[i].sequence
      {
        assert rest[i] in events[1..];
      }
    }
  }

  /** window lists the events right after the cursor. */
  ghost predicate IsWindow(s: Stream, cursor: int, window: seq<NetworkEvent>) {
    && Numbered(s) && 0 <= cursor && cursor + |window| <= s.sequence
    && forall i :: 0 <= i < |window| ==> window[i] == s.events[cursor + i]
  }

  /** got are matches behind the cursor in increasing order, without leaving out one before the last. */
  ghost predicate Gapless(s: Stream, sub: Subscription, cursor: int, got: seq<NetworkEvent>) {
    && Increasing(got)
    && (forall e :: e in got ==> e in s.events && Matches(sub, e) && cursor < e.sequence)
    && (got != [] ==>
          forall e :: e in s.events && Matches(sub, e) && cursor < e.sequence <= got[|got| - 1].sequence ==> e in got)
  }

  lemma InWindow(s: Stream, cursor: int, window: seq<NetworkEvent>, e: NetworkEvent)
    requires IsWindow(s, cursor, window)
    ensures e in window <==> e in s.events && cursor < e.sequence <= cursor + |window|
  {
    if e in window {
      var i :| 0 <= i < |window| && window[i] == e;
    }
    if e in s.events && cursor < e.sequence <= cursor + |window| {
      var i :| 0 <= i < |s.events| && s.events[i] == e;
      assert window[i - cursor] == e;
    }
  }

  lemma WindowMatches(s: Stream, sub: Subscription, cursor: int, window: seq<NetworkEvent>)
    requires IsWindow(s, cursor, window)
    ensures Gapless(s, sub, cursor, Matching(sub, window))
    ensures forall e ::
      e in Matching(sub, window) <==> e in s.events && Matches(sub, e) && cursor < e.sequence <= cursor + |window|
  {
    hide Matches;
    MatchingProperties(sub, window);
    var all := Matching(sub, window);
    hide Matching;
    forall e
      ensures e in window <==> e in s.events && cursor < e.sequence <= cursor + |window|
    {
      InWindow(s, cursor, window, e);
    }
    hide IsWindow;
    if all != [] {
      assert all[|all| - 1] in all;
    }
  }

  lemma TakeGapless(s: Stream, sub: Subscription, cursor: int, all: seq<NetworkEvent>, limit: nat)
    requires Gapless(s, sub, cursor, all)
    ensures Gapless(s, sub, cursor, Take(all, limit))
  {
    hide Matches;
    var got := Take(all, limit);
    assert got <= all;
    if got != [] {
      var last := got[|got| - 1];
      assert last == all[|got| - 1];
      forall e | e in s.events && Matches(sub, e) && cursor < e.sequence <= last.sequence
        ensures e in got
      {
        LastIsLargest(all, |got| - 1);
        assert e in all;
        var k :| 0 <= k < |all| && all[k] == e;
        assert k <= |got| - 1;
        assert got[k] == e;
      }
    }
  }

  lemma LastIsLargest(all: seq<NetworkEvent>, i: nat)
    requires Increasing(all) && i < |all|
    ensures all[i].sequence <= all[|all| - 1].sequence
  {
  }

  /** A match among the next 4 * limit positions of the stream behind the cursor. */
  ghost predicate MatchInReach(s: Stream, sub: Subscription, cursor: int, limit: nat) {
    exists e :: e in s.events && Matches(sub, e) && cursor < e.sequence <= cursor + 4 * limit
  }

  /** Delivered events are gapless, and there are some exactly if a match is in reach. */
  lemma DeliveredProperties(s: Stream, sub: Subscription, cursor: int, limit: nat)
    requires Numbered(s) && 0 <= cursor <= s.sequence
    ensures Gapless(s, sub, cursor, Delivered(s, sub, cursor, limit))
    ensures Delivered(s, sub, cursor, limit) != [] <==> MatchInReach(s, sub, cursor, limit)
  {
    WindowOf(s, cursor, limit * 4);
    var window := ListAfter(s, cursor, limit * 4);
    hide ListAfter, Matches;
    assert IsWindow(s, cursor, window);
    WindowMatches(s, sub, cursor, window);
    var all := Matching(sub, window);
    hide Matching;
    TakeGapless(s, sub, cursor, all, limit);
    if all != [] {
      assert all[0] in all;
    }
    if MatchInReach(s, sub, cursor, limit) {
      var e :| e in s.events && Matches(sub, e) && cursor < e.sequence <= cursor + 4 * limit;
      assert e.sequence <= s.sequence;
      assert e in all;
    }
  }

  // ---------------------------------------------------------------- a client that keeps its cursor

  datatype System = System(stream: Stream, cursor: int, received: seq<NetworkEvent>)

  /** Something is published, or the client polls; publications may fall between the two reads of a poll. */
  datatype Step = Publish(publication: Publication) | PollStep(limit: nat, between: seq<Publication>)

  function PublishedAll(s: Stream, ps: seq<Publication>): Stream {
    if ps == [] then s else Published(PublishedAll(s, ps[..|ps| - 1]), ps[|ps| - 1])
  }

  function Apply(sub: Subscription, sys: System, step: Step): System {
    match step
    case Publish(p) => sys.(stream := Published(sys.stream, p))
    case PollStep(limit, between) =>
      var latest := PublishedAll(sys.stream, between);
      var response := Poll(sys.stream, latest, sub, sys.cursor, limit);
      System(latest, response.reconnectCursor, sys.received + response.events)
  }

  ghost function Run(sub: Subscription, sys: System, steps: seq<Step>): System {
    if steps == [] then sys else Apply(sub, Run(sub, sys, steps[..|steps| - 1]), steps[|steps| - 1])
  }

  ghost predicate Inv(sub: Subscription, sys: System) {
    && Numbered(sys.stream)
    && 0 <= sys.cursor <= sys.stream.sequence
    && Increasing(sys.received)
    && forall e :: e in sys.received ==> e in sys.stream.events && Matches(sub, e) && e.sequence <= sys.cursor
  }

  /** Every match up to the cursor has been received. */
  ghost predicate Complete(sub: Subscription, sys: System, start: int) {
    forall e :: e in sys.stream.events && Matches(sub, e) && start < e.sequence <= sys.cursor ==> e in sys.received
  }

  /** A poll in front of a match, all of whose matches are out of reach: they lie more than 4 * limit positions behind
  the cursor, or were published between the two reads. */
  ghost predicate Skips(sub: Subscription, sys: System, step: Step) {
    && step.PollStep?
    && !MatchInReach(sys.stream, sub, sys.cursor, step.limit)
    && exists e :: e in PublishedAll(sys.stream, step.between).events && Matches(sub, e) && sys.cursor < e.sequence
  }

  ghost predicate NeverSkips(sub: Subscription, sys: System, steps: seq<Step>) {
    steps == []
    || (NeverSkips(sub, sys, steps[..|steps| - 1])
        && !Skips(sub, Run(sub, sys, steps[..|steps| - 1]), steps[|steps| - 1]))
  }

  lemma PublishedNumbered(s: Stream, p: Publication)
    requires Numbered(s)
    ensures Numbered(Published(s, p)) && s.events <= Published(s, p).events
    ensures s.sequence <= Published(s, p).sequence
  {
  }

  lemma {:induction false} PublishedAllNumbered(s: Stream, ps: seq<Publication>)
    requires Numbered(s)
    ensures Numbered(PublishedAll(s, ps)) && s.events <= PublishedAll(s, ps).events
    ensures s.sequence <= PublishedAll(s, ps).sequence
  {
    if ps != [] {
      PublishedAllNumbered(s, ps[..|ps| - 1]);
      PublishedNumbered(PublishedAll(s, ps[..|ps| - 1]), ps[|ps| - 1]);
    }
  }

  lemma PollKeepsInv(sub: Subscription, sys: System, step: Step)
    requires Inv(sub, sys) && step.PollStep?
    ensures Inv(sub, Apply(sub, sys, step))
    ensures sys.cursor <= Apply(sub, sys, step).cursor
  {
    hide Matches;
    PublishedAllNumbered(sys.stream, step.between);
    DeliveredProperties(sys.stream, sub, sys.cursor, step.limit);
    hide Delivered, PublishedAll;
    var got := Delivered(sys.stream, sub, sys.cursor, step.limit);
    if got != [] {
      assert got[|got| - 1] in got;
    } else {
      assert sys.received + got == sys.received;
    }
    AppendLater(sys.received, got, sys.cursor);
  }

  /** Later events extend an increasing list. */
  lemma AppendLater(received: seq<NetworkEvent>, got: seq<NetworkEvent>, cursor: int)
    requires Increasing(received) && Increasing(got)
    requires forall e :: e in received ==> e.sequence <= cursor
    requires forall e :: e in got ==> cursor < e.sequence
    ensures Increasing(received + got)
    ensures forall e :: e in got ==> e.sequence <= got[|got| - 1].sequence
  {
    forall i, j | 0 <= i < |received| && 0 <= j < |got|
      ensures received[i].sequence < got[j].sequence
    {
      assert received[i] in received && got[j] in got;
    }
    forall e | e in got
      ensures e.sequence <= got[|got| - 1].sequence
    {
      var i :| 0 <= i < |got| && got[i] == e;
    }
  }

  lemma StepKeepsInv(sub: Subscription, sys: System, step: Step)
    requires Inv(sub, sys)
    ensures Inv(sub, Apply(sub, sys, step))
    ensures sys.cursor <= Apply(sub, sys, step).cursor
  {
    if step.PollStep? {
      PollKeepsInv(sub, sys, step);
    } else {
      hide Matches;
      PublishedNumbered(sys.stream, step.publication);
    }
  }

  /** A poll keeps the client complete exactly when it does not skip. */
  lemma PollCompleteness(sub: Subscription, sys: System, step: Step, start: int)
    requires Inv(sub, sys) && step.PollStep? && start <= sys.cursor
    ensures Complete(sub, Apply(sub, sys, step), start) <==> Complete(sub, sys, start) && !Skips(sub, sys, step)
  {
    hide Matches;
    PublishedAllNumbered(sys.stream, step.between);
    DeliveredProperties(sys.stream, sub, sys.cursor, step.limit);
    hide Delivered;
    var got := Delivered(sys.stream, sub, sys.cursor, step.limit);
    var latest := PublishedAll(sys.stream, step.between);
    var after := Apply(sub, sys, step);
    hide PublishedAll;
    assert after.received == sys.received + got && after.stream == latest;
    if got != [] {
      assert got[|got| - 1] in got;
    }
    if Complete(sub, after, start) {
      CompleteBefore(sub, sys, after, got, start);
      if got == [] {
        forall e | e in latest.events && sys.cursor < e.sequence
          ensures !Matches(sub, e)
        {
          assert e.sequence <= latest.sequence;
        }
      }
    }
    if Complete(sub, sys, start) && !Skips(sub, sys, step) {
      forall e | e in latest.events && Matches(sub, e) && start < e.sequence <= after.cursor
        ensures e in after.received
      {
        EarlierEvent(sys.stream, latest, e);
      }
    }
  }

  lemma CompleteBefore(sub: Subscription, sys: System, after: System, got: seq<NetworkEvent>, start: int)
    requires Complete(sub, after, start) && sys.stream.events <= after.stream.events && sys.cursor <= after.cursor
    requires after.received == sys.received + got && forall e :: e in got ==> sys.cursor < e.sequence
    ensures Complete(sub, sys, start)
  {
    hide Matches;
    forall e | e in sys.stream.events && Matches(sub, e) && start < e.sequence <= sys.cursor
      ensures e in sys.received
    {
      assert e in after.stream.events;
      assert e in after.received;
    }
  }

  /** An event of the later stream that is not newer than the earlier one is in the earlier one. */
  lemma EarlierEvent(s: Stream, later: Stream, e: NetworkEvent)
    requires Numbered(s) && Numbered(later) && s.events <= later.events && e in later.events
    ensures e.sequence <= s.sequence ==> e in s.events
  {
    var i :| 0 <= i < |later.events| && later.events[i] == e;
    if e.sequence <= s.sequence {
      assert s.events[i] == later.events[i];
    }
  }

  lemma PublishCompleteness(sub: Subscription, sys: System, step: Step, start: int)
    requires Inv(sub, sys) && step.Publish?
    ensures Complete(sub, Apply(sub, sys, step), start) <==> Complete(sub, sys, start)
  {
    hide Matches;
    var after := Apply(sub, sys, step);
    PublishedNumbered(sys.stream, step.publication);
    if Complete(sub, after, start) {
      CompleteBefore(sub, sys, after, [], start);
    }
    if Complete(sub, sys, start) {
      forall e | e in after.stream.events && Matches(sub, e) && start < e.sequence <= after.cursor
        ensures e in after.received
      {
        EarlierEvent(sys.stream, after.stream, e);
      }
    }
  }

  /** Whatever is published and however polls interleave, a client that stores the cursor receives strictly
  increasing sequences, so nothing twice; and it has received every matching event up to its cursor exactly
  when no poll had all its matches out of reach. */
  lemma {:induction false} ClientReceivesOnce(sub: Subscription, sys: System, steps: seq<Step>)
    requires Inv(sub, sys) && Complete(sub, sys, sys.cursor)
    ensures var end := Run(sub, sys, steps);
      && Inv(sub, end) && sys.cursor <= end.cursor
      && (Complete(sub, end, sys.cursor) <==> NeverSkips(sub, sys, steps))
  {
    if steps != [] {
      hide Inv, Complete, Skips, Apply;
      var before, last := steps[..|steps| - 1], steps[|steps| - 1];
      ClientReceivesOnce(sub, sys, before);
      StepKeepsInv(sub, Run(sub, sys, before), last);
      if last.PollStep? {
        PollCompleteness(sub, Run(sub, sys, before), last, sys.cursor);
      } else {
        PublishCompleteness(sub, Run(sub, sys, before), last, sys.cursor);
        PublishNeverSkips(sub, Run(sub, sys, before), last);
      }
    }
  }

  lemma PublishNeverSkips(sub: Subscription, sys: System, step: Step)
    requires step.Publish?
    ensures !Skips(sub, sys, step)
  {
  }

  /** A poll with nothing published in between and at most 4 * limit events behind the cursor never skips. */
  lemma {:induction false} ShortBacklogNeverSkips(sub: Subscription, sys: System, limit: nat)
    requires Inv(sub, sys) && sys.stream.sequence - sys.cursor <= 4 * limit
    ensures !Skips(sub, sys, PollStep(limit, []))
  {
    hide Matches;
    assert PublishedAll(sys.stream, []) == sys.stream;
  }

  ghost predicate ShortBacklog(sys: System, step: Step) {
    step.PollStep? ==> step.between == [] && sys.stream.sequence - sys.cursor <= 4 * step.limit
  }

  /** Every poll of the run has nothing published in between and at most 4 * limit events behind the cursor. */
  ghost predicate ShortBacklogs(sub: Subscription, sys: System, steps: seq<Step>) {
    steps == []
    || (ShortBacklogs(sub, sys, steps[..|steps| - 1])
        && ShortBacklog(Run(sub, sys, steps[..|steps| - 1]), steps[|steps| - 1]))
  }

  /** In such a run every matching event is delivered exactly once or still lies behind the cursor. */
  lemma {:induction false} ShortBacklogsComplete(sub: Subscription, sys: System, steps: seq<Step>)
    requires Inv(sub, sys) && Complete(sub, sys, sys.cursor) && ShortBacklogs(sub, sys, steps)
    ensures var end := Run(sub, sys, steps);
      && Increasing(end.received)
      && forall e :: e in end.stream.events && Matches(sub, e) && sys.cursor < e.sequence ==>
        e in end.received || end.cursor < e.sequence
  {
    ShortBacklogsNeverSkip(sub, sys, steps);
    ClientReceivesOnce(sub, sys, steps);
    hide Matches, Run;
  }

  lemma {:induction false} ShortBacklogsNeverSkip(sub: Subscription, sys: System, steps: seq<Step>)
    requires Inv(sub, sys) && Complete(sub, sys, sys.cursor) && ShortBacklogs(sub, sys, steps)
    ensures NeverSkips(sub, sys, steps)
  {
    if steps != [] {
      hide Inv, Complete, Skips, Apply;
      var before, last := steps[..|steps| - 1], steps[|steps| - 1];
      ShortBacklogsNeverSkip(sub, sys, before);
      ClientReceivesOnce(sub, sys, before);
      if last.PollStep? {
        ShortBacklogNeverSkips(sub, Run(sub, sys, before), last.limit);
      } else {
        PublishNeverSkips(sub, Run(sub, sys, before), last);
      }
    }
  }

  const OTHER := Publication("network.block_progress.v1", None)
  const WANTED := Publication("network.player_reward.v1", Some("p"))

  function At(sequence: int, p: Publication): NetworkEvent {
    NetworkEvent(sequence, p.eventType, p.player)
  }

  lemma PublishedAppend(s: Stream, ps: seq<Publication>, p: Publication, events: seq<NetworkEvent>)
    requires PublishedAll(s, ps) == Stream(|events|, events)
    ensures PublishedAll(s, ps + [p]) == Stream(|events| + 1, events + [At(|events| + 1, p)])
  {
    assert (ps + [p])[..|ps|] == ps;
  }

  const HIDING: seq<NetworkEvent> := [At(1, OTHER), At(2, OTHER), At(3, OTHER), At(4, OTHER)]

  /** Four events of another channel, then one the client waits for. */
  lemma CrowdedStream()
    ensures PublishedAll(Stream(0, []), [OTHER, OTHER, OTHER, OTHER, WANTED]) == Stream(5, HIDING + [At(5, WANTED)])
  {
    var start := Stream(0, []);
    hide At;
    assert PublishedAll(start, []) == start;
    hide PublishedAll;
    PublishedAppend(start, [], OTHER, []);
    PublishedAppend(start, [] + [OTHER], OTHER, [] + [At(1, OTHER)]);
    PublishedAppend(start, [] + [OTHER] + [OTHER], OTHER, [] + [At(1, OTHER)] + [At(2, OTHER)]);
    PublishedAppend(start, [] + [OTHER] + [OTHER] + [OTHER], OTHER,
                    [] + [At(1, OTHER)] + [At(2, OTHER)] + [At(3, OTHER)]);
    assert [] + [OTHER] + [OTHER] + [OTHER] + [OTHER] == [OTHER, OTHER, OTHER, OTHER];
    assert [] + [At(1, OTHER)] + [At(2, OTHER)] + [At(3, OTHER)] + [At(4, OTHER)] == HIDING;
    PublishedAppend(start, [OTHER, OTHER, OTHER, OTHER], WANTED, HIDING);
    assert [OTHER, OTHER, OTHER, OTHER] + [WANTED] == [OTHER, OTHER, OTHER, OTHER, WANTED];
  }

  lemma NothingDelivered(sub: Subscription)
    requires sub == Subscription("player_rewards", "p")
    ensures Delivered(Stream(5, HIDING + [At(5, WANTED)]), sub, 0, 1) == []
  {
    var stream := Stream(5, HIDING + [At(5, WANTED)]);
    WindowOf(stream, 0, 4);
    assert stream.events[0..][..4] == HIDING;
    hide ListAfter;
    NoMatches(sub, HIDING);
  }

  /** A longer backlog can lose events: four events of another channel hide the fifth, which is never delivered. */
  lemma LongBacklogSkips()
    ensures var sub := Subscription("player_rewards", "p");
      var sys := System(PublishedAll(Stream(0, []), [OTHER, OTHER, OTHER, OTHER, WANTED]), 0, []);
      && Inv(sub, sys) && Skips(sub, sys, PollStep(1, []))
      && Apply(sub, sys, PollStep(1, [])).cursor == 5
  {
    hide Delivered, PublishedAll, Matches, MatchInReach;
    var sub := Subscription("player_rewards", "p");
    var stream := Stream(5, HIDING + [At(5, WANTED)]);
    CrowdedStream();
    NothingBetween(stream);
    NothingDelivered(sub);
    WantedMatches(sub);
    assert stream.events[4] == At(5, WANTED);
    assert Numbered(stream);
    DeliveredProperties(stream, sub, 0, 1);
  }

  lemma NothingBetween(s: Stream)
    ensures PublishedAll(s, []) == s
  {
  }

  lemma WantedMatches(sub: Subscription)
    requires sub == Subscription("player_rewards", "p")
    ensures Matches(sub, At(5, WANTED))
  {
  }

  lemma {:induction false} NoMatches(sub: Subscription, events: seq<NetworkEvent>)
    requires forall e :: e in events ==> !Matches(sub, e)
    ensures Matching(sub, events) == []
  {
    if events != [] {
      NoMatches(sub, events[1..]);
    }
  }
}
