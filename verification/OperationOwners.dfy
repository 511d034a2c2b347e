/** Who starts and who stops a mining operation, read off the history of intents (server/api/v1/blockchain.py). */
module OperationOwners {
  import opened Numbers
  import opened Sorting
  import opened RuntimeLog

  /** The player an operation runs for after a history of intents. A durable start at a positive hashrate gives a free
  operation to its player, a durable stop by that player frees it, and nothing else changes who has it. */
  ghost function Owner(intents: seq<Intent>, id: string): Option<string> {
    if intents == [] then None
    else
      var owner := Owner(intents[..|intents| - 1], id);
      match intents[|intents| - 1]
      case StartIntent(operation, player, hashrate, _, durable) =>
        if operation == id && owner == None && durable && 0 < hashrate.num then Some(player) else owner
      case StopIntent(operation, player, _, durable) =>
        if operation == id && owner == Some(player) && durable then None else owner
      case Restart => owner
  }

  ghost function PlayerOf(ops: Operations, id: string): Option<string> {
    if id in ops then Some(ops[id].player) else None
  }

  /** What the intents on one operation answer, by its owner. */
  ghost predicate Answers(status: Status, i: Intent, owner: Option<string>) {
    match i
    case StartIntent(_, player, hashrate, _, durable) =>
      status ==
        (if hashrate.num <= 0 then BadRequest
         else if owner == Some(player) then AlreadyRunning
         else if owner != None then Conflict
         else if durable then Started
         else NotDurable)
    case StopIntent(_, player, _, durable) =>
      status ==
        (if owner == None then NotFound
         else if owner != Some(player) then Conflict
         else if durable then Stopped
         else NotDurable)
    case Restart => true
  }

  lemma RestartKeepsOwner(s: Service, id: string, latest: int)
    requires RuntimeLog.Inv(s, latest) && Storable(Recovered(s).operations, id)
    ensures PlayerOf(Recovered(Handle(s, Restart)).operations, id) == PlayerOf(Recovered(s).operations, id)
  {
    SortedSelected(s.log, latest);
    hide Selected, Stored;
  }

  lemma {:induction false} IntentByOwner(s: Service, i: Intent, id: string)
    requires !i.Restart?
    ensures var owner := PlayerOf(Recovered(s).operations, id);
      && (i.operation == id ==> Answers(StatusOf(s, i), i, owner))
      && PlayerOf(Recovered(Handle(s, i)).operations, id)
        == if i.operation != id then owner
           else if StatusOf(s, i) == Started then Some(i.player)
           else if StatusOf(s, i) == Stopped then None
           else owner
  {
    hide Stored, Replay, Selected;
  }

  /** Over every run with restarts: if the accepted starts of an operation do not round to zero, it runs for exactly
  the player that its history says. */
  lemma {:induction false} OwnerByHistory(intents: seq<Intent>, id: string)
    requires TimesIncrease(intents) && StorableStarts(intents, id)
    ensures PlayerOf(Recovered(Run(intents)).operations, id) == Owner(intents, id)
  {
    if intents == [] {
      assert Selected([]) == [];
    } else {
      var before, last := intents[..|intents| - 1], intents[|intents| - 1];
      OwnerByHistory(before, id);
      LogsAlternateAcrossRestarts(before, id);
      var origin := OriginExists(before);
      RunKeepsInv(before, origin);
      hide RuntimeLog.Inv, Storable, StorableStart, Recovered, Handle, OperationAlternates, StatusOf, PlayerOf;
      if last.Restart? {
        RestartKeepsOwner(Run(before), id, LatestTime(before, origin));
      } else {
        IntentByOwner(Run(before), last, id);
      }
    }
  }

  /** What an intent is answered after any such history. */
  lemma {:induction false} AnswerByHistory(intents: seq<Intent>, i: Intent)
    requires !i.Restart? && TimesIncrease(intents) && StorableStarts(intents, i.operation)
    ensures Answers(StatusOf(Run(intents), i), i, Owner(intents, i.operation))
  {
    OwnerByHistory(intents, i.operation);
    IntentByOwner(Run(intents), i, i.operation);
    hide *;
  }

  /** The log grows by one row for an intent that was accepted, and by none for any other. */
  lemma AcceptedIsLogged(s: Service, i: Intent)
    ensures !i.Restart? && StatusOf(s, i) in {Started, Stopped} ==>
      && |Handle(s, i).log| == |s.log| + 1 && Handle(s, i).log[..|s.log|] == s.log
      && var row := Handle(s, i).log[|s.log|];
         && row.operation == i.operation && row.player == i.player && row.at == i.at
         && row.eventType == (if i.StartIntent? then OperationStart else OperationStop)
    ensures i.Restart? || StatusOf(s, i) !in {Started, Stopped} ==> Handle(s, i).log == s.log
  {
    hide Stored, Replay, Selected;
  }

  // ---------------------------------------------------------------- one step of any run

  /** In any reachable state, with hashrates of any size: an operation that disappears was stopped by its own player,
  or lost by a restart because its hashrate rounds to zero. One that appears was started by the player and at the
  hashrate it runs with. One that stays keeps its player, and its hashrate except for rounding by a restart. */
  lemma {:induction false} OneIntent(intents: seq<Intent>, i: Intent, id: string)
    requires TimesIncrease(intents)
    ensures var ops, after := Recovered(Run(intents)).operations, Recovered(Handle(Run(intents), i)).operations;
      && (id in ops && id !in after ==>
            (i.StopIntent? && i.operation == id && i.player == ops[id].player && i.durable)
            || (i.Restart? && Stored(ops[id].hashrate) <= 0))
      && (id !in ops && id in after ==>
            i.StartIntent? && i.operation == id && i.durable && after[id] == Running(i.player, i.hashrate))
      && (id in ops && id in after ==>
            after[id] == if i.Restart? then Running(ops[id].player, Ratio(Stored(ops[id].hashrate), MICRO))
                         else ops[id])
  {
    var origin := OriginExists(intents);
    RunKeepsInv(intents, origin);
    var s := Run(intents);
    hide Run;
    if i.Restart? {
      SortedSelected(s.log, LatestTime(intents, origin));
      hide Selected, Stored;
    } else {
      hide Stored, Replay, Selected;
    }
  }

  // ---------------------------------------------------------------- the order of replay

  /** The rows of one instant, in the order of insertion. */
  ghost function RowsAt(log: seq<LogRow>, t: int): seq<LogRow> {
    if log == [] then []
    else RowsAt(log[..|log| - 1], t) + (if log[|log| - 1].at == t then [log[|log| - 1]] else [])
  }

  lemma {:induction false} RowsAtConcat(a: seq<LogRow>, b: seq<LogRow>, t: int)
    ensures RowsAt(a + b, t) == RowsAt(a, t) + RowsAt(b, t)
  {
    if b == [] {
      assert a + b == a;
    } else {
      RowsAtConcat(a, b[..|b| - 1], t);
      assert (a + b)[..|a + b| - 1] == a + b[..|b| - 1];
    }
  }

  lemma RowAt(row: LogRow, t: int)
    ensures RowsAt([row], t) == if row.at == t then [row] else []
  {
    assert [row][..0] == [];
  }

  lemma {:induction false} NoRowsAt(log: seq<LogRow>, t: int)
    requires forall i :: 0 <= i < |log| ==> t < log[i].at
    ensures RowsAt(log, t) == []
  {
    if log != [] {
      NoRowsAt(log[..|log| - 1], t);
    }
  }

  lemma {:induction false} InsertRowsAt(row: LogRow, log: seq<LogRow>, t: int)
    requires SortedBy(Earlier, log)
    ensures RowsAt(Insert(Earlier, row, log), t) == RowsAt(log, t) + RowsAt([row], t)
    decreases |log|
  {
    hide RowsAt;
    if log == [] {
      assert [] + [row] == [row];
      RowsAtConcat([], [row], t);
    } else if Earlier(log[0], row) {
      InsertRowsAt(row, log[1..], t);
      RowsAtConcat([log[0]], log[1..], t);
      RowsAtConcat([log[0]], Insert(Earlier, row, log[1..]), t);
      assert [log[0]] + log[1..] == log;
    } else {
      RowsAtConcat([row], log, t);
      BeforeAll(row, log, t);
    }
  }

  lemma BeforeAll(row: LogRow, log: seq<LogRow>, t: int)
    requires SortedBy(Earlier, log) && log != [] && row.at < log[0].at
    ensures RowsAt([row], t) + RowsAt(log, t) == RowsAt(log, t) + RowsAt([row], t)
  {
    RowAt(row, t);
    if row.at == t {
      NoRowsAt(log, t);
    }
    hide RowsAt;
  }

  /** Replay takes every row of the log once, by time, and the rows of one instant in the order of insertion. */
  lemma {:induction false} SelectedInOrder(log: seq<LogRow>, t: int)
    ensures multiset(Selected(log)) == multiset(log)
    ensures forall i, j :: 0 <= i < j < |Selected(log)| ==> Selected(log)[i].at <= Selected(log)[j].at
    ensures RowsAt(Selected(log), t) == RowsAt(log, t)
  {
    SortCorrect(Earlier, log);
    if log != [] {
      var front, last := log[..|log| - 1], log[|log| - 1];
      SelectedInOrder(front, t);
      InsertRowsAt(last, Selected(front), t);
      RowAt(last, t);
    }
  }
}
