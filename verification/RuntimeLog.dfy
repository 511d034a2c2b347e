/** Start and stop intents, their durable log, and its replay after a restart (server/api/v1/blockchain.py). */
module RuntimeLog {
  import opened Numbers
  import opened Sorting

  /** What identifies a running operation: its player and its base hashrate. */
  datatype Running = Running(player: string, hashrate: Rational)

  type Operations = map<string, Running>

  datatype EventType = OperationStart | OperationStop | StateChange

  /** A row of mining_operation_runtime_events; the hashrate column keeps six decimals. */
  datatype LogRow = LogRow(operation: string, player: string, eventType: EventType, hashrate: Option<int>, at: int)

  datatype Status = Started | AlreadyRunning | Stopped | BadRequest | Conflict | NotFound | NotDurable

  // ---------------------------------------------------------------- replay

  function ReplayRow(ops: Operations, row: LogRow): Operations {
    match row.eventType
    case OperationStart =>
      if row.operation in ops || row.hashrate.None? || row.hashrate.value <= 0 then ops
      else ops[row.operation := Running(row.player, Ratio(row.hashrate.value, MICRO))]
    case OperationStop => ops - {row.operation}
    case StateChange => ops
  }

  function Replay(ops: Operations, rows: seq<LogRow>): Operations {
    if rows == [] then ops else ReplayRow(Replay(ops, rows[..|rows| - 1]), rows[|rows| - 1])
  }

  predicate Earlier(a: LogRow, b: LogRow) {
    a.at <= b.at
  }

  /** SELECT ... ORDER BY occurred_at, created_at: rows of one instant stay in the order of insertion. */
  function Selected(log: seq<LogRow>): seq<LogRow> {
    SortBy(Earlier, log)
  }

  // ---------------------------------------------------------------- intents

  datatype Service = Service(operations: Operations, log: seq<LogRow>, recovered: bool)

  datatype Intent =
    | StartIntent(operation: string, player: string, hashrate: Rational, at: int, durable: bool)
    | StopIntent(operation: string, player: string, at: int, durable: bool)
    | Restart

  /** Recovery runs once, before the first intent is looked at. */
  function Recovered(s: Service): Service {
    if s.recovered then s else Service(Replay(s.operations, Selected(s.log)), s.log, true)
  }

  function StatusOf(s: Service, i: Intent): Status {
    var ops := Recovered(s).operations;
    match i
    case StartIntent(operation, player, hashrate, _, durable) =>
      if hashrate.num <= 0 then BadRequest
      else if operation in ops then (if ops[operation].player == player then AlreadyRunning else Conflict)
      else if !durable then NotDurable
      else Started
    case StopIntent(operation, player, _, durable) =>
      if operation !in ops then NotFound
      else if ops[operation].player != player then Conflict
      else if !durable then NotDurable
      else Stopped
    case Restart => Stopped
  }

  /** An intent with its effect; `durable` says whether the log row could be written. */
  function Handle(s: Service, i: Intent): Service {
    if i.Restart? then Service(map[], s.log, false)
    else if StatusOf(s, i) == BadRequest then s
    else
      var ready := Recovered(s);
      match i
      case StartIntent(operation, player, hashrate, at, _) =>
        if StatusOf(s, i) != Started then ready
        else
          Service(ready.operations[operation := Running(player, hashrate)],
                  ready.log + [LogRow(operation, player, OperationStart, Some(Stored(hashrate)), at)], true)
      case StopIntent(operation, player, at, _) =>
        if StatusOf(s, i) != Stopped then ready
        else
          Service(ready.operations - {operation}, ready.log + [LogRow(operation, player, OperationStop, None, at)],
                  true)
      case Restart => s
  }

  class RuntimeMiningService {
    var operations: Operations
    var log: seq<LogRow>
    var recoveryComplete: bool

    ghost function State(): Service
      reads this
    {
      Service(operations, log, recoveryComplete)
    }

    constructor ()
      ensures State() == Service(map[], [], false)
    {
      operations, log, recoveryComplete := map[], [], false;
    }

    method RecoverRuntimeOperations()
      modifies this`operations, this`recoveryComplete
      ensures State() == Recovered(old(State()))
    {
      if recoveryComplete {
        return;
      }
      var events := Selected(log);
      for i := 0 to |events|
        invariant operations == Replay(old(operations), events[..i]) && !recoveryComplete
      {
        assert events[..i + 1][..i] == events[..i];
        var row := events[i];
        if row.eventType == OperationStart {
          if row.operation !in operations && row.hashrate.Some? && 0 < row.hashrate.value {
            operations := operations[row.operation := Running(row.player, Ratio(row.hashrate.value, MICRO))];
          }
        } else if row.eventType == OperationStop {
          operations := operations - {row.operation};
        }
      }
      assert events[..|events|] == events;
      recoveryComplete := true;
    }

    method StartOperationIntent(operation: string, player: string, hashrate: Rational, at: int, durable: bool)
      returns (status: Status)
      modifies this
      ensures State() == Handle(old(State()), StartIntent(operation, player, hashrate, at, durable))
      ensures status == StatusOf(old(State()), StartIntent(operation, player, hashrate, at, durable))
    {
      if hashrate.num <= 0 {
        return BadRequest;
      }
      RecoverRuntimeOperations();
      if operation in operations {
        return if operations[operation].player != player then Conflict else AlreadyRunning;
      }
      if !durable {
        return NotDurable;
      }
      log := log + [LogRow(operation, player, OperationStart, Some(Stored(hashrate)), at)];
      operations := operations[operation := Running(player, hashrate)];
      return Started;
    }

    method StopOperationIntent(operation: string, player: string, at: int, durable: bool) returns (status: Status)
      modifies this
      ensures State() == Handle(old(State()), StopIntent(operation, player, at, durable))
      ensures status == StatusOf(old(State()), StopIntent(operation, player, at, durable))
    {
      RecoverRuntimeOperations();
      if operation !in operations {
        return NotFound;
      }
      if operations[operation].player != player {
        return Conflict;
      }
      if !durable {
        return NotDurable;
      }
      log := log + [LogRow(operation, player, OperationStop, None, at)];
      operations := operations - {operation};
      return Stopped;
    }
  }

  // ---------------------------------------------------------------- whole runs

  function Run(intents: seq<Intent>): Service {
    if intents == [] then Service(map[], [], false)
    else Handle(Run(intents[..|intents| - 1]), intents[|intents| - 1])
  }

  /** Event times do not go backwards. */
  ghost predicate TimesIncrease(intents: seq<Intent>) {
    forall i, j :: 0 <= i < j < |intents| && !intents[i].Restart? && !intents[j].Restart? ==>
      intents[i].at <= intents[j].at
  }

  /** The operations as the log can represent them: hashrates rounded to six decimals, and those that round to
  zero left out. */
  function Representable(ops: Operations): Operations {
    map id | id in ops && 0 < Stored(ops[id].hashrate)
      :: Running(ops[id].player, Ratio(Stored(ops[id].hashrate), MICRO))
  }

  ghost predicate LogSorted(log: seq<LogRow>, latest: int) {
    && (forall i, j :: 0 <= i < j < |log| ==> log[i].at <= log[j].at)
    && forall i :: 0 <= i < |log| ==> log[i].at <= latest
  }

  lemma SortedSelected(log: seq<LogRow>, latest: int)
    requires LogSorted(log, latest)
    ensures Selected(log) == log
  {
    SortFixed(Earlier, log);
  }

  lemma StoredAgain(k: int)
    ensures Stored(Ratio(k, MICRO)) == k
  {
    RoundExact(k, MICRO);
  }

  lemma RepresentableTwice(ops: Operations)
    ensures Representable(Representable(ops)) == Representable(ops)
  {
    hide Stored;
    forall k: int
      ensures Stored(Ratio(k, MICRO)) == k
    {
      StoredAgain(k);
    }
  }

  lemma ReplayAppend(ops: Operations, log: seq<LogRow>, row: LogRow)
    ensures Replay(ops, log + [row]) == ReplayRow(Replay(ops, log), row)
  {
    assert (log + [row])[..|log|] == log;
  }

  /** The log always replays to what it can represent of the running operations. */
  ghost predicate Inv(s: Service, latest: int) {
    && LogSorted(s.log, latest)
    && Replay(map[], s.log) == Representable(Recovered(s).operations)
    && (!s.recovered ==> s.operations == map[])
  }

  lemma RecoveredInv(s: Service, latest: int)
    requires Inv(s, latest)
    ensures Inv(Recovered(s), latest)
    ensures Recovered(Recovered(s)) == Recovered(s)
  {
  }

  lemma LogRowKeepsInv(s: Service, row: LogRow, ops: Operations, latest: int)
    requires Inv(s, latest) && s.recovered && latest <= row.at
    requires Representable(ops) == ReplayRow(Representable(s.operations), row)
    ensures Inv(Service(ops, s.log + [row], true), row.at)
  {
    hide Representable, ReplayRow;
    ReplayAppend(map[], s.log, row);
  }

  lemma StartRepresented(ops: Operations, operation: string, player: string, hashrate: Rational, at: int)
    requires operation !in ops
    ensures Representable(ops[operation := Running(player, hashrate)])
      == ReplayRow(Representable(ops), LogRow(operation, player, OperationStart, Some(Stored(hashrate)), at))
  {
    hide Stored;
  }

  lemma StopRepresented(ops: Operations, operation: string, player: string, at: int)
    ensures Representable(ops - {operation})
      == ReplayRow(Representable(ops), LogRow(operation, player, OperationStop, None, at))
  {
    hide Stored;
  }

  lemma RestartKeepsInv(s: Service, latest: int)
    requires Inv(s, latest)
    ensures Inv(Service(map[], s.log, false), latest)
  {
    SortedSelected(s.log, latest);
    hide Selected;
    RepresentableTwice(Recovered(s).operations);
    hide Representable;
  }

  lemma {:induction false} HandleKeepsInv(s: Service, i: Intent, latest: int)
    requires Inv(s, latest)
    requires !i.Restart? ==> latest <= i.at
    ensures Inv(Handle(s, i), if i.Restart? then latest else i.at)
  {
    RecoveredInv(s, latest);
    var ready := Recovered(s);
    match i
    case StartIntent(operation, player, hashrate, at, durable) =>
      if StatusOf(s, i) == Started {
        StartRepresented(ready.operations, operation, player, hashrate, at);
        hide Representable, ReplayRow, Stored;
        LogRowKeepsInv(ready, LogRow(operation, player, OperationStart, Some(Stored(hashrate)), at),
                       ready.operations[operation := Running(player, hashrate)], latest);
      }
    case StopIntent(operation, player, at, durable) =>
      if StatusOf(s, i) == Stopped {
        StopRepresented(ready.operations, operation, player, at);
        hide Representable, ReplayRow;
        LogRowKeepsInv(ready, LogRow(operation, player, OperationStop, None, at), ready.operations - {operation},
                       latest);
      }
    case Restart => RestartKeepsInv(s, latest);
  }

  /** Time of the last intent, or `origin` before the first. */
  ghost function LatestTime(intents: seq<Intent>, origin: int): int {
    if intents == [] then origin
    else if intents[|intents| - 1].Restart? then LatestTime(intents[..|intents| - 1], origin)
    else intents[|intents| - 1].at
  }

  ghost predicate NoneBefore(intents: seq<Intent>, origin: int) {
    forall i :: 0 <= i < |intents| ==> !intents[i].Restart? ==> origin <= intents[i].at
  }

  lemma {:induction false} OriginExists(intents: seq<Intent>) returns (origin: int)
    ensures NoneBefore(intents, origin)
  {
    if intents == [] {
      origin := 0;
    } else {
      origin := OriginExists(intents[..|intents| - 1]);
      if !intents[|intents| - 1].Restart? {
        origin := Min(origin, intents[|intents| - 1].at);
      }
    }
  }

  lemma {:induction false} LatestTimeBounds(intents: seq<Intent>, origin: int)
    ensures LatestTime(intents, origin) == origin
      || exists i :: 0 <= i < |intents| && !intents[i].Restart? && intents[i].at == LatestTime(intents, origin)
  {
    if intents != [] {
      var n := |intents| - 1;
      if intents[n].Restart? {
        LatestTimeBounds(intents[..n], origin);
      } else {
        assert 0 <= n < |intents| && intents[n].at == LatestTime(intents, origin);
      }
    }
  }

  lemma {:induction false} RunKeepsInv(intents: seq<Intent>, origin: int)
    requires TimesIncrease(intents) && NoneBefore(intents, origin)
    ensures Inv(Run(intents), LatestTime(intents, origin))
  {
    if intents != [] {
      var before, last := intents[..|intents| - 1], intents[|intents| - 1];
      RunKeepsInv(before, origin);
      LatestTimeBounds(before, origin);
      hide Inv, Handle;
      HandleKeepsInv(Run(before), last, LatestTime(before, origin));
    } else {
      assert Representable(map[]) == map[];
      assert Selected([]) == [];
    }
  }

  /** Equal operations: same ids, same players, hashrates of the same value. */
  ghost predicate SameOperations(a: Operations, b: Operations) {
    && a.Keys == b.Keys
    && forall id :: id in a ==>
      && a[id].player == b[id].player
      && a[id].hashrate.num * b[id].hashrate.den == b[id].hashrate.num * a[id].hashrate.den
  }

  /** A hashrate that six decimals hold without loss. */
  predicate SixDecimals(hashrate: Rational) {
    (hashrate.num * MICRO) % hashrate.den == 0
  }

  lemma {:induction false} StoredExactly(hashrate: Rational)
    requires 0 < hashrate.num
    ensures SixDecimals(hashrate) <==>
      0 < Stored(hashrate) && Stored(hashrate) * hashrate.den == hashrate.num * MICRO
  {
    var num, den, stored := hashrate.num * MICRO, hashrate.den, Stored(hashrate);
    if SixDecimals(hashrate) {
      RoundExact(num / den, den);
      assert num == (num / den) * den;
      if stored <= 0 {
        ProductMonotone(stored, 0, den);
      }
    } else if stored * den == num {
      ProductMod(stored, den);
    }
  }

  ghost predicate PositiveRates(ops: Operations) {
    forall id :: id in ops ==> 0 < ops[id].hashrate.num
  }

  /** Replaying into an empty service yields the running operations exactly when each of their hashrates has at
  most six decimals. */
  lemma {:induction false} RepresentableIsSame(ops: Operations)
    requires PositiveRates(ops)
    ensures SameOperations(Representable(ops), ops) <==> forall id :: id in ops ==> SixDecimals(ops[id].hashrate)
  {
    hide Stored, SixDecimals;
    forall id | id in ops
      ensures SixDecimals(ops[id].hashrate) <==>
        0 < Stored(ops[id].hashrate) && Stored(ops[id].hashrate) * ops[id].hashrate.den == ops[id].hashrate.num * MICRO
    {
      StoredExactly(ops[id].hashrate);
    }
    if SameOperations(Representable(ops), ops) {
      forall id | id in ops
        ensures SixDecimals(ops[id].hashrate)
      {
        assert id in Representable(ops);
      }
    }
  }

  lemma {:induction false} ReplayPositive(ops: Operations, rows: seq<LogRow>)
    requires PositiveRates(ops)
    ensures PositiveRates(Replay(ops, rows))
  {
    if rows != [] {
      ReplayPositive(ops, rows[..|rows| - 1]);
    }
  }

  lemma {:induction false} RunPositive(intents: seq<Intent>)
    ensures PositiveRates(Run(intents).operations) && PositiveRates(Recovered(Run(intents)).operations)
  {
    if intents != [] {
      RunPositive(intents[..|intents| - 1]);
      hide Selected, Replay;
      var s := Run(intents);
      ReplayPositive(s.operations, Selected(s.log));
    } else {
      ReplayPositive(map[], Selected([]));
    }
  }

  /** For every sequential run of intents and restarts, with increasing event times: replaying the durable log
  into an empty service restores exactly the operations that are running, if and only if none of them runs at
  a hashrate with more than six decimals. */
  lemma {:induction false} ReplayRestoresOperations(intents: seq<Intent>)
    requires TimesIncrease(intents)
    ensures var s := Run(intents);
      var running := Recovered(s).operations;
      SameOperations(Replay(map[], Selected(s.log)), running)
      <==> forall id :: id in running ==> SixDecimals(running[id].hashrate)
  {
    var origin := OriginExists(intents);
    RunKeepsInv(intents, origin);
    RunPositive(intents);
    var s := Run(intents);
    SortedSelected(s.log, LatestTime(intents, origin));
    hide Selected, Run, SixDecimals, SameOperations;
    RepresentableIsSame(Recovered(s).operations);
  }

  /** The smallest loss: a tenth of a micro-hash per second runs, but is gone after a restart. */
  lemma TinyHashrateIsLost()
    ensures var intents := [StartIntent("op", "p", Ratio(1, 10_000_000), 1, true)];
      && "op" in Run(intents).operations
      && Recovered(Run(intents + [Restart])).operations == map[]
  {
    var start := StartIntent("op", "p", Ratio(1, 10_000_000), 1, true);
    assert [start][..0] == [] && [start] + [Restart] == [start, Restart] && [start, Restart][..1] == [start];
    assert Stored(Ratio(1, 10_000_000)) == 0;
    var row := LogRow("op", "p", OperationStart, Some(0), 1);
    assert Selected([]) == [];
    assert Run([start]).log == [row];
    assert [row][..0] == [];
    assert Selected([row]) == [row];
    assert Replay(map[], [row]) == map[];
  }

  // ---------------------------------------------------------------- the log of one operation

  /** Start (true) and stop (false) events of one operation, in order. */
  ghost function Kinds(log: seq<LogRow>, id: string): seq<bool> {
    if log == [] then []
    else
      var row := log[|log| - 1];
      Kinds(log[..|log| - 1], id)
      + (if row.operation == id && !row.eventType.StateChange? then [row.eventType.OperationStart?] else [])
  }

  /** Begins with a start, and every event differs from the one before it. */
  ghost predicate Alternates(kinds: seq<bool>) {
    (kinds != [] ==> kinds[0]) && forall i :: 0 <= i < |kinds| - 1 ==> kinds[i + 1] == !kinds[i]
  }

  /** The events of an operation alternate, and the last one is a start exactly if the operation runs. */
  ghost predicate OperationAlternates(log: seq<LogRow>, ops: Operations, id: string) {
    var kinds := Kinds(log, id);
    Alternates(kinds) && (id in ops <==> kinds != [] && kinds[|kinds| - 1])
  }

  lemma AppendStart(log: seq<LogRow>, ops: Operations, row: LogRow, running: Running, id: string)
    requires OperationAlternates(log, ops, id) && row.eventType.OperationStart? && row.operation !in ops
    ensures OperationAlternates(log + [row], ops[row.operation := running], id)
  {
    assert (log + [row])[..|log|] == log;
    var kinds := Kinds(log, id);
    assert Kinds(log + [row], id) == kinds + (if row.operation == id then [true] else []);
    hide Kinds;
  }

  lemma AppendStop(log: seq<LogRow>, ops: Operations, row: LogRow, id: string)
    requires OperationAlternates(log, ops, id) && row.eventType.OperationStop? && row.operation in ops
    ensures OperationAlternates(log + [row], ops - {row.operation}, id)
  {
    assert (log + [row])[..|log|] == log;
    var kinds := Kinds(log, id);
    assert Kinds(log + [row], id) == kinds + (if row.operation == id then [false] else []);
    hide Kinds;
  }

  lemma {:induction false} HandleAlternates(s: Service, i: Intent, id: string)
    requires OperationAlternates(s.log, s.operations, id) && !i.Restart? && Recovered(s).operations == s.operations
    ensures OperationAlternates(Handle(s, i).log, Handle(s, i).operations, id)
  {
    assert Recovered(s).log == s.log;
    hide Recovered, Stored, OperationAlternates;
    match i
    case StartIntent(operation, player, hashrate, at, durable) =>
      if StatusOf(s, i) == Started {
        AppendStart(s.log, s.operations, LogRow(operation, player, OperationStart, Some(Stored(hashrate)), at),
                    Running(player, hashrate), id);
      }
    case StopIntent(operation, player, at, durable) =>
      if StatusOf(s, i) == Stopped {
        AppendStop(s.log, s.operations, LogRow(operation, player, OperationStop, None, at), id);
      }
  }

  lemma HandleRecovers(s: Service, i: Intent)
    requires !i.Restart? && (s.recovered || s == Service(map[], [], false))
    ensures Recovered(s).operations == s.operations
    ensures Handle(s, i).recovered || Handle(s, i) == Service(map[], [], false)
  {
    assert Selected([]) == [];
  }

  /** While one service runs, every operation's log alternates start and stop, beginning with a start, and ends
  with a start exactly for the operations that are running. */
  lemma {:induction false} LogsAlternate(intents: seq<Intent>, id: string)
    requires forall i :: 0 <= i < |intents| ==> !intents[i].Restart?
    ensures OperationAlternates(Run(intents).log, Run(intents).operations, id)
    ensures Run(intents).recovered || Run(intents) == Service(map[], [], false)
  {
    if intents != [] {
      hide Recovered, OperationAlternates, Handle;
      var before, last := intents[..|intents| - 1], intents[|intents| - 1];
      LogsAlternate(before, id);
      HandleRecovers(Run(before), last);
      HandleAlternates(Run(before), last, id);
    }
  }

  // ---------------------------------------------------------------- the log across restarts

  /** The operation would survive a restart. */
  ghost predicate Storable(ops: Operations, id: string) {
    id in ops ==> 0 < Stored(ops[id].hashrate)
  }

  ghost predicate StorableStart(s: Service, i: Intent, id: string) {
    i.StartIntent? && i.operation == id && StatusOf(s, i) == Started ==> 0 < Stored(i.hashrate)
  }

  /** Every accepted start of the operation has a hashrate that does not round to zero. */
  ghost predicate StorableStarts(intents: seq<Intent>, id: string) {
    intents == []
    || (StorableStarts(intents[..|intents| - 1], id)
        && StorableStart(Run(intents[..|intents| - 1]), intents[|intents| - 1], id))
  }

  lemma RestartAlternates(s: Service, id: string, latest: int)
    requires Inv(s, latest) && OperationAlternates(s.log, Recovered(s).operations, id)
    requires Storable(Recovered(s).operations, id)
    ensures var after := Recovered(Handle(s, Restart));
      OperationAlternates(after.log, after.operations, id) && Storable(after.operations, id)
  {
    SortedSelected(s.log, latest);
    hide Selected, Stored;
    if id in Recovered(s).operations {
      StoredAgain(Stored(Recovered(s).operations[id].hashrate));
    }
  }

  lemma IntentAlternates(s: Service, i: Intent, id: string)
    requires !i.Restart? && OperationAlternates(s.log, Recovered(s).operations, id)
    requires Storable(Recovered(s).operations, id) && StorableStart(s, i, id)
    ensures var after := Recovered(Handle(s, i));
      OperationAlternates(after.log, after.operations, id) && Storable(after.operations, id)
  {
    hide OperationAlternates, Stored, Replay, Selected;
    if StatusOf(s, i) != BadRequest {
      var ready := Recovered(s);
      assert Recovered(ready) == ready && Handle(s, i) == Handle(ready, i);
      HandleAlternates(ready, i, id);
    }
  }

  /** Also over runs with restarts the log of an operation alternates start and stop, and ends with a start exactly if
  the operation runs, provided that none of its accepted starts had a hashrate that rounds to zero. */
  lemma {:induction false} LogsAlternateAcrossRestarts(intents: seq<Intent>, id: string)
    requires TimesIncrease(intents) && StorableStarts(intents, id)
    ensures var s := Recovered(Run(intents));
      OperationAlternates(s.log, s.operations, id) && Storable(s.operations, id)
  {
    if intents == [] {
      assert Selected([]) == [];
    } else {
      var before, last := intents[..|intents| - 1], intents[|intents| - 1];
      LogsAlternateAcrossRestarts(before, id);
      var origin := OriginExists(before);
      RunKeepsInv(before, origin);
      hide Inv, OperationAlternates, Storable, StorableStart, Recovered, Handle;
      if last.Restart? {
        RestartAlternates(Run(before), id, LatestTime(before, origin));
      } else {
        IntentAlternates(Run(before), last, id);
      }
    }
  }

  /** A start at a hashrate that rounds to zero is forgotten by a restart and can be logged a second time. */
  lemma {:induction false} TwoStartsInARow(hashrate: Rational)
    requires 0 < hashrate.num && Stored(hashrate) <= 0
    ensures var start, again := StartIntent("op", "p", hashrate, 1, true), StartIntent("op", "p", hashrate, 2, true);
      Kinds(Run([start, Restart, again]).log, "op") == [true, true]
  {
    var start, again := StartIntent("op", "p", hashrate, 1, true), StartIntent("op", "p", hashrate, 2, true);
    var row := LogRow("op", "p", OperationStart, Some(Stored(hashrate)), 1);
    var row' := LogRow("op", "p", OperationStart, Some(Stored(hashrate)), 2);
    NothingReplayed(row);
    RunOnce([], start);
    assert Run([]) == Service(map[], [], false);
    hide Stored, Run, Kinds, Replay, Selected;
    RunOnce([start], Restart);
    RunOnce([start, Restart], again);
    assert [] + [start] == [start] && [start] + [Restart] == [start, Restart];
    assert [start, Restart] + [again] == [start, Restart, again];
    assert Run([start]) == Service(map["op" := Running("p", hashrate)], [row], true);
    assert Run([start, Restart]) == Service(map[], [row], false);
    assert Run([start, Restart, again]).log == [row, row'];
    TwoStarts(row, row');
  }

  lemma RunOnce(intents: seq<Intent>, i: Intent)
    ensures Run(intents + [i]) == Handle(Run(intents), i)
  {
    assert (intents + [i])[..|intents|] == intents;
  }

  lemma NothingReplayed(row: LogRow)
    requires row.eventType == OperationStart && row.hashrate.Some? && row.hashrate.value <= 0
    ensures Replay(map[], Selected([])) == map[] && Replay(map[], Selected([row])) == map[]
  {
    assert Selected([]) == [];
    assert [row][..0] == [];
    assert Selected([row]) == [row];
  }

  lemma TwoStarts(row: LogRow, row': LogRow)
    requires row.eventType == row'.eventType == OperationStart && row.operation == row'.operation
    ensures Kinds([row, row'], row.operation) == [true, true]
  {
    assert [row, row'][..1] == [row] && [row][..0] == [];
    assert Kinds([row], row.operation) == [] + [true];
  }

  ghost predicate StartsAt(intents: seq<Intent>, hashrate: Rational) {
    forall i :: 0 <= i < |intents| && intents[i].StartIntent? ==> intents[i].hashrate == hashrate
  }

  lemma {:induction false} StartsAtStorable(intents: seq<Intent>, hashrate: Rational, id: string)
    requires StartsAt(intents, hashrate) && 0 < Stored(hashrate)
    ensures StorableStarts(intents, id)
  {
    if intents != [] {
      StartsAtStorable(intents[..|intents| - 1], hashrate, id);
      hide Stored, StatusOf;
    }
  }

  ghost predicate AlternatesForAll(intents: seq<Intent>, hashrate: Rational) {
    TimesIncrease(intents) && StartsAt(intents, hashrate) ==> forall id :: Alternates(Kinds(Run(intents).log, id))
  }

  /** Of operations with one hashrate, the logs alternate over all runs with restarts if and only if that hashrate does
  not round to zero. */
  lemma AlternationNeedsStorableHashrate(hashrate: Rational)
    requires 0 < hashrate.num
    ensures (forall intents :: AlternatesForAll(intents, hashrate)) <==> 0 < Stored(hashrate)
  {
    hide Stored;
    if 0 < Stored(hashrate) {
      forall intents
        ensures AlternatesForAll(intents, hashrate)
      {
        if TimesIncrease(intents) && StartsAt(intents, hashrate) {
          forall id
            ensures Alternates(Kinds(Run(intents).log, id))
          {
            StartsAtStorable(intents, hashrate, id);
            LogsAlternateAcrossRestarts(intents, id);
          }
        }
      }
    } else {
      TwoStartsInARow(hashrate);
      var start, again := StartIntent("op", "p", hashrate, 1, true), StartIntent("op", "p", hashrate, 2, true);
      var intents := [start, Restart, again];
      hide Run, Kinds;
      assert TimesIncrease(intents) && StartsAt(intents, hashrate);
      assert !Alternates(Kinds(Run(intents).log, "op")) by {
        assert Kinds(Run(intents).log, "op")[1];
      }
      assert !AlternatesForAll(intents, hashrate);
    }
  }

  // ---------------------------------------------------------------- recovery is idempotent

  function LookUp(ops: Operations, id: string): Option<Running> {
    if id in ops then Some(ops[id]) else None
  }

  lemma {:induction false} ReplayIsLocal(a: Operations, b: Operations, rows: seq<LogRow>, id: string)
    requires LookUp(a, id) == LookUp(b, id)
    ensures LookUp(Replay(a, rows), id) == LookUp(Replay(b, rows), id)
  {
    if rows != [] {
      ReplayIsLocal(a, b, rows[..|rows| - 1], id);
    }
  }

  /** A running operation either survives a replay unchanged, or the replay forgets where it started from. */
  lemma {:induction false} ReplayKeepsOrForgets(a: Operations, b: Operations, rows: seq<LogRow>, id: string)
    requires id in b
    ensures LookUp(Replay(a, rows), id) == LookUp(Replay(b, rows), id) || LookUp(Replay(b, rows), id) == Some(b[id])
  {
    if rows != [] {
      ReplayKeepsOrForgets(a, b, rows[..|rows| - 1], id);
    }
  }

  /** Replaying any log a second time, on top of its own result, changes nothing. */
  lemma ReplayIdempotent(rows: seq<LogRow>)
    ensures Replay(Replay(map[], rows), rows) == Replay(map[], rows)
  {
    var once := Replay(map[], rows);
    var twice := Replay(once, rows);
    forall id
      ensures LookUp(twice, id) == LookUp(once, id)
    {
      if id in once {
        ReplayKeepsOrForgets(map[], once, rows, id);
      } else {
        ReplayIsLocal(map[], once, rows, id);
      }
    }
    hide Replay;
    assert twice.Keys == once.Keys by {
      forall id
        ensures id in twice <==> id in once
      {
        assert LookUp(twice, id) == LookUp(once, id);
      }
    }
    forall id | id in once
      ensures twice[id] == once[id]
    {
      assert LookUp(twice, id) == LookUp(once, id);
    }
  }
}
