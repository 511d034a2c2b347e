/** Stock of the NPC market with lazy restocking (server/domain/market/service.py, _lock_and_get_stock). */
module NpcStock {
  import opened Numbers
  import opened DecimalContext

  /** A catalogue item; price in units of 0.000001, inventory None for "unlimited". */
  datatype Item = Item(
    id: string, price: int, inventory: Option<int>, restockPerDay: Option<int>, requiredTier: Option<int>,
    hardwareUpgrade: bool)

  datatype StockRow = StockRow(current: int, lastRestockedAt: int)

  /** One day in microseconds. */
  const DAY: int := 86_400 * SECOND

  /** What loading the catalogue guarantees. */
  ghost predicate Catalogued(item: Item) {
    && 0 <= item.price // positive in the catalogue, but rounded to six decimals
    && (item.inventory.Some? ==> 0 < item.inventory.value)
    && (item.restockPerDay.Some? ==> 0 < item.restockPerDay.value && item.inventory.Some?)
  }

  /** The row, created with a full inventory on first use. */
  function Existing(row: Option<StockRow>, inventory: int, now: int): StockRow {
    if row.Some? then row.value else StockRow(inventory, now)
  }

  /** Restocks whole units only, int(elapsed / 86400 * rate); the clock of the row moves when at least one unit
  arrives. */
  function Restock(row: StockRow, inventory: int, ratePerDay: Option<int>, now: int): StockRow {
    if ratePerDay.None? || now <= row.lastRestockedAt then row
    else
      var units := FloorShare(ratePerDay.value, now - row.lastRestockedAt, DAY);
      if units <= 0 then row else StockRow(Min(inventory, row.current + units), now)
  }

  /** What a read or a purchase finds, and leaves in the table. */
  function Refreshed(row: Option<StockRow>, inventory: int, ratePerDay: Option<int>, now: int): StockRow {
    Restock(Existing(row, inventory, now), inventory, ratePerDay, now)
  }

  // ---------------------------------------------------------------- whole runs

  /** A request for the stock alone, or a purchase of a quantity. */
  datatype Request = StockRead(now: int) | StockSale(now: int, quantity: int)

  /** The row with bookkeeping: units sold and restocked so far, and when the row was created. */
  datatype History = History(row: Option<StockRow>, sold: int, restocked: int, createdAt: int)

  function Start(): History {
    History(None, 0, 0, 0)
  }

  /** One committed transaction. A purchase that finds too little is rolled back, restock included. */
  function Step(inventory: int, ratePerDay: Option<int>, h: History, r: Request): History {
    var found := Existing(h.row, inventory, r.now);
    var refilled := Restock(found, inventory, ratePerDay, r.now);
    var created := if h.row.Some? then h.createdAt else r.now;
    match r
    case StockRead(_) => History(Some(refilled), h.sold, h.restocked + refilled.current - found.current, created)
    case StockSale(_, quantity) =>
      if quantity <= 0 || refilled.current < quantity then h
      else
        History(Some(refilled.(current := refilled.current - quantity)), h.sold + quantity,
                h.restocked + refilled.current - found.current, created)
  }

  ghost function Run(inventory: int, ratePerDay: Option<int>, requests: seq<Request>): History {
    if requests == [] then Start()
    else Step(inventory, ratePerDay, Run(inventory, ratePerDay, requests[..|requests| - 1]), requests[|requests| - 1])
  }

  function RateOf(ratePerDay: Option<int>): int {
    if ratePerDay.Some? then ratePerDay.value else 0
  }

  ghost predicate Inv(inventory: int, ratePerDay: Option<int>, h: History, latest: int) {
    match h.row
    case None => h.sold == 0 && h.restocked == 0
    case Some(row) =>
      && 0 <= row.current <= inventory
      && row.current == inventory + h.restocked - h.sold
      && h.createdAt <= row.lastRestockedAt <= latest
      && 0 <= h.sold && 0 <= h.restocked
      && Allowed(h.restocked, RateOf(ratePerDay), row.lastRestockedAt - h.createdAt)
  }

  /** Units that a rate per day allows in a span of time, up to three halves of the last of 28 digits. */
  ghost predicate Allowed(units: int, rate: int, span: int) {
    2 * FIRST * (units * DAY) <= (2 * FIRST + 3) * (rate * span)
  }

  lemma RestockBounds(row: StockRow, inventory: int, ratePerDay: Option<int>, now: int)
    requires 0 <= row.current <= inventory && 0 <= RateOf(ratePerDay)
    ensures var refilled := Restock(row, inventory, ratePerDay, now);
      && row.current <= refilled.current <= inventory
      && row.lastRestockedAt <= refilled.lastRestockedAt
      && (refilled == row || refilled.lastRestockedAt == now)
      && Allowed(refilled.current - row.current, RateOf(ratePerDay), refilled.lastRestockedAt - row.lastRestockedAt)
  {
    if ratePerDay.Some? && row.lastRestockedAt < now {
      FloorShareClose(ratePerDay.value, now - row.lastRestockedAt, DAY);
      hide FloorShare;
    }
  }

  lemma SpanAdds(rate: int, a: int, b: int, c: int)
    ensures rate * (c - a) == rate * (b - a) + rate * (c - b)
  {
  }

  lemma {:induction false} StepKeepsInv(inventory: int, ratePerDay: Option<int>, h: History, r: Request, latest: int)
    requires 0 <= inventory && 0 <= RateOf(ratePerDay)
    requires Inv(inventory, ratePerDay, h, latest) && r.now <= latest
    ensures Inv(inventory, ratePerDay, Step(inventory, ratePerDay, h, r), latest)
  {
    var found := Existing(h.row, inventory, r.now);
    var created := if h.row.Some? then h.createdAt else r.now;
    RestockBounds(found, inventory, ratePerDay, r.now);
    var refilled := Restock(found, inventory, ratePerDay, r.now);
    hide Restock;
    SpanAdds(RateOf(ratePerDay), created, found.lastRestockedAt, refilled.lastRestockedAt);
  }

  /** In every reachable state the stock lies between zero and the catalogue inventory. */
  lemma {:induction false} StockInBounds(inventory: int, ratePerDay: Option<int>, requests: seq<Request>, latest: int)
    requires 0 <= inventory && 0 <= RateOf(ratePerDay)
    requires forall i :: 0 <= i < |requests| ==> requests[i].now <= latest
    ensures Inv(inventory, ratePerDay, Run(inventory, ratePerDay, requests), latest)
  {
    if requests != [] {
      hide Inv, Step;
      var before := requests[..|requests| - 1];
      StockInBounds(inventory, ratePerDay, before, latest);
      StepKeepsInv(inventory, ratePerDay, Run(inventory, ratePerDay, before), requests[|requests| - 1], latest);
    } else {
      assert Inv(inventory, ratePerDay, Start(), latest);
    }
  }

  /** Sales never exceed the inventory plus what the rate allows between the first request and the latest one,
  whatever the order of the clocks; as long as 28 digits suffice, in whole units. */
  lemma {:induction false} SalesAreBounded(inventory: int, ratePerDay: Option<int>, requests: seq<Request>, latest: int)
    requires 0 <= inventory && 0 <= RateOf(ratePerDay)
    requires forall i :: 0 <= i < |requests| ==> requests[i].now <= latest
    ensures var h := Run(inventory, ratePerDay, requests);
      h.row.Some? ==>
        && h.sold <= inventory + h.restocked
        && Allowed(h.restocked, RateOf(ratePerDay), latest - h.createdAt)
        && (Precise(RateOf(ratePerDay) * (latest - h.createdAt)) ==>
              h.sold <= inventory + RoundFloor(RateOf(ratePerDay) * (latest - h.createdAt), DAY))
  {
    StockInBounds(inventory, ratePerDay, requests, latest);
    hide Run;
    var h := Run(inventory, ratePerDay, requests);
    if h.row.Some? {
      var rate := RateOf(ratePerDay);
      SpanAdds(rate, h.createdAt, h.row.value.lastRestockedAt, latest);
      ProductMonotone(0, rate, latest - h.row.value.lastRestockedAt);
      if Precise(rate * (latest - h.createdAt)) {
        WholeUnits(h.restocked, rate * (latest - h.createdAt));
      }
    }
  }

  lemma {:induction false} WholeUnits(units: int, allowance: int)
    requires 2 * FIRST * (units * DAY) <= (2 * FIRST + 3) * allowance && Precise(allowance)
    ensures units <= RoundFloor(allowance, DAY)
  {
    assert units * DAY <= allowance;
    ProductReflects(units, RoundFloor(allowance, DAY), DAY);
  }

  // ---------------------------------------------------------------- reads without a lock

  /** What a catalogue read has selected, without locking the row. */
  datatype Selected = Selected(seen: StockRow, now: int)

  /** The table with the reads that are still running, and bookkeeping. */
  datatype Shared = Shared(row: Option<StockRow>, pending: map<int, Selected>, sold: int, createdAt: int)

  /** A catalogue read selects the row in one statement and writes the restocked row in another; other reads and
  purchases may commit in between. A purchase locks the row. */
  datatype Event = ReadSelect(id: int, now: int) | ReadWrite(id: int) | Sale(now: int, quantity: int)

  /** The second statement of a read: nothing to write unless units arrived. */
  function WriteBack(row: StockRow, read: Selected, inventory: int, ratePerDay: Option<int>): StockRow {
    var refilled := Restock(read.seen, inventory, ratePerDay, read.now);
    if refilled == read.seen then row else refilled
  }

  function ApplyEvent(inventory: int, ratePerDay: Option<int>, s: Shared, e: Event): Shared {
    match e
    case ReadSelect(id, now) =>
      var found := Existing(s.row, inventory, now);
      Shared(Some(found), s.pending[id := Selected(found, now)], s.sold, if s.row.Some? then s.createdAt else now)
    case ReadWrite(id) =>
      if id !in s.pending || s.row.None? then s
      else s.(row := Some(WriteBack(s.row.value, s.pending[id], inventory, ratePerDay)), pending := s.pending - {id})
    case Sale(now, quantity) =>
      var refilled := Refreshed(s.row, inventory, ratePerDay, now);
      if quantity <= 0 || refilled.current < quantity then s
      else
        Shared(Some(refilled.(current := refilled.current - quantity)), s.pending, s.sold + quantity,
               if s.row.Some? then s.createdAt else now)
  }

  ghost function RunShared(inventory: int, ratePerDay: Option<int>, events: seq<Event>): Shared {
    if events == [] then Shared(None, map[], 0, 0)
    else
      var before := RunShared(inventory, ratePerDay, events[..|events| - 1]);
      ApplyEvent(inventory, ratePerDay, before, events[|events| - 1])
  }

  lemma RunMore(inventory: int, ratePerDay: Option<int>, events: seq<Event>, e: Event)
    ensures RunShared(inventory, ratePerDay, events + [e])
      == ApplyEvent(inventory, ratePerDay, RunShared(inventory, ratePerDay, events), e)
  {
    assert (events + [e])[..|events|] == events;
  }

  /** A read whose two statements follow each other is the atomic read of the histories above. */
  ghost function Expanded(requests: seq<Request>): seq<Event> {
    if requests == [] then []
    else
      var last := requests[|requests| - 1];
      Expanded(requests[..|requests| - 1])
      + match last
        case StockRead(now) => [ReadSelect(0, now)] + [ReadWrite(0)]
        case StockSale(now, quantity) => [Sale(now, quantity)]
  }

  /** One request and its events. */
  lemma OneRequest(inventory: int, ratePerDay: Option<int>, h: History, r: Request)
    ensures var s, after := Shared(h.row, map[], h.sold, h.createdAt), Step(inventory, ratePerDay, h, r);
      Shared(after.row, map[], after.sold, after.createdAt)
      == match r
         case StockRead(now) =>
           ApplyEvent(inventory, ratePerDay, ApplyEvent(inventory, ratePerDay, s, ReadSelect(0, now)), ReadWrite(0))
         case StockSale(now, quantity) => ApplyEvent(inventory, ratePerDay, s, Sale(now, quantity))
  {
    hide Restock;
    if r.StockRead? {
      assert map[0 := Selected(Existing(h.row, inventory, r.now), r.now)] - {0} == map[];
    }
  }

  /** Without interleaving, the shared table runs through the same states as the histories. */
  lemma {:induction false} UninterruptedReads(inventory: int, ratePerDay: Option<int>, requests: seq<Request>)
    ensures var h := Run(inventory, ratePerDay, requests);
      RunShared(inventory, ratePerDay, Expanded(requests)) == Shared(h.row, map[], h.sold, h.createdAt)
  {
    if requests != [] {
      var before, last := requests[..|requests| - 1], requests[|requests| - 1];
      UninterruptedReads(inventory, ratePerDay, before);
      OneRequest(inventory, ratePerDay, Run(inventory, ratePerDay, before), last);
      var events := Expanded(before);
      match last
      case StockRead(now) =>
        RunMore(inventory, ratePerDay, events, ReadSelect(0, now));
        RunMore(inventory, ratePerDay, events + [ReadSelect(0, now)], ReadWrite(0));
        assert Expanded(requests) == events + [ReadSelect(0, now)] + [ReadWrite(0)];
        hide ApplyEvent, Step, RunShared;
      case StockSale(now, quantity) =>
        RunMore(inventory, ratePerDay, events, Sale(now, quantity));
        assert Expanded(requests) == events + [Sale(now, quantity)];
        hide ApplyEvent, Step, RunShared;
    }
  }

  ghost predicate SharedInv(inventory: int, s: Shared) {
    && (s.row.Some? ==> 0 <= s.row.value.current <= inventory)
    && (s.row.None? ==> s.pending == map[] && s.sold == 0)
    && forall id :: id in s.pending ==> 0 <= s.pending[id].seen.current <= inventory
  }

  lemma WriteBackInBounds(row: StockRow, read: Selected, inventory: int, ratePerDay: Option<int>)
    requires 0 <= row.current <= inventory && 0 <= read.seen.current <= inventory && 0 <= RateOf(ratePerDay)
    ensures 0 <= WriteBack(row, read, inventory, ratePerDay).current <= inventory
  {
    RestockBounds(read.seen, inventory, ratePerDay, read.now);
  }

  lemma {:induction false} EventKeepsInv(inventory: int, ratePerDay: Option<int>, s: Shared, e: Event)
    requires 0 <= inventory && 0 <= RateOf(ratePerDay) && SharedInv(inventory, s)
    ensures SharedInv(inventory, ApplyEvent(inventory, ratePerDay, s, e))
  {
    match e
    case ReadSelect(_, _) =>
    case ReadWrite(id) =>
      if id in s.pending {
        WriteBackInBounds(s.row.value, s.pending[id], inventory, ratePerDay);
        hide WriteBack;
      }
    case Sale(now, _) =>
      RestockBounds(Existing(s.row, inventory, now), inventory, ratePerDay, now);
      hide Restock;
  }

  /** Under every interleaving of reads and purchases the stock stays between zero and the inventory. */
  lemma {:induction false} InterleavedStockInBounds(inventory: int, ratePerDay: Option<int>, events: seq<Event>)
    requires 0 <= inventory && 0 <= RateOf(ratePerDay)
    ensures SharedInv(inventory, RunShared(inventory, ratePerDay, events))
  {
    if events != [] {
      hide ApplyEvent, SharedInv;
      InterleavedStockInBounds(inventory, ratePerDay, events[..|events| - 1]);
      EventKeepsInv(inventory, ratePerDay, RunShared(inventory, ratePerDay, events[..|events| - 1]),
                    events[|events| - 1]);
    }
  }

  ghost predicate NotAfter(events: seq<Event>, latest: int) {
    forall i :: 0 <= i < |events| ==> !events[i].ReadWrite? ==> events[i].now <= latest
  }

  /** The bound on sales, for one interleaved run. */
  ghost predicate SalesBounded(inventory: int, ratePerDay: Option<int>, events: seq<Event>, latest: int) {
    var s := RunShared(inventory, ratePerDay, events);
    s.row.Some? && NotAfter(events, latest) ==>
      s.sold <= inventory + RoundFloor(RateOf(ratePerDay) * (latest - s.createdAt), DAY)
  }

  // without a restock rate

  lemma NothingRestocked(row: StockRow, inventory: int, ratePerDay: Option<int>, now: int)
    requires RateOf(ratePerDay) == 0
    ensures Restock(row, inventory, ratePerDay, now) == row
  {
    if ratePerDay.Some? && row.lastRestockedAt < now {
      FloorShareClose(0, now - row.lastRestockedAt, DAY);
      hide FloorShare;
    }
  }

  lemma {:induction false} SoldFromInventory(inventory: int, ratePerDay: Option<int>, events: seq<Event>)
    requires 0 <= inventory && RateOf(ratePerDay) == 0
    ensures var s := RunShared(inventory, ratePerDay, events);
      if s.row.Some? then 0 <= s.row.value.current == inventory - s.sold else s.sold == 0
  {
    if events != [] {
      var s, last := RunShared(inventory, ratePerDay, events[..|events| - 1]), events[|events| - 1];
      SoldFromInventory(inventory, ratePerDay, events[..|events| - 1]);
      forall row, now
        ensures Restock(row, inventory, ratePerDay, now) == row
      {
        NothingRestocked(row, inventory, ratePerDay, now);
      }
      hide Restock, RateOf;
    }
  }

  // with a restock rate: reads that saw an empty stock refill it one after the other

  lemma OneDayRestocks(rate: int)
    requires 1 <= rate
    ensures 1 <= FloorShare(rate, DAY, DAY)
    ensures rate == 1 ==> FloorShare(rate, DAY, DAY) == 1
  {
    Powers();
    RoundExact(FIRST, DAY);
    Round28At(DAY, DAY, 27);
    RoundExact(FIRST, FIRST);
    Round28At(FIRST, FIRST, 27);
    var one, more := Ratio(FIRST, FIRST), Ratio(rate * FIRST, FIRST);
    hide Round28;
    Round28Monotone(one, more);
    FloorAcross(one, Round28(more));
  }

  ghost function Selects(k: nat): seq<Event> {
    if k == 0 then [] else Selects(k - 1) + [ReadSelect(k - 1, DAY)]
  }

  ghost function WritesAndSales(n: nat, quantity: int): seq<Event> {
    if n == 0 then [] else WritesAndSales(n - 1, quantity) + [ReadWrite(n - 1)] + [Sale(DAY, quantity)]
  }

  /** The reads from..to - 1 wait, each having seen the empty row. */
  ghost predicate Waiting(pending: map<int, Selected>, from: int, to: int) {
    && (forall id :: id in pending <==> from <= id < to)
    && forall id :: id in pending ==> pending[id] == Selected(StockRow(0, 0), DAY)
  }

  /** Everything is sold; then k reads select the empty row. */
  lemma {:induction false} AfterSelects(inventory: int, ratePerDay: Option<int>, k: nat)
    requires 0 < inventory
    ensures var s := RunShared(inventory, ratePerDay, [Sale(0, inventory)] + Selects(k));
      && s == Shared(Some(StockRow(0, 0)), s.pending, inventory, 0)
      && Waiting(s.pending, 0, k)
  {
    var first := [Sale(0, inventory)];
    if k == 0 {
      RunMore(inventory, ratePerDay, [], Sale(0, inventory));
      assert [] + first == first && first + Selects(0) == first;
    } else {
      AfterSelects(inventory, ratePerDay, k - 1);
      RunMore(inventory, ratePerDay, first + Selects(k - 1), ReadSelect(k - 1, DAY));
      assert first + Selects(k) == first + Selects(k - 1) + [ReadSelect(k - 1, DAY)];
    }
  }

  ghost function Refill(inventory: int, ratePerDay: Option<int>): int {
    Min(inventory, FloorShare(RateOf(ratePerDay), DAY, DAY))
  }

  /** One waiting read writes what it restocks, which is sold at once. */
  lemma {:induction false} WriteAndSale(inventory: int, ratePerDay: Option<int>, s: Shared, id: int, to: int)
    requires 0 < inventory && 0 < RateOf(ratePerDay) && s.row.Some? && Waiting(s.pending, id, to) && id < to
    ensures var refill := Refill(inventory, ratePerDay);
      var written := ApplyEvent(inventory, ratePerDay, s, ReadWrite(id));
      var after := ApplyEvent(inventory, ratePerDay, written, Sale(DAY, refill));
      && 1 <= refill
      && after == Shared(Some(StockRow(0, DAY)), s.pending - {id}, s.sold + refill, s.createdAt)
  {
    OneDayRestocks(RateOf(ratePerDay));
    hide FloorShare;
    var refill := Refill(inventory, ratePerDay);
    assert Restock(StockRow(0, 0), inventory, ratePerDay, DAY) == StockRow(refill, DAY);
    assert s.pending[id] == Selected(StockRow(0, 0), DAY);
    assert Restock(StockRow(refill, DAY), inventory, ratePerDay, DAY) == StockRow(refill, DAY);
    hide Restock, Refill, Waiting;
  }

  /** Each of the first n reads refills the stock once more. */
  lemma {:induction false} AfterWrites(inventory: int, ratePerDay: Option<int>, k: nat, n: nat)
    requires 0 < inventory && 0 < RateOf(ratePerDay) && n <= k
    ensures var refill := Refill(inventory, ratePerDay);
      var s := RunShared(inventory, ratePerDay, [Sale(0, inventory)] + Selects(k) + WritesAndSales(n, refill));
      && s.row.Some? && s.createdAt == 0 && Waiting(s.pending, n, k)
      && inventory + n <= s.sold
  {
    var refill := Refill(inventory, ratePerDay);
    var opening := [Sale(0, inventory)] + Selects(k);
    hide Refill, RunShared, Selects;
    if n == 0 {
      AfterSelects(inventory, ratePerDay, k);
      assert opening + WritesAndSales(0, refill) == opening;
    } else {
      AfterWrites(inventory, ratePerDay, k, n - 1);
      var before := opening + WritesAndSales(n - 1, refill);
      RunMore(inventory, ratePerDay, before, ReadWrite(n - 1));
      RunMore(inventory, ratePerDay, before + [ReadWrite(n - 1)], Sale(DAY, refill));
      assert opening + WritesAndSales(n, refill) == before + [ReadWrite(n - 1)] + [Sale(DAY, refill)];
      hide WritesAndSales;
      WriteAndSale(inventory, ratePerDay, RunShared(inventory, ratePerDay, before), n - 1, k);
      hide ApplyEvent;
    }
  }

  lemma {:induction false} OpeningNotAfter(inventory: int, k: nat, n: nat, quantity: int)
    ensures NotAfter([Sale(0, inventory)] + Selects(k) + WritesAndSales(n, quantity), DAY)
  {
    SelectsNotAfter(k);
    WritesNotAfter(n, quantity);
  }

  lemma {:induction false} SelectsNotAfter(k: nat)
    ensures NotAfter(Selects(k), DAY)
  {
    if 0 < k {
      SelectsNotAfter(k - 1);
    }
  }

  lemma {:induction false} WritesNotAfter(n: nat, quantity: int)
    ensures NotAfter(WritesAndSales(n, quantity), DAY)
  {
    if 0 < n {
      WritesNotAfter(n - 1, quantity);
    }
  }

  /** Sales stay within inventory and restocking, under every interleaving with reads that take no lock, if and only
  if the item is never restocked: otherwise several reads can each put the restocked units back. */
  lemma SalesBoundedExactlyWithoutRestock(inventory: int, ratePerDay: Option<int>)
    requires 0 < inventory && 0 <= RateOf(ratePerDay)
    ensures (forall events, latest :: SalesBounded(inventory, ratePerDay, events, latest)) <==> RateOf(ratePerDay) == 0
  {
    if RateOf(ratePerDay) == 0 {
      forall events, latest
        ensures SalesBounded(inventory, ratePerDay, events, latest)
      {
        SoldFromInventory(inventory, ratePerDay, events);
      }
    } else {
      var rate := RateOf(ratePerDay);
      var events := [Sale(0, inventory)] + Selects(rate + 1) + WritesAndSales(rate + 1, Refill(inventory, ratePerDay));
      AfterWrites(inventory, ratePerDay, rate + 1, rate + 1);
      OpeningNotAfter(inventory, rate + 1, rate + 1, Refill(inventory, ratePerDay));
      RoundExact(rate, DAY);
      hide RunShared, NotAfter;
      assert !SalesBounded(inventory, ratePerDay, events, DAY);
    }
  }

  /** The smallest case: with an inventory of 2 and one unit a day, 4 units are sold within one day, although
  inventory and restocking allow only 3. */
  lemma UnlockedReadForgetsSale()
    ensures var events := [Sale(0, 2), ReadSelect(1, DAY), Sale(DAY, 1), ReadWrite(1), Sale(DAY, 1)];
      && RunShared(2, Some(1), events) == Shared(Some(StockRow(0, DAY)), map[], 4, 0)
      && 4 > 2 + RoundFloor(1 * DAY, DAY)
  {
    OneDayRestocks(1);
    hide FloorShare, RunShared;
    assert RunShared(2, Some(1), []) == Shared(None, map[], 0, 0) by {
      EmptyRun();
    }
    RunMore(2, Some(1), [], Sale(0, 2));
    RunMore(2, Some(1), [Sale(0, 2)], ReadSelect(1, DAY));
    RunMore(2, Some(1), [Sale(0, 2), ReadSelect(1, DAY)], Sale(DAY, 1));
    RunMore(2, Some(1), [Sale(0, 2), ReadSelect(1, DAY), Sale(DAY, 1)], ReadWrite(1));
    RunMore(2, Some(1), [Sale(0, 2), ReadSelect(1, DAY), Sale(DAY, 1), ReadWrite(1)], Sale(DAY, 1));
    assert [] + [Sale(0, 2)] == [Sale(0, 2)];
    assert [Sale(0, 2)] + [ReadSelect(1, DAY)] == [Sale(0, 2), ReadSelect(1, DAY)];
    assert [Sale(0, 2), ReadSelect(1, DAY)] + [Sale(DAY, 1)] == [Sale(0, 2), ReadSelect(1, DAY), Sale(DAY, 1)];
    assert [Sale(0, 2), ReadSelect(1, DAY), Sale(DAY, 1)] + [ReadWrite(1)]
      == [Sale(0, 2), ReadSelect(1, DAY), Sale(DAY, 1), ReadWrite(1)];
    assert [Sale(0, 2), ReadSelect(1, DAY), Sale(DAY, 1), ReadWrite(1)] + [Sale(DAY, 1)]
      == [Sale(0, 2), ReadSelect(1, DAY), Sale(DAY, 1), ReadWrite(1), Sale(DAY, 1)];
  }

  lemma EmptyRun()
    ensures RunShared(2, Some(1), []) == Shared(None, map[], 0, 0)
  {
  }
}
