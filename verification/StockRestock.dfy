/** When and by how much a stock row is refilled (server/domain/market/service.py). */
module StockRestock {
  import opened Numbers
  import opened DecimalContext
  import opened NpcStock

  /** The units that arrive are the rate times the days since the last restock, rounded down, up to the last digits of
  28. At least one unit has to arrive for anything to change; then the clock is moved to now, and the stock is filled
  up to the inventory at most. */
  lemma {:induction false} RestockIsFloor(row: StockRow, inventory: int, rate: int, now: int)
    requires row.lastRestockedAt < now && 0 <= rate
    ensures exists units ::
      && FlooredTo(rate * (now - row.lastRestockedAt), units * DAY, DAY)
      && Restock(row, inventory, Some(rate), now)
        == if units <= 0 then row else StockRow(Min(inventory, row.current + units), now)
  {
    var span := now - row.lastRestockedAt;
    var units := FloorShare(rate, span, DAY);
    hide FloorShare, FlooredTo;
    FloorShareClose(rate, span, DAY);
    assert FlooredTo(rate * span, units * DAY, DAY);
  }

  /** After whole days exactly the daily units of each arrive. */
  lemma {:induction false} WholeDaysRestock(row: StockRow, inventory: int, rate: int, days: int)
    requires 1 <= days < FIRST && 1 <= rate && rate * days < FIRST
    ensures Restock(row, inventory, Some(rate), row.lastRestockedAt + days * 86_400_000_000)
      == StockRow(Min(inventory, row.current + rate * days), row.lastRestockedAt + days * 86_400_000_000)
  {
    hide FloorShare, FIRST;
    ProductMonotone(1, days, rate);
    RoundExact(rate * days, DAY);
    assert rate * (days * DAY) == rate * days * DAY;
    assert Power10(0) == 1;
    WholeDays(rate, days);
  }

  lemma {:induction false} WholeDays(rate: int, days: int)
    requires 0 <= days < FIRST && 0 <= rate * days < FIRST
    ensures FloorShare(rate, days * DAY, DAY) == RoundFloor(rate * (days * DAY), DAY)
  {
    assert Power10(0) == 1;
    hide FloorShare;
    FloorShareExact(rate, days * DAY, DAY, days, 0);
  }

  /** A clock that went back, and an item without a rate, leave the row alone. */
  lemma NoRestock(row: StockRow, inventory: int, ratePerDay: Option<int>, now: int)
    requires ratePerDay.None? || now <= row.lastRestockedAt
    ensures Restock(row, inventory, ratePerDay, now) == row
  {
    hide FloorShare;
  }

  /** Less than a unit does not move the clock, so that the time is not lost. */
  lemma {:induction false} PartOfAUnitWaits(row: StockRow, inventory: int, rate: int, now: int)
    requires row.lastRestockedAt < now && 0 <= rate
    requires (2 * FIRST + 3) * (rate * (now - row.lastRestockedAt)) < 2 * FIRST * DAY
    ensures Restock(row, inventory, Some(rate), now) == row
  {
    var span := now - row.lastRestockedAt;
    hide FloorShare;
    FloorShareClose(rate, span, DAY);
  }

  lemma ThirdOfADay()
    ensures FloorShare(3, 28_800_000_000, DAY) == 0
  {
    Powers();
    hide Power10, ShareOf;
    ShareInDigits(3, 28_800_000_000, DAY, 28, 3_333_333_333_333_333_333_333_333_333, 28,
                  9_999_999_999_999_999_999_999_999_999);
  }

  /** The last digit shows: at three units a day, a third of a day brings none. */
  lemma ThirdOfADayBringsNothing(row: StockRow, inventory: int)
    ensures Restock(row, inventory, Some(3), row.lastRestockedAt + 28_800_000_000) == row
  {
    hide FloorShare;
    ThirdOfADay();
  }
}
