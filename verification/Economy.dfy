/** The credit economy: listings, trades between players, purchases from the NPC market and rewards, as atomic
transactions on shared tables (server/domain/marketplace/service.py, market/service.py). */
module Economy {
  import opened Numbers
  import opened Totals
  import opened NpcStock

  // ---------------------------------------------------------------- tables

  datatype Currency = Credits | WorkUnits

  datatype EntryType =
    | BlockReward | MarketPurchase | HardwareUpgrade | EquipmentTrade | PoolDistribution
    | OfflineProgress | GenesisBalance

  datatype LedgerEntry = LedgerEntry(player: string, amount: int, currency: Currency, entryType: EntryType)

  datatype Status = Active | Unlisted | Expired | SoldOut

  datatype Listing = Listing(
    sellerId: string, hardwareId: string, quantityTotal: int, quantityRemaining: int, pricePerUnit: int,
    expiresAt: int, status: Status)

  datatype Player = Player(tier: int, hardwareId: string)

  type Inventory = map<(string, string), int>

  datatype Tables = Tables(
    players: map<string, Player>, inventory: Inventory, listings: map<string, Listing>,
    stock: map<string, StockRow>, ledger: seq<LedgerEntry>)

  datatype Error =
    | QuantityMustBePositive | PriceMustBePositive | InsufficientInventory | DuplicateListing
    | ListingNotFoundOrNotOwner
    | InvalidQuantity | ListingNotFound | ListingNotActive | ListingExpired | NotEnoughStock
    | CannotPurchaseOwnListing | InsufficientBalance
    | PlayerNotFound | ItemLocked | OutOfStock

  datatype Result = Ok | Failed(error: Error)

  /** 30 days in microseconds. */
  const LISTING_LIFETIME: int := 30 * DAY

  const FEE_PERCENTAGE := 5

  /** Entries that the balance sum counts. */
  predicate Counted(e: LedgerEntry) {
    e.currency == Credits
    && e.entryType in {BlockReward, MarketPurchase, HardwareUpgrade, EquipmentTrade, PoolDistribution}
  }

  /** _get_player_credit_balance. */
  function Balance(ledger: seq<LedgerEntry>, player: string): int {
    if ledger == [] then 0
    else
      var last := ledger[|ledger| - 1];
      Balance(ledger[..|ledger| - 1], player) + (if last.player == player && Counted(last) then last.amount else 0)
  }

  /** Credits of all players together. */
  function CreditTotal(ledger: seq<LedgerEntry>): int {
    if ledger == [] then 0
    else
      CreditTotal(ledger[..|ledger| - 1]) + (if Counted(ledger[|ledger| - 1]) then ledger[|ledger| - 1].amount else 0)
  }

  /** Adds to (or takes from) one inventory row; a row that reaches zero is deleted. */
  function AddItems(inventory: Inventory, player: string, item: string, quantity: int): Inventory {
    var held := Get(inventory, (player, item)) + quantity;
    if held == 0 then inventory - {(player, item)} else inventory[(player, item) := held]
  }

  // ---------------------------------------------------------------- transactions

  function ListOutcome(t: Tables, seller: string, item: string, quantity: int, price: Rational,
                       listingId: string): Result {
    if quantity <= 0 then Failed(QuantityMustBePositive)
    else if price.num <= 0 then Failed(PriceMustBePositive)
    else if Get(t.inventory, (seller, item)) < quantity then Failed(InsufficientInventory)
    else if listingId in t.listings then Failed(DuplicateListing)
    else Ok
  }

  /** list_equipment. */
  function List(t: Tables, seller: string, item: string, quantity: int, price: Rational, listingId: string,
                now: int): Tables {
    if ListOutcome(t, seller, item, quantity, price, listingId) != Ok then t
    else
      t.(inventory := AddItems(t.inventory, seller, item, -quantity),
         listings := t.listings[listingId :=
           Listing(seller, item, quantity, quantity, Stored(price), now + LISTING_LIFETIME, Active)])
  }

  function UnlistOutcome(t: Tables, player: string, listingId: string): Result {
    if listingId in t.listings && t.listings[listingId].sellerId == player && t.listings[listingId].status == Active
    then Ok else Failed(ListingNotFoundOrNotOwner)
  }

  /** unlist_equipment. */
  function Unlist(t: Tables, player: string, listingId: string): Tables {
    if UnlistOutcome(t, player, listingId) != Ok then t
    else
      var listing := t.listings[listingId];
      t.(listings := t.listings[listingId := listing.(status := Unlisted)],
         inventory := if 0 < listing.quantityRemaining
                      then AddItems(t.inventory, player, listing.hardwareId, listing.quantityRemaining)
                      else t.inventory)
  }

  function TradePrice(listing: Listing, quantity: int): int {
    listing.pricePerUnit * quantity
  }

  /** Five percent, rounded half even to six decimals. */
  function TradeFee(price: int): int {
    RoundHalfEven(price * FEE_PERCENTAGE, 100)
  }

  function TradeOutcome(t: Tables, buyer: string, listingId: string, quantity: int, now: int): Result {
    if quantity <= 0 then Failed(InvalidQuantity)
    else if listingId !in t.listings then Failed(ListingNotFound)
    else
      var listing := t.listings[listingId];
      if listing.status != Active then Failed(ListingNotActive)
      else if listing.expiresAt <= now then Failed(ListingExpired)
      else if listing.quantityRemaining < quantity then Failed(NotEnoughStock)
      else if listing.sellerId == buyer then Failed(CannotPurchaseOwnListing)
      else if Balance(t.ledger, buyer) < TradePrice(listing, quantity) then Failed(InsufficientBalance)
      else Ok
  }

  /** purchase_equipment. A listing found to be expired is marked so; every other failure changes nothing. */
  function Trade(t: Tables, buyer: string, listingId: string, quantity: int, now: int): Tables {
    match TradeOutcome(t, buyer, listingId, quantity, now)
    case Ok =>
      var listing := t.listings[listingId];
      var price := TradePrice(listing, quantity);
      var remaining := listing.quantityRemaining - quantity;
      t.(listings := t.listings[listingId :=
           listing.(quantityRemaining := remaining, status := if remaining == 0 then SoldOut else Active)],
         inventory := AddItems(t.inventory, buyer, listing.hardwareId, quantity),
         ledger := t.ledger + [LedgerEntry(buyer, -price, Credits, EquipmentTrade)]
                   + [LedgerEntry(listing.sellerId, price - TradeFee(price), Credits, EquipmentTrade)])
    case Failed(error) =>
      if error == ListingExpired
      then t.(listings := t.listings[listingId := t.listings[listingId].(status := Expired)])
      else t
  }

  function StockRowOf(t: Tables, item: Item): Option<StockRow> {
    if item.id in t.stock then Some(t.stock[item.id]) else None
  }

  function Unlocked(item: Item, tier: int): bool {
    item.requiredTier.None? || item.requiredTier.value <= tier
  }

  function PurchaseOutcome(t: Tables, player: string, item: Item, quantity: int, now: int): Result {
    if quantity <= 0 then Failed(InvalidQuantity)
    else if player !in t.players then Failed(PlayerNotFound)
    else if !Unlocked(item, t.players[player].tier) then Failed(ItemLocked)
    else if Balance(t.ledger, player) < item.price * quantity then Failed(InsufficientBalance)
    else if item.inventory.Some?
      && Refreshed(StockRowOf(t, item), item.inventory.value, item.restockPerDay, now).current < quantity
      then Failed(OutOfStock)
    else Ok
  }

  /** The stock table after a read. */
  function ReadStock(t: Tables, item: Item, now: int): Tables {
    if item.inventory.None? then t
    else t.(stock := t.stock[item.id := Refreshed(StockRowOf(t, item), item.inventory.value, item.restockPerDay, now)])
  }

  /** execute_purchase. A hardware tier upgrade replaces the installed hardware and drops its inventory row. */
  function Purchase(t: Tables, player: string, item: Item, quantity: int, now: int): Tables {
    if PurchaseOutcome(t, player, item, quantity, now) != Ok then t
    else
      var stocked := ReadStock(t, item, now);
      var previous := t.players[player].hardwareId;
      var received := AddItems(t.inventory, player, item.id, quantity);
      var entryType := if item.hardwareUpgrade then HardwareUpgrade else MarketPurchase;
      t.(stock := if item.inventory.None? then t.stock
                  else
                    var row := stocked.stock[item.id];
                    stocked.stock[item.id := row.(current := row.current - quantity)],
         inventory := if item.hardwareUpgrade && previous != item.id && previous != ""
           then received - {(player, previous)}
                      else received,
         players := if item.hardwareUpgrade
           then t.players[player := t.players[player].(hardwareId := item.id)] else t.players,
         ledger := t.ledger + [LedgerEntry(player, -(item.price * quantity), Credits, entryType)])
  }

  /** Credits paid by block rewards and pools. */
  function Reward(t: Tables, player: string, amount: int, pool: bool): Tables {
    t.(ledger := t.ledger + [LedgerEntry(player, amount, Credits, if pool then PoolDistribution else BlockReward)])
  }

  /** Entries the balance does not count, such as offline work. */
  function PostUncounted(t: Tables, player: string, amount: int): Tables {
    t.(ledger := t.ledger + [LedgerEntry(player, amount, WorkUnits, OfflineProgress)])
  }

  // ---------------------------------------------------------------- the code

  class Database {
    var players: map<string, Player>
    var inventory: Inventory
    var listings: map<string, Listing>
    var stock: map<string, StockRow>
    var ledger: seq<LedgerEntry>

    ghost function State(): Tables
      reads this
    {
      Tables(players, inventory, listings, stock, ledger)
    }

    constructor (players: map<string, Player>)
      ensures State() == Tables(players, map[], map[], map[], [])
    {
      this.players := players;
      inventory, listings, stock, ledger := map[], map[], map[], [];
    }

    method ListEquipment(seller: string, item: string, quantity: int, price: Rational, listingId: string, now: int)
      returns (result: Result)
      modifies this
      ensures State() == List(old(State()), seller, item, quantity, price, listingId, now)
      ensures result == ListOutcome(old(State()), seller, item, quantity, price, listingId)
    {
      if quantity <= 0 {
        return Failed(QuantityMustBePositive);
      }
      if price.num <= 0 {
        return Failed(PriceMustBePositive);
      }
      if (seller, item) !in inventory || inventory[(seller, item)] < quantity {
        return Failed(InsufficientInventory);
      }
      if listingId in listings {
        return Failed(DuplicateListing);
      }
      if inventory[(seller, item)] == quantity {
        inventory := inventory - {(seller, item)};
      } else {
        inventory := inventory[(seller, item) := inventory[(seller, item)] - quantity];
      }
      listings := listings[listingId :=
        Listing(seller, item, quantity, quantity, Stored(price), now + LISTING_LIFETIME, Active)];
      return Ok;
    }

    method UnlistEquipment(player: string, listingId: string) returns (result: Result)
      modifies this
      ensures State() == Unlist(old(State()), player, listingId)
      ensures result == UnlistOutcome(old(State()), player, listingId)
    {
      if listingId !in listings || listings[listingId].sellerId != player || listings[listingId].status != Active {
        return Failed(ListingNotFoundOrNotOwner);
      }
      var listing := listings[listingId];
      listings := listings[listingId := listing.(status := Unlisted)];
      if listing.quantityRemaining > 0 {
        inventory := AddItems(inventory, player, listing.hardwareId, listing.quantityRemaining);
      }
      return Ok;
    }

    method PurchaseEquipment(buyer: string, listingId: string, quantity: int, now: int) returns (result: Result)
      modifies this
      ensures State() == Trade(old(State()), buyer, listingId, quantity, now)
      ensures result == TradeOutcome(old(State()), buyer, listingId, quantity, now)
    {
      if quantity <= 0 {
        return Failed(InvalidQuantity);
      }
      if listingId !in listings {
        return Failed(ListingNotFound);
      }
      var listing := listings[listingId];
      if listing.status != Active {
        return Failed(ListingNotActive);
      }
      if listing.expiresAt <= now {
        listings := listings[listingId := listing.(status := Expired)];
        return Failed(ListingExpired);
      }
      if listing.quantityRemaining < quantity {
        return Failed(NotEnoughStock);
      }
      if listing.sellerId == buyer {
        return Failed(CannotPurchaseOwnListing);
      }
      var purchasePrice := listing.pricePerUnit * quantity;
      var marketplaceFee := RoundHalfEven(purchasePrice * FEE_PERCENTAGE, 100);
      var sellerProceeds := purchasePrice - marketplaceFee;
      if Balance(ledger, buyer) < purchasePrice {
        return Failed(InsufficientBalance);
      }
      var newRemaining := listing.quantityRemaining - quantity;
      listings := listings[listingId :=
        listing.(quantityRemaining := newRemaining, status := if newRemaining == 0 then SoldOut else Active)];
      inventory := AddItems(inventory, buyer, listing.hardwareId, quantity);
      ledger := ledger + [LedgerEntry(buyer, -purchasePrice, Credits, EquipmentTrade)];
      ledger := ledger + [LedgerEntry(listing.sellerId, sellerProceeds, Credits, EquipmentTrade)];
      return Ok;
    }

    method ExecutePurchase(player: string, item: Item, quantity: int, now: int) returns (result: Result)
      modifies this
      ensures State() == Purchase(old(State()), player, item, quantity, now)
      ensures result == PurchaseOutcome(old(State()), player, item, quantity, now)
    {
      hide Balance, AddItems, Refreshed;
      if quantity <= 0 {
        return Failed(InvalidQuantity);
      }
      var totalCost := item.price * quantity;
      if player !in players {
        return Failed(PlayerNotFound);
      }
      var current := players[player];
      if !Unlocked(item, current.tier) {
        return Failed(ItemLocked);
      }
      if Balance(ledger, player) < totalCost {
        return Failed(InsufficientBalance);
      }
      if item.inventory.Some? {
        var row := if item.id in stock then Some(stock[item.id]) else None;
        var available := Refreshed(row, item.inventory.value, item.restockPerDay, now);
        if available.current < quantity {
          return Failed(OutOfStock);
        }
        stock := stock[item.id := available];
        stock := stock[item.id := available.(current := available.current - quantity)];
      }
      inventory := AddItems(inventory, player, item.id, quantity);
      if item.hardwareUpgrade {
        players := players[player := current.(hardwareId := item.id)];
        if current.hardwareId != "" && current.hardwareId != item.id {
          inventory := inventory - {(player, current.hardwareId)};
        }
      }
      var entryType := if item.hardwareUpgrade then HardwareUpgrade else MarketPurchase;
      ledger := ledger + [LedgerEntry(player, -totalCost, Credits, entryType)];
      return Ok;
    }
  }

  // ---------------------------------------------------------------- whole runs

  datatype Action =
    | DoReward(player: string, amount: int, pool: bool)
    | DoPostUncounted(player: string, amount: int)
    | DoReadStock(item: Item, now: int)
    | DoPurchase(player: string, item: Item, quantity: int, now: int)
    | DoList(player: string, hardware: string, quantity: int, price: Rational, listingId: string, now: int)
    | DoUnlist(player: string, listingId: string)
    | DoTrade(player: string, listingId: string, quantity: int, now: int)

  function Apply(t: Tables, a: Action): Tables {
    match a
    case DoReward(player, amount, pool) => Reward(t, player, amount, pool)
    case DoPostUncounted(player, amount) => PostUncounted(t, player, amount)
    case DoReadStock(item, now) => ReadStock(t, item, now)
    case DoPurchase(player, item, quantity, now) => Purchase(t, player, item, quantity, now)
    case DoList(player, hardware, quantity, price, id, now) => List(t, player, hardware, quantity, price, id, now)
    case DoUnlist(player, id) => Unlist(t, player, id)
    case DoTrade(player, id, quantity, now) => Trade(t, player, id, quantity, now)
  }

  /** Rewards are not negative, catalogue items are as the loader accepts them. */
  ghost predicate Admissible(a: Action) {
    match a
    case DoReward(_, amount, _) => 0 <= amount
    case DoPurchase(_, item, _, _) => Catalogued(item)
    case DoReadStock(item, _) => Catalogued(item)
    case _ => true
  }

  ghost function Run(t: Tables, actions: seq<Action>): Tables {
    if actions == [] then t else Apply(Run(t, actions[..|actions| - 1]), actions[|actions| - 1])
  }

  ghost predicate Inv(t: Tables) {
    && (forall p :: 0 <= Balance(t.ledger, p))
    && (forall k :: k in t.inventory ==> 0 < t.inventory[k])
    && (forall id :: id in t.listings ==>
          0 <= t.listings[id].quantityRemaining <= t.listings[id].quantityTotal && 0 <= t.listings[id].pricePerUnit)
  }

  lemma BalanceAppend(ledger: seq<LedgerEntry>, e: LedgerEntry)
    ensures forall p ::
      Balance(ledger + [e], p) == Balance(ledger, p) + (if e.player == p && Counted(e) then e.amount else 0)
    ensures CreditTotal(ledger + [e]) == CreditTotal(ledger) + (if Counted(e) then e.amount else 0)
  {
    assert (ledger + [e])[..|ledger|] == ledger;
  }

  /** The fee is five percent to the nearest unit; fee and proceeds share the price, both are non-negative. */
  lemma FeeWithinPrice(price: int)
    requires 0 <= price
    ensures 0 <= TradeFee(price) <= price
    ensures 5 * price - 50 <= 100 * TradeFee(price) <= 5 * price + 50
  {
    RoundExact(0, 100);
    RoundExact(price, 100);
    HalfEvenMonotone(0, price * FEE_PERCENTAGE, 100);
    HalfEvenMonotone(price * FEE_PERCENTAGE, price * 100, 100);
  }

  lemma TradeMovesCredits(t: Tables, buyer: string, listingId: string, quantity: int, now: int)
    requires Inv(t) && TradeOutcome(t, buyer, listingId, quantity, now) == Ok
    ensures var after, listing := Trade(t, buyer, listingId, quantity, now), t.listings[listingId];
      var price := TradePrice(listing, quantity);
      && 0 <= TradeFee(price) <= price
      && Balance(after.ledger, buyer) == Balance(t.ledger, buyer) - price
      && Balance(after.ledger, listing.sellerId) == Balance(t.ledger, listing.sellerId) + price - TradeFee(price)
      && (forall p :: p != buyer && p != listing.sellerId ==> Balance(after.ledger, p) == Balance(t.ledger, p))
      && CreditTotal(after.ledger) == CreditTotal(t.ledger) - TradeFee(price)
  {
    hide Balance, CreditTotal, AddItems;
    var listing := t.listings[listingId];
    var price := TradePrice(listing, quantity);
    ProductMonotone(0, listing.pricePerUnit, quantity);
    FeeWithinPrice(price);
    hide TradeFee;
    var paid := LedgerEntry(buyer, -price, Credits, EquipmentTrade);
    BalanceAppend(t.ledger, paid);
    BalanceAppend(t.ledger + [paid], LedgerEntry(listing.sellerId, price - TradeFee(price), Credits, EquipmentTrade));
  }

  lemma AddItemsPositive(inventory: Inventory, player: string, item: string, quantity: int)
    requires forall k :: k in inventory ==> 0 < inventory[k]
    requires 0 <= Get(inventory, (player, item)) + quantity
    ensures forall k :: k in AddItems(inventory, player, item, quantity) ==>
      0 < AddItems(inventory, player, item, quantity)[k]
  {
  }

  lemma ListKeepsInv(t: Tables, seller: string, item: string, quantity: int, price: Rational, id: string, now: int)
    requires Inv(t)
    ensures Inv(List(t, seller, item, quantity, price, id, now))
  {
    hide Balance;
    if ListOutcome(t, seller, item, quantity, price, id) == Ok {
      AddItemsPositive(t.inventory, seller, item, -quantity);
      hide AddItems;
      assert 0 <= Stored(price);
    }
  }

  lemma UnlistKeepsInv(t: Tables, player: string, id: string)
    requires Inv(t)
    ensures Inv(Unlist(t, player, id))
  {
    hide Balance;
    if UnlistOutcome(t, player, id) == Ok {
      var listing := t.listings[id];
      AddItemsPositive(t.inventory, player, listing.hardwareId, listing.quantityRemaining);
      hide AddItems;
    }
  }

  lemma TradeKeepsInv(t: Tables, buyer: string, id: string, quantity: int, now: int)
    requires Inv(t)
    ensures Inv(Trade(t, buyer, id, quantity, now))
  {
    hide Balance, CreditTotal;
    if TradeOutcome(t, buyer, id, quantity, now) == Ok {
      TradeMovesCredits(t, buyer, id, quantity, now);
      AddItemsPositive(t.inventory, buyer, t.listings[id].hardwareId, quantity);
      hide AddItems, TradePrice, TradeFee;
    }
  }

  lemma PurchaseKeepsInv(t: Tables, player: string, item: Item, quantity: int, now: int)
    requires Inv(t)
    ensures Inv(Purchase(t, player, item, quantity, now))
  {
    hide Balance, CreditTotal, Refreshed;
    if PurchaseOutcome(t, player, item, quantity, now) == Ok {
      var entryType := if item.hardwareUpgrade then HardwareUpgrade else MarketPurchase;
      BalanceAppend(t.ledger, LedgerEntry(player, -(item.price * quantity), Credits, entryType));
      AddItemsPositive(t.inventory, player, item.id, quantity);
      hide AddItems;
    }
  }

  lemma PostKeepsInv(t: Tables, e: LedgerEntry)
    requires Inv(t) && (0 <= e.amount || !Counted(e))
    ensures Inv(t.(ledger := t.ledger + [e]))
  {
    BalanceAppend(t.ledger, e);
    hide Balance, Counted;
  }

  lemma {:induction false} ApplyKeepsInv(t: Tables, a: Action)
    requires Inv(t) && Admissible(a)
    ensures Inv(Apply(t, a))
  {
    match a
    case DoReward(player, amount, pool) =>
      PostKeepsInv(t, LedgerEntry(player, amount, Credits, if pool then PoolDistribution else BlockReward));
    case DoPostUncounted(player, amount) =>
      PostKeepsInv(t, LedgerEntry(player, amount, WorkUnits, OfflineProgress));
    case DoReadStock(item, now) =>
      hide Balance;
    case DoPurchase(player, item, quantity, now) => PurchaseKeepsInv(t, player, item, quantity, now);
    case DoList(player, hardware, quantity, price, id, now) =>
      ListKeepsInv(t, player, hardware, quantity, price, id, now);
    case DoUnlist(player, id) => UnlistKeepsInv(t, player, id);
    case DoTrade(player, id, quantity, now) => TradeKeepsInv(t, player, id, quantity, now);
  }

  /** Over every run nobody's balance becomes negative, inventories hold positive quantities, and listings never
  offer less than nothing or more than was listed. */
  lemma {:induction false} BalancesStayNonNegative(players: map<string, Player>, actions: seq<Action>)
    requires forall i :: 0 <= i < |actions| ==> Admissible(actions[i])
    ensures Inv(Run(Tables(players, map[], map[], map[], []), actions))
  {
    if actions != [] {
      hide Inv, Apply;
      BalancesStayNonNegative(players, actions[..|actions| - 1]);
      ApplyKeepsInv(Run(Tables(players, map[], map[], map[], []), actions[..|actions| - 1]), actions[|actions| - 1]);
    }
  }

  // ---------------------------------------------------------------- conservation of items

  ghost function HeldBy(inventory: Inventory, item: string): map<(string, string), int> {
    map k | k in inventory && k.1 == item :: inventory[k]
  }

  ghost function Offered(listings: map<string, Listing>, item: string): map<string, int> {
    map id | id in listings && listings[id].hardwareId == item && listings[id].status != Unlisted
      :: listings[id].quantityRemaining
  }

  /** Everything of one item: what players hold plus what listings that were not withdrawn still hold. */
  ghost function ItemTotal(t: Tables, item: string): int {
    Sum(HeldBy(t.inventory, item)) + Sum(Offered(t.listings, item))
  }

  lemma HeldAfter(inventory: Inventory, player: string, added: string, quantity: int, item: string)
    ensures Sum(HeldBy(AddItems(inventory, player, added, quantity), item))
      == Sum(HeldBy(inventory, item)) + (if added == item then quantity else 0)
  {
    hide Sum;
    var k := (player, added);
    var held := Get(inventory, k) + quantity;
    var before, after := HeldBy(inventory, item), HeldBy(AddItems(inventory, player, added, quantity), item);
    if added != item {
      assert after == before;
    } else if held == 0 {
      assert after == before - {k};
      RemovedTotal(before, k);
    } else {
      assert after == before[k := held];
      SumUpdate(before, k, held);
    }
  }

  lemma RemovedTotal(m: map<(string, string), int>, k: (string, string))
    ensures Sum(m - {k}) == Sum(m) - Get(m, k)
  {
    hide Sum;
    if k in m {
      SumRemove(m, k);
    } else {
      assert m - {k} == m;
    }
  }

  function Offer(listing: Listing, item: string): int {
    if listing.hardwareId == item && listing.status != Unlisted then listing.quantityRemaining else 0
  }

  lemma OfferedAfter(listings: map<string, Listing>, id: string, listing: Listing, item: string)
    requires id in listings ==> listings[id].hardwareId == listing.hardwareId
    ensures Sum(Offered(listings[id := listing], item))
      == Sum(Offered(listings, item)) + Offer(listing, item) - (if id in listings then Offer(listings[id], item) else 0)
  {
    hide Sum;
    var before, after := Offered(listings, item), Offered(listings[id := listing], item);
    if listing.hardwareId == item && listing.status != Unlisted {
      assert after == before[id := listing.quantityRemaining];
      SumUpdate(before, id, listing.quantityRemaining);
    } else {
      assert after == before - {id};
      if id in before {
        SumRemove(before, id);
      } else {
        assert before - {id} == before;
      }
    }
  }

  /** Listing, unlisting and trading move items but never create or destroy one. */
  lemma MarketplaceConservesItems(t: Tables, a: Action, item: string)
    requires Inv(t) && (a.DoList? || a.DoUnlist? || a.DoTrade?)
    ensures ItemTotal(Apply(t, a), item) == ItemTotal(t, item)
  {
    hide Sum, AddItems, HeldBy, Offered, Balance;
    match a
    case DoList(player, hardware, quantity, price, id, now) =>
      HeldAfter(t.inventory, player, hardware, -quantity, item);
      if id !in t.listings {
        OfferedAfter(t.listings, id,
                     Listing(player, hardware, quantity, quantity, Stored(price), now + LISTING_LIFETIME, Active),
                     item);
      }
    case DoUnlist(player, id) =>
      if id in t.listings {
        var listing := t.listings[id];
        HeldAfter(t.inventory, player, listing.hardwareId, listing.quantityRemaining, item);
        OfferedAfter(t.listings, id, listing.(status := Unlisted), item);
      }
    case DoTrade(player, id, quantity, now) =>
      if id in t.listings {
        var listing := t.listings[id];
        var remaining := listing.quantityRemaining - quantity;
        HeldAfter(t.inventory, player, listing.hardwareId, quantity, item);
        OfferedAfter(t.listings, id, listing.(status := Expired), item);
        OfferedAfter(t.listings, id,
                     listing.(quantityRemaining := remaining, status := if remaining == 0 then SoldOut else Active),
                     item);
      }
  }

  /** A run without NPC purchases keeps the total of every item. */
  lemma {:induction false} ItemsConserved(t: Tables, actions: seq<Action>, item: string)
    requires Inv(t)
    requires forall i :: 0 <= i < |actions| ==> Admissible(actions[i]) && !actions[i].DoPurchase?
    ensures Inv(Run(t, actions)) && ItemTotal(Run(t, actions), item) == ItemTotal(t, item)
  {
    if actions != [] {
      var before, last := actions[..|actions| - 1], actions[|actions| - 1];
      ItemsConserved(t, before, item);
      ApplyKeepsInv(Run(t, before), last);
      hide Inv, Sum;
      if last.DoList? || last.DoUnlist? || last.DoTrade? {
        MarketplaceConservesItems(Run(t, before), last, item);
      }
    }
  }

  /** Items that an NPC purchase adds, less the hardware that a tier upgrade replaces. */
  ghost function ItemFlow(t: Tables, a: Action, item: string): int {
    match a
    case DoPurchase(player, bought, quantity, now) =>
      if PurchaseOutcome(t, player, bought, quantity, now) != Ok then 0
      else
        var previous := t.players[player].hardwareId;
        (if bought.id == item then quantity else 0)
        - (if bought.hardwareUpgrade && previous != bought.id && previous != "" && previous == item
           then Get(t.inventory, (player, previous)) else 0)
    case _ => 0
  }

  ghost function TotalItemFlow(t: Tables, actions: seq<Action>, item: string): int {
    if actions == [] then 0
    else
      var before := actions[..|actions| - 1];
      TotalItemFlow(t, before, item) + ItemFlow(Run(t, before), actions[|actions| - 1], item)
  }

  lemma DroppedRow(inventory: Inventory, player: string, dropped: string, item: string)
    ensures Sum(HeldBy(inventory - {(player, dropped)}, item))
      == Sum(HeldBy(inventory, item)) - (if dropped == item then Get(inventory, (player, dropped)) else 0)
  {
    hide Sum;
    if dropped == item {
      assert HeldBy(inventory - {(player, dropped)}, item) == HeldBy(inventory, item) - {(player, dropped)};
      RemovedTotal(HeldBy(inventory, item), (player, dropped));
    } else {
      assert HeldBy(inventory - {(player, dropped)}, item) == HeldBy(inventory, item);
    }
  }

  lemma PurchaseItemFlow(t: Tables, player: string, bought: Item, quantity: int, now: int, item: string)
    ensures ItemTotal(Purchase(t, player, bought, quantity, now), item)
      == ItemTotal(t, item) + ItemFlow(t, DoPurchase(player, bought, quantity, now), item)
  {
    if PurchaseOutcome(t, player, bought, quantity, now) == Ok {
      var previous := t.players[player].hardwareId;
      var received := AddItems(t.inventory, player, bought.id, quantity);
      HeldAfter(t.inventory, player, bought.id, quantity, item);
      DroppedRow(received, player, previous, item);
      assert previous != bought.id ==> Get(received, (player, previous)) == Get(t.inventory, (player, previous));
      hide Sum, AddItems, HeldBy, Offered, Balance, Refreshed;
    }
  }

  /** Over every run, NPC purchases included, the total of an item is what was there plus what the NPC market sold,
  less the hardware rows that upgrades dropped. */
  lemma {:induction false} ItemsTracked(t: Tables, actions: seq<Action>, item: string)
    requires Inv(t)
    requires forall i :: 0 <= i < |actions| ==> Admissible(actions[i])
    ensures Inv(Run(t, actions))
    ensures ItemTotal(Run(t, actions), item) == ItemTotal(t, item) + TotalItemFlow(t, actions, item)
  {
    if actions != [] {
      var before, last := actions[..|actions| - 1], actions[|actions| - 1];
      ItemsTracked(t, before, item);
      ApplyKeepsInv(Run(t, before), last);
      hide Inv, Sum, PurchaseOutcome;
      if last.DoList? || last.DoUnlist? || last.DoTrade? {
        MarketplaceConservesItems(Run(t, before), last, item);
      } else if last.DoPurchase? {
        PurchaseItemFlow(Run(t, before), last.player, last.item, last.quantity, last.now, item);
        hide Purchase, ItemFlow;
      }
    }
  }

  lemma ClosedListingStays(t: Tables, a: Action, id: string)
    requires id in t.listings && t.listings[id].status != Active
    ensures id in Apply(t, a).listings && Apply(t, a).listings[id] == t.listings[id]
  {
    hide Balance, AddItems, Refreshed;
  }

  /** A listing that is no longer active never changes again. In particular the items of a listing that was
  marked expired stay in it: neither its seller nor a buyer can take them out. */
  lemma {:induction false} ClosedListingsAreFrozen(t: Tables, actions: seq<Action>, id: string)
    requires id in t.listings && t.listings[id].status != Active
    ensures id in Run(t, actions).listings && Run(t, actions).listings[id] == t.listings[id]
  {
    if actions != [] {
      hide Apply;
      ClosedListingsAreFrozen(t, actions[..|actions| - 1], id);
      ClosedListingStays(Run(t, actions[..|actions| - 1]), actions[|actions| - 1], id);
    }
  }

  // ---------------------------------------------------------------- conservation of credits

  /** Credits an action creates (rewards) or destroys (fees and NPC purchases). */
  ghost function Flow(t: Tables, a: Action): int {
    match a
    case DoReward(_, amount, _) => amount
    case DoPurchase(player, item, quantity, now) =>
      if PurchaseOutcome(t, player, item, quantity, now) == Ok then -(item.price * quantity) else 0
    case DoTrade(player, id, quantity, now) =>
      if TradeOutcome(t, player, id, quantity, now) == Ok then -TradeFee(TradePrice(t.listings[id], quantity)) else 0
    case _ => 0
  }

  ghost function TotalFlow(t: Tables, actions: seq<Action>): int {
    if actions == [] then 0
    else TotalFlow(t, actions[..|actions| - 1]) + Flow(Run(t, actions[..|actions| - 1]), actions[|actions| - 1])
  }

  lemma PurchaseFlow(t: Tables, player: string, item: Item, quantity: int, now: int)
    ensures CreditTotal(Purchase(t, player, item, quantity, now).ledger)
      == CreditTotal(t.ledger) + Flow(t, DoPurchase(player, item, quantity, now))
  {
    if PurchaseOutcome(t, player, item, quantity, now) == Ok {
      var entryType := if item.hardwareUpgrade then HardwareUpgrade else MarketPurchase;
      BalanceAppend(t.ledger, LedgerEntry(player, -(item.price * quantity), Credits, entryType));
    }
    hide Balance, CreditTotal, AddItems, Refreshed;
  }

  lemma FlowOf(t: Tables, a: Action)
    requires Inv(t)
    ensures CreditTotal(Apply(t, a).ledger) == CreditTotal(t.ledger) + Flow(t, a)
  {
    match a
    case DoReward(player, amount, pool) =>
      BalanceAppend(t.ledger, LedgerEntry(player, amount, Credits, if pool then PoolDistribution else BlockReward));
    case DoPostUncounted(player, amount) =>
      BalanceAppend(t.ledger, LedgerEntry(player, amount, WorkUnits, OfflineProgress));
    case DoPurchase(player, item, quantity, now) =>
      PurchaseFlow(t, player, item, quantity, now);
    case DoTrade(player, id, quantity, now) =>
      hide Balance, CreditTotal, AddItems;
      if TradeOutcome(t, player, id, quantity, now) == Ok {
        TradeMovesCredits(t, player, id, quantity, now);
      }
    case _ =>
      hide Balance, CreditTotal, AddItems, Refreshed;
  }

  /** Over every run the credits in circulation are what was there, plus rewards, minus fees and purchases. */
  lemma {:induction false} CreditsConserved(t: Tables, actions: seq<Action>)
    requires Inv(t)
    requires forall i :: 0 <= i < |actions| ==> Admissible(actions[i])
    ensures Inv(Run(t, actions)) && CreditTotal(Run(t, actions).ledger) == CreditTotal(t.ledger) + TotalFlow(t, actions)
  {
    if actions != [] {
      hide Inv, Apply, Flow, CreditTotal;
      CreditsConserved(t, actions[..|actions| - 1]);
      ApplyKeepsInv(Run(t, actions[..|actions| - 1]), actions[|actions| - 1]);
      FlowOf(Run(t, actions[..|actions| - 1]), actions[|actions| - 1]);
    }
  }

  /** Purchases and reads drive the stock row of an item exactly as the stock histories of NpcStock do; a purchase
  that fails for another reason leaves it alone. */
  lemma StockFollowsHistory(t: Tables, h: History, player: string, item: Item, quantity: int, now: int)
    requires item.inventory.Some? && h.row == StockRowOf(t, item)
    ensures StockRowOf(ReadStock(t, item, now), item)
      == Step(item.inventory.value, item.restockPerDay, h, StockRead(now)).row
    ensures var outcome := PurchaseOutcome(t, player, item, quantity, now);
      StockRowOf(Purchase(t, player, item, quantity, now), item)
        == if outcome == Ok || outcome == Failed(OutOfStock)
           then Step(item.inventory.value, item.restockPerDay, h, StockSale(now, quantity)).row
           else h.row
  {
    hide Balance, AddItems, Restock;
  }

  /** All actions on the item's id refer to the same catalogue entry. */
  ghost predicate OneCatalogue(actions: seq<Action>, item: Item) {
    forall i :: 0 <= i < |actions| ==>
      && (actions[i].DoReadStock? && actions[i].item.id == item.id ==> actions[i].item == item)
      && (actions[i].DoPurchase? && actions[i].item.id == item.id ==> actions[i].item == item)
  }

  /** What an action asks of the stock of an item. */
  ghost function StockRequest(t: Tables, a: Action, item: Item): seq<Request> {
    match a
    case DoReadStock(other, now) => if other.id == item.id then [StockRead(now)] else []
    case DoPurchase(player, other, quantity, now) =>
      var outcome := PurchaseOutcome(t, player, other, quantity, now);
      if other.id == item.id && (outcome == Ok || outcome == Failed(OutOfStock)) then [StockSale(now, quantity)] else []
    case _ => []
  }

  ghost function StockRequests(t: Tables, actions: seq<Action>, item: Item): seq<Request> {
    if actions == [] then []
    else
      var before := actions[..|actions| - 1];
      StockRequests(t, before, item) + StockRequest(Run(t, before), actions[|actions| - 1], item)
  }

  /** Units of an item that a run buys from the NPC market. */
  ghost function Bought(t: Tables, a: Action, item: Item): int {
    match a
    case DoPurchase(player, other, quantity, now) =>
      if other.id == item.id && PurchaseOutcome(t, player, other, quantity, now) == Ok then quantity else 0
    case _ => 0
  }

  ghost function UnitsBought(t: Tables, actions: seq<Action>, item: Item): int {
    if actions == [] then 0
    else
      var before := actions[..|actions| - 1];
      UnitsBought(t, before, item) + Bought(Run(t, before), actions[|actions| - 1], item)
  }

  ghost function StockHistory(requests: seq<Request>, item: Item): History
    requires item.inventory.Some?
  {
    NpcStock.Run(item.inventory.value, item.restockPerDay, requests)
  }

  lemma HistoryAppend(requests: seq<Request>, more: seq<Request>, item: Item)
    requires item.inventory.Some? && |more| <= 1
    ensures StockHistory(requests + more, item)
      == if more == [] then StockHistory(requests, item)
         else Step(item.inventory.value, item.restockPerDay, StockHistory(requests, item), more[0])
  {
    if more == [] {
      assert requests + more == requests;
    } else {
      assert (requests + more)[..|requests|] == requests;
    }
  }

  /** One action against the stock history. */
  lemma {:induction false} ActionFollowsHistory(t: Tables, a: Action, item: Item, h: History)
    requires item.inventory.Some? && h.row == StockRowOf(t, item) && OneCatalogue([a], item)
    ensures var request := StockRequest(t, a, item);
      var after := if request == [] then h else Step(item.inventory.value, item.restockPerDay, h, request[0]);
      after.row == StockRowOf(Apply(t, a), item) && after.sold == h.sold + Bought(t, a, item)
  {
    assert [a][0] == a;
    hide Balance, AddItems, Restock;
    match a
    case DoPurchase(player, other, quantity, now) =>
      if other == item {
        StockFollowsHistory(t, h, player, item, quantity, now);
      }
    case DoReadStock(other, now) =>
      if other == item {
        StockFollowsHistory(t, h, "", item, 0, now);
      }
    case _ =>
  }

  /** Over every run of the economy the stock row of an item is that of its stock history, and the units bought are the
  units sold in it. */
  lemma {:induction false} StockRunFollowsHistory(t: Tables, actions: seq<Action>, item: Item)
    requires item.inventory.Some? && item.id !in t.stock && OneCatalogue(actions, item)
    ensures var h := StockHistory(StockRequests(t, actions, item), item);
      h.row == StockRowOf(Run(t, actions), item) && h.sold == UnitsBought(t, actions, item)
  {
    if actions == [] {
      NothingHappened(t, item);
    } else {
      var before, last := actions[..|actions| - 1], actions[|actions| - 1];
      CatalogueParts(actions, item);
      hide OneCatalogue, StockHistory, Apply, StockRequest, Bought, StockRowOf;
      StockRunFollowsHistory(t, before, item);
      var requests := StockRequests(t, before, item);
      AtMostOneRequest(Run(t, before), last, item);
      HistoryAppend(requests, StockRequest(Run(t, before), last, item), item);
      ActionFollowsHistory(Run(t, before), last, item, StockHistory(requests, item));
    }
  }

  lemma NothingHappened(t: Tables, item: Item)
    requires item.inventory.Some? && item.id !in t.stock
    ensures StockHistory(StockRequests(t, [], item), item).row == StockRowOf(Run(t, []), item)
    ensures StockHistory(StockRequests(t, [], item), item).sold == UnitsBought(t, [], item)
  {
  }

  lemma CatalogueParts(actions: seq<Action>, item: Item)
    requires OneCatalogue(actions, item) && actions != []
    ensures OneCatalogue(actions[..|actions| - 1], item) && OneCatalogue([actions[|actions| - 1]], item)
  {
  }

  lemma AtMostOneRequest(t: Tables, a: Action, item: Item)
    ensures |StockRequest(t, a, item)| <= 1
  {
    hide PurchaseOutcome;
  }

  /** So in every run, with reads as single steps, the stock lies between zero and the catalogue inventory. */
  lemma {:induction false} StockStaysInBounds(t: Tables, actions: seq<Action>, item: Item, latest: int)
    requires Catalogued(item) && item.inventory.Some? && item.id !in t.stock && OneCatalogue(actions, item)
    requires var requests := StockRequests(t, actions, item);
      forall i :: 0 <= i < |requests| ==> requests[i].now <= latest
    ensures var row := StockRowOf(Run(t, actions), item);
      row.Some? ==> 0 <= row.value.current <= item.inventory.value
    ensures UnitsBought(t, actions, item)
      <= item.inventory.value + StockHistory(StockRequests(t, actions, item), item).restocked
  {
    StockRunFollowsHistory(t, actions, item);
    var requests := StockRequests(t, actions, item);
    StockInBounds(item.inventory.value, item.restockPerDay, requests, latest);
    hide UnitsBought, StockRequests, Run;
  }
}
