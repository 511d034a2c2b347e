/** What each party of the credit economy gets, for single transactions and over whole runs
(server/domain/marketplace/service.py, market/service.py). */
module MarketplaceEffects {
  import opened Numbers
  import opened Totals
  import NpcStock
  import opened Economy

  type Item = NpcStock.Item

  ghost function Holding(t: Tables, player: string, item: string): int {
    Get(t.inventory, (player, item))
  }

  // ---------------------------------------------------------------- which requests succeed

  /** A trade succeeds exactly if the listing is open, holds enough, belongs to somebody else, and the buyer can pay
  all of it. */
  lemma TradeSucceeds(t: Tables, buyer: string, id: string, quantity: int, now: int)
    ensures TradeOutcome(t, buyer, id, quantity, now) == Ok
      <==>
        && id in t.listings
        && var listing := t.listings[id];
        && listing.status == Active && now < listing.expiresAt && listing.sellerId != buyer
        && 0 < quantity <= listing.quantityRemaining
        && listing.pricePerUnit * quantity <= Balance(t.ledger, buyer)
  {
    hide Balance;
  }

  lemma PurchaseSucceeds(t: Tables, player: string, item: Item, quantity: int, now: int)
    ensures PurchaseOutcome(t, player, item, quantity, now) == Ok
      <==>
        && player in t.players && 0 < quantity
        && (item.requiredTier.Some? ==> item.requiredTier.value <= t.players[player].tier)
        && item.price * quantity <= Balance(t.ledger, player)
        && (item.inventory.Some? ==>
              quantity <= ReadStock(t, item, now).stock[item.id].current)
  {
    hide Balance, NpcStock.Refreshed;
  }

  /** A listing succeeds exactly if the seller holds what is offered, at a positive price, under a new id. */
  lemma ListingSucceeds(t: Tables, seller: string, item: string, quantity: int, price: Rational, id: string)
    ensures ListOutcome(t, seller, item, quantity, price, id) == Ok
      <==> 0 < quantity <= Holding(t, seller, item) && 0 < price.num && id !in t.listings
  {
  }

  /** Only its seller withdraws a listing, and only while it is active. */
  lemma WithdrawalSucceeds(t: Tables, player: string, id: string)
    ensures UnlistOutcome(t, player, id) == Ok
      <==> id in t.listings && t.listings[id].sellerId == player && t.listings[id].status == Active
  {
  }

  // ---------------------------------------------------------------- the fee

  /** Half units of the fee go to the even neighbour. */
  lemma FeeTiesToEven(price: int)
    ensures 5 * price - 50 <= 100 * TradeFee(price) <= 5 * price + 50
    ensures 100 * TradeFee(price) == 5 * price - 50 || 100 * TradeFee(price) == 5 * price + 50 ==>
      TradeFee(price) % 2 == 0
  {
  }

  // ---------------------------------------------------------------- what everybody holds

  /** What one action adds to what a player holds of an item. */
  ghost function HoldingEffect(t: Tables, a: Action, player: string, item: string): int {
    match a
    case DoList(seller, hardware, quantity, price, id, _) =>
      if ListOutcome(t, seller, hardware, quantity, price, id) == Ok && player == seller && item == hardware
      then -quantity else 0
    case DoUnlist(seller, id) =>
      if UnlistOutcome(t, seller, id) == Ok && player == seller && item == t.listings[id].hardwareId
      then t.listings[id].quantityRemaining else 0
    case DoTrade(buyer, id, quantity, now) =>
      if TradeOutcome(t, buyer, id, quantity, now) == Ok && player == buyer && item == t.listings[id].hardwareId
      then quantity else 0
    case DoPurchase(buyer, bought, quantity, now) =>
      if PurchaseOutcome(t, buyer, bought, quantity, now) != Ok || player != buyer then 0
      else if item == bought.id then quantity
      else if bought.hardwareUpgrade && item == t.players[player].hardwareId && item != ""
      then -Holding(t, player, item)
      else 0
    case _ => 0
  }

  ghost function TotalHoldingEffect(t: Tables, actions: seq<Action>, player: string, item: string): int {
    if actions == [] then 0
    else
      var before := actions[..|actions| - 1];
      TotalHoldingEffect(t, before, player, item)
      + HoldingEffect(Run(t, before), actions[|actions| - 1], player, item)
  }

  lemma RowsAfter(inventory: Inventory, player: string, item: string, quantity: int, other: string, thing: string)
    ensures Get(AddItems(inventory, player, item, quantity), (other, thing))
      == Get(inventory, (other, thing)) + if (other, thing) == (player, item) then quantity else 0
  {
  }

  lemma {:induction false} OneHoldingEffect(t: Tables, a: Action, player: string, item: string)
    requires Inv(t)
    ensures Holding(Apply(t, a), player, item) == Holding(t, player, item) + HoldingEffect(t, a, player, item)
  {
    hide Balance, AddItems, NpcStock.Refreshed;
    match a
    case DoList(seller, hardware, quantity, price, id, now) =>
      RowsAfter(t.inventory, seller, hardware, -quantity, player, item);
    case DoUnlist(seller, id) =>
      if id in t.listings {
        var listing := t.listings[id];
        RowsAfter(t.inventory, seller, listing.hardwareId, listing.quantityRemaining, player, item);
      }
    case DoTrade(buyer, id, quantity, now) =>
      if id in t.listings {
        RowsAfter(t.inventory, buyer, t.listings[id].hardwareId, quantity, player, item);
      }
    case DoPurchase(buyer, bought, quantity, now) =>
      PurchasedRows(t, buyer, bought, quantity, now, player, item);
    case _ =>
  }

  lemma PurchasedRows(t: Tables, buyer: string, bought: Item, quantity: int, now: int, player: string, item: string)
    ensures Holding(Purchase(t, buyer, bought, quantity, now), player, item)
      == Holding(t, player, item) + HoldingEffect(t, DoPurchase(buyer, bought, quantity, now), player, item)
  {
    hide Balance, AddItems, ReadStock, PurchaseOutcome;
    RowsAfter(t.inventory, buyer, bought.id, quantity, player, item);
  }

  /** Over every run a player holds of each item what was held before, plus what was bought and taken back, less what
  was listed and what upgrades replaced. */
  lemma {:induction false} HoldingsOverRuns(t: Tables, actions: seq<Action>, player: string, item: string)
    requires Inv(t)
    requires forall i :: 0 <= i < |actions| ==> Admissible(actions[i])
    ensures Inv(Run(t, actions))
    ensures Holding(Run(t, actions), player, item)
      == Holding(t, player, item) + TotalHoldingEffect(t, actions, player, item)
  {
    if actions != [] {
      hide Inv, Apply, Holding, HoldingEffect;
      var before, last := actions[..|actions| - 1], actions[|actions| - 1];
      HoldingsOverRuns(t, before, player, item);
      ApplyKeepsInv(Run(t, before), last);
      OneHoldingEffect(Run(t, before), last, player, item);
    }
  }

  // ---------------------------------------------------------------- what everybody earns and pays

  /** What one action adds to a player's balance. */
  ghost function CreditEffect(t: Tables, a: Action, player: string): int {
    match a
    case DoReward(rewarded, amount, _) => if player == rewarded then amount else 0
    case DoPurchase(buyer, item, quantity, now) =>
      if PurchaseOutcome(t, buyer, item, quantity, now) == Ok && player == buyer then -(item.price * quantity) else 0
    case DoTrade(buyer, id, quantity, now) =>
      if TradeOutcome(t, buyer, id, quantity, now) != Ok then 0
      else
        var price := t.listings[id].pricePerUnit * quantity;
        if player == buyer then -price
        else if player == t.listings[id].sellerId then price - TradeFee(price)
        else 0
    case _ => 0
  }

  ghost function TotalCreditEffect(t: Tables, actions: seq<Action>, player: string): int {
    if actions == [] then 0
    else
      var before := actions[..|actions| - 1];
      TotalCreditEffect(t, before, player) + CreditEffect(Run(t, before), actions[|actions| - 1], player)
  }

  lemma {:induction false} OneCreditEffect(t: Tables, a: Action, player: string)
    requires Inv(t)
    ensures Balance(Apply(t, a).ledger, player) == Balance(t.ledger, player) + CreditEffect(t, a, player)
  {
    hide Balance, AddItems, NpcStock.Refreshed, TradeFee, CreditTotal;
    match a
    case DoReward(rewarded, amount, pool) =>
      BalanceAppend(t.ledger, LedgerEntry(rewarded, amount, Credits, if pool then PoolDistribution else BlockReward));
    case DoPostUncounted(other, amount) =>
      BalanceAppend(t.ledger, LedgerEntry(other, amount, WorkUnits, OfflineProgress));
    case DoPurchase(buyer, item, quantity, now) =>
      PurchasePaid(t, buyer, item, quantity, now, player);
    case DoTrade(buyer, id, quantity, now) =>
      if TradeOutcome(t, buyer, id, quantity, now) == Ok {
        TradeMovesCredits(t, buyer, id, quantity, now);
        TradeSucceeds(t, buyer, id, quantity, now);
      }
    case _ =>
  }

  lemma PurchasePaid(t: Tables, buyer: string, item: Item, quantity: int, now: int, player: string)
    ensures Balance(Purchase(t, buyer, item, quantity, now).ledger, player)
      == Balance(t.ledger, player) + CreditEffect(t, DoPurchase(buyer, item, quantity, now), player)
  {
    hide Balance, AddItems, ReadStock, PurchaseOutcome, CreditTotal;
    var entryType := if item.hardwareUpgrade then HardwareUpgrade else MarketPurchase;
    BalanceAppend(t.ledger, LedgerEntry(buyer, -(item.price * quantity), Credits, entryType));
  }

  /** Over every run a player's balance is what it was, plus rewards and sales less the fee, minus what was paid. */
  lemma {:induction false} BalancesOverRuns(t: Tables, actions: seq<Action>, player: string)
    requires Inv(t)
    requires forall i :: 0 <= i < |actions| ==> Admissible(actions[i])
    ensures Inv(Run(t, actions))
    ensures Balance(Run(t, actions).ledger, player)
      == Balance(t.ledger, player) + TotalCreditEffect(t, actions, player)
  {
    if actions != [] {
      hide Inv, Apply, Balance, CreditEffect;
      var before, last := actions[..|actions| - 1], actions[|actions| - 1];
      BalancesOverRuns(t, before, player);
      ApplyKeepsInv(Run(t, before), last);
      OneCreditEffect(Run(t, before), last, player);
    }
  }

  // ---------------------------------------------------------------- what becomes of a listing

  /** Units an action sells out of a listing. */
  ghost function SoldFrom(t: Tables, a: Action, id: string): int {
    match a
    case DoTrade(buyer, other, quantity, now) =>
      if other == id && TradeOutcome(t, buyer, id, quantity, now) == Ok then quantity else 0
    case _ => 0
  }

  ghost function UnitsSoldFrom(t: Tables, actions: seq<Action>, id: string): int {
    if actions == [] then 0
    else
      var before := actions[..|actions| - 1];
      UnitsSoldFrom(t, before, id) + SoldFrom(Run(t, before), actions[|actions| - 1], id)
  }

  /** A new listing offers what was taken from the seller, for 30 days. */
  lemma NewListing(t: Tables, seller: string, item: string, quantity: int, price: Rational, id: string, now: int)
    requires ListOutcome(t, seller, item, quantity, price, id) == Ok
    ensures var after := List(t, seller, item, quantity, price, id, now);
      && after.listings.Keys == t.listings.Keys + {id}
      && (forall other :: other in t.listings ==> after.listings[other] == t.listings[other])
      && var listing := after.listings[id];
      && listing.sellerId == seller && listing.hardwareId == item && listing.status == Active
      && listing.quantityTotal == quantity && listing.quantityRemaining == quantity
      && 2 * price.num * 1_000_000 - price.den < 2 * (listing.pricePerUnit * price.den)
         <= 2 * price.num * 1_000_000 + price.den
      && listing.expiresAt == now + 30 * 24 * 60 * 60 * 1_000_000
  {
    hide AddItems;
    RoundedPrice(price);
    hide Stored;
  }

  lemma RoundedPrice(price: Rational)
    requires 0 < price.num
    ensures 2 * price.num * 1_000_000 - price.den < 2 * (Stored(price) * price.den)
      <= 2 * price.num * 1_000_000 + price.den
  {
  }

  /** A buyer asks for the listing after it has expired. */
  ghost predicate FindsExpired(a: Action, id: string, listing: Listing) {
    a.DoTrade? && a.listingId == id && 0 < a.quantity && listing.expiresAt <= a.now
  }

  /** One action on an existing listing: what it offers never changes, what is left falls by what was sold, and it is
  closed by being sold out, withdrawn, or found expired by a buyer. */
  lemma {:induction false} ListingAfter(t: Tables, a: Action, id: string)
    requires id in t.listings
    ensures id in Apply(t, a).listings
    ensures var before, after := t.listings[id], Apply(t, a).listings[id];
      && after.sellerId == before.sellerId && after.hardwareId == before.hardwareId
      && after.quantityTotal == before.quantityTotal && after.pricePerUnit == before.pricePerUnit
      && after.expiresAt == before.expiresAt
      && after.quantityRemaining == before.quantityRemaining - SoldFrom(t, a, id)
      && (after.status == Active <==>
            && before.status == Active && (SoldFrom(t, a, id) > 0 ==> after.quantityRemaining > 0)
            && a != DoUnlist(before.sellerId, id) && !FindsExpired(a, id, before))
      && (before.status == Active && after.status != Active ==>
            match after.status
            case SoldOut => a.DoTrade? && after.quantityRemaining == 0
            case Unlisted => a.DoUnlist?
            case Expired => a.DoTrade? && before.expiresAt <= a.now
            case Active => false)
      && (before.status != Active ==> after.status == before.status)
  {
    hide Balance, AddItems, NpcStock.Refreshed, TradeFee;
  }

  /** Over every run what is left of a listing is what was left before less what was traded out of it. */
  lemma {:induction false} ListingOverRuns(t: Tables, actions: seq<Action>, id: string)
    requires id in t.listings
    ensures id in Run(t, actions).listings
    ensures var listing := Run(t, actions).listings[id];
      && listing.quantityRemaining == t.listings[id].quantityRemaining - UnitsSoldFrom(t, actions, id)
      && listing.pricePerUnit == t.listings[id].pricePerUnit && listing.sellerId == t.listings[id].sellerId
  {
    if actions != [] {
      hide Apply, SoldFrom;
      ListingOverRuns(t, actions[..|actions| - 1], id);
      ListingAfter(Run(t, actions[..|actions| - 1]), actions[|actions| - 1], id);
    }
  }

  // ---------------------------------------------------------------- what is installed

  /** An action changes the player table in one way: a tier upgrade installs what its buyer bought. */
  lemma {:induction false} InstalledAfter(t: Tables, a: Action, player: string)
    ensures Apply(t, a).players.Keys == t.players.Keys
    ensures player in t.players ==>
      Apply(t, a).players[player]
        == if a.DoPurchase? && a.player == player && a.item.hardwareUpgrade
             && PurchaseOutcome(t, player, a.item, a.quantity, a.now) == Ok
           then Player(t.players[player].tier, a.item.id)
           else t.players[player]
  {
    hide Balance, AddItems, NpcStock.Refreshed, TradeFee;
  }
}
