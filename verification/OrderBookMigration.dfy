/** The unified order book: listings become asks, direct orders become bids, legacy orders and accepted offers
    become trades, and each ask keeps what its live trades have not taken.  Amounts are whole cents, the
    grid of the NUMERIC(12, 2) columns. */
module OrderBookMigration {
  import opened Sql
  import M = MarketSchema
  import MarketChecks

  type Id = nat
  type Cents = int

  /** NUMERIC(12, 2) holds less than ten thousand million. */
  const COLUMN_LIMIT: Cents := 1_000_000_000_000

  datatype ListingStatus = Active | Inactive | Lapsed | OtherListing(raw: string)
  datatype DirectStatus =
    | Pending | Draft | Quoted | Negotiating | Confirmed | Completed | Rejected | OtherDirect(raw: string)
  datatype LegacyStatus = Placed | Agreed | Declined | Delivered | Finished | Paid | Cancelled | OtherLegacy(raw: string)

  datatype Listing = Listing(id: Id, supplier: Id, quantity: Cents, price: Cents, status: ListingStatus)
  datatype DirectOrder = DirectOrder(id: Id, buyer: Option<Id>, quantity: Cents, finalPrice: Option<Cents>,
                                     status: DirectStatus)
  datatype LegacyOrder = LegacyOrder(id: Id, listing: Id, buyer: Id, requested: Option<Cents>, status: LegacyStatus,
                                     commission: Option<Cents>)
  datatype Offer = Offer(direct: Id, supplier: Id, price: Cents, accepted: Option<bool>)
  datatype Commission = Commission(id: Id, matchId: Id, tradeId: Option<Id>)

  datatype Side = Bid | Ask
  datatype BookOrder = BookOrder(id: Id, organization: Id, side: Side, quantity: Cents, remaining: Cents,
                                 price: Cents, status: M.OrderStatus)
  datatype Trade = Trade(id: Id, bid: Option<Id>, ask: Option<Id>, buyer: Id, seller: Id, initiatedBy: M.Party,
                         quantity: Cents, price: Cents, status: M.TradeStatus, commission: Option<Cents>)

  // ---------- the legacy tables ----------

  predicate DistinctListings(listings: seq<Listing>) {
    forall i, j | 0 <= i < j < |listings| :: listings[i].id != listings[j].id
  }

  predicate Listed(listings: seq<Listing>, id: Id) { exists i | 0 <= i < |listings| :: listings[i].id == id }

  /** Foreign key orders.listing_id. */
  predicate AllListed(listings: seq<Listing>, orders: seq<LegacyOrder>) {
    forall i | 0 <= i < |orders| :: Listed(listings, orders[i].listing)
  }

  predicate Requested(directs: seq<DirectOrder>, id: Id) { exists i | 0 <= i < |directs| :: directs[i].id == id }

  /** Foreign key direct_order_offers.direct_order_id. */
  predicate AllRequested(directs: seq<DirectOrder>, offers: seq<Offer>) {
    forall i | 0 <= i < |offers| :: Requested(directs, offers[i].direct)
  }

  /** direct_orders.buyer_id may be NULL, orderbook_orders.organization_id may not. */
  predicate KnownBuyers(directs: seq<DirectOrder>) { forall i | 0 <= i < |directs| :: directs[i].buyer.Some? }

  function FindListing(listings: seq<Listing>, id: Id): (l: Listing)
    requires Listed(listings, id)
    ensures l in listings && l.id == id
  {
    if listings[|listings| - 1].id == id then listings[|listings| - 1] else FindListing(listings[..|listings| - 1], id)
  }

  function FindDirect(directs: seq<DirectOrder>, id: Id): (d: DirectOrder)
    requires Requested(directs, id)
    ensures d in directs && d.id == id
  {
    if directs[|directs| - 1].id == id then directs[|directs| - 1] else FindDirect(directs[..|directs| - 1], id)
  }

  // ---------- row by row ----------

  /** COALESCE with a default that is never null. */
  function Otherwise<T>(a: Option<T>, b: T): T { if a.Some? then a.value else b }

  function AskStatus(s: ListingStatus): M.OrderStatus {
    match s
    case Active => M.Open
    case Inactive | OtherListing(_) => M.OrderCancelled
    case Lapsed => M.OrderExpired
  }

  function BidStatus(s: DirectStatus): M.OrderStatus {
    match s
    case Pending | Draft | Quoted | Negotiating => M.Open
    case Confirmed | Completed => M.Filled
    case Rejected | OtherDirect(_) => M.OrderCancelled
  }

  function DealStatus(s: LegacyStatus): M.TradeStatus {
    match s
    case Placed => M.PendingConfirmation
    case Agreed => M.Confirmed
    case Declined => M.TradeDeclined
    case Delivered | Finished => M.Delivered
    case Paid => M.Paid
    case Cancelled | OtherLegacy(_) => M.TradeCancelled
  }

  function AskOf(l: Listing): BookOrder {
    BookOrder(l.id, l.supplier, Ask, l.quantity, l.quantity, l.price, AskStatus(l.status))
  }

  function BidOf(d: DirectOrder): BookOrder
    requires d.buyer.Some?
  {
    BookOrder(d.id, d.buyer.value, Bid, d.quantity, d.quantity, Otherwise(d.finalPrice, 0), BidStatus(d.status))
  }

  /** COALESCE(requested, listed) */
  function Amount(o: LegacyOrder, l: Listing): Cents { Otherwise(o.requested, l.quantity) }

  function BuyerTrade(o: LegacyOrder, l: Listing): Trade {
    Trade(o.id, None, Some(o.listing), o.buyer, l.supplier, M.Buyer, Amount(o, l), l.price, DealStatus(o.status),
          o.commission)
  }

  function SellerTrade(id: Id, offer: Offer, d: DirectOrder): Trade
    requires d.buyer.Some?
  {
    Trade(id, Some(offer.direct), None, d.buyer.value, offer.supplier, M.Seller, d.quantity, offer.price, M.Confirmed, None)
  }

  function BuyerTrades(listings: seq<Listing>, orders: seq<LegacyOrder>): (trades: seq<Trade>)
    requires AllListed(listings, orders)
    ensures |trades| == |orders|
    ensures forall i | 0 <= i < |orders| :: trades[i] == BuyerTrade(orders[i], FindListing(listings, orders[i].listing))
  {
    seq(|orders|, i requires 0 <= i < |orders| => BuyerTrade(orders[i], FindListing(listings, orders[i].listing)))
  }

  /** Accepted offers in order; `newId` are the generated identifiers. */
  function SellerTrades(directs: seq<DirectOrder>, offers: seq<Offer>, newId: nat -> Id): (trades: seq<Trade>)
    requires AllRequested(directs, offers) && KnownBuyers(directs)
    ensures forall i | 0 <= i < |trades| :: trades[i].ask.None? && trades[i].id == newId(i)
  {
    if offers == [] then []
    else
      var last := offers[|offers| - 1];
      var before := SellerTrades(directs, offers[..|offers| - 1], newId);
      if Equals(last.accepted, true).Selected()
      then before + [SellerTrade(newId(|before|), last, FindDirect(directs, last.direct))]
      else before
  }

  // ---------- the statements ----------

  function LiveVolume(trades: seq<Trade>, ask: Id): Cents {
    if trades == [] then 0
    else
      var t := trades[|trades| - 1];
      LiveVolume(trades[..|trades| - 1], ask)
      + if Equals(t.ask, ask).Selected() && t.status != M.TradeCancelled && t.status != M.TradeDeclined
        then t.quantity else 0
  }

  function SetRemaining(o: BookOrder, trades: seq<Trade>): BookOrder {
    if o.side.Ask? then o.(remaining := o.quantity - LiveVolume(trades, o.id)) else o
  }

  function MarkFilled(o: BookOrder): BookOrder {
    if o.side.Ask? && o.remaining <= 0 && o.status.Open? then o.(status := M.Filled) else o
  }

  function MarkPartial(o: BookOrder): BookOrder {
    if o.side.Ask? && 0 < o.remaining < o.quantity && o.status.Open? then o.(status := M.PartiallyFilled) else o
  }

  predicate Fits(c: Cents) { -COLUMN_LIMIT < c < COLUMN_LIMIT }

  /** Twelve digits. */
  lemma FitsIsTwelveDigits(c: Cents)
    ensures Fits(c) <==> -999_999_999_999 <= c <= 999_999_999_999
  {}

  function Relinked(c: Commission, trades: seq<Trade>): Commission {
    if exists i | 0 <= i < |trades| :: trades[i].id == c.matchId then c.(tradeId := Some(c.matchId)) else c
  }

  // ---------- the direct description ----------

  predicate Live(s: LegacyStatus) { s.Placed? || s.Agreed? || s.Delivered? || s.Finished? || s.Paid? }

  /** What the legacy orders that still stand have taken from a listing. */
  function Sold(l: Listing, orders: seq<LegacyOrder>): Cents {
    if orders == [] then 0
    else
      var o := orders[|orders| - 1];
      Sold(l, orders[..|orders| - 1]) + if o.listing == l.id && Live(o.status) then Amount(o, l) else 0
  }

  function FinalStatus(l: Listing, remaining: Cents): M.OrderStatus {
    match l.status
    case Inactive | OtherListing(_) => M.OrderCancelled
    case Lapsed => M.OrderExpired
    case Active =>
      if remaining <= 0 then M.Filled else if remaining < l.quantity then M.PartiallyFilled else M.Open
  }

  function FinalAsk(l: Listing, orders: seq<LegacyOrder>): BookOrder {
    var remaining := l.quantity - Sold(l, orders);
    BookOrder(l.id, l.supplier, Ask, l.quantity, remaining, l.price, FinalStatus(l, remaining))
  }

  function FinalBook(listings: seq<Listing>, directs: seq<DirectOrder>, orders: seq<LegacyOrder>): (book: seq<BookOrder>)
    requires KnownBuyers(directs)
    ensures |book| == |listings| + |directs|
    ensures forall i | 0 <= i < |listings| :: book[i] == FinalAsk(listings[i], orders)
    ensures forall i | 0 <= i < |directs| :: book[|listings| + i] == BidOf(directs[i])
  {
    seq(|listings|, i requires 0 <= i < |listings| => FinalAsk(listings[i], orders))
    + seq(|directs|, i requires 0 <= i < |directs| => BidOf(directs[i]))
  }

  /** Adding up trades finds exactly the standing legacy orders of the listing: offers only ever link bids. */
  lemma {:induction false} TradesAddUp(listings: seq<Listing>, orders: seq<LegacyOrder>, offered: seq<Trade>,
                                       l: Listing)
    requires DistinctListings(listings) && AllListed(listings, orders) && l in listings
    requires forall i | 0 <= i < |offered| :: offered[i].ask.None?
    ensures LiveVolume(BuyerTrades(listings, orders) + offered, l.id) == Sold(l, orders)
    decreases |offered|, |orders|
  {
    var all := BuyerTrades(listings, orders) + offered;
    if offered != [] {
      assert all[..|all| - 1] == BuyerTrades(listings, orders) + offered[..|offered| - 1];
      TradesAddUp(listings, orders, offered[..|offered| - 1], l);
    } else if orders != [] {
      var before, o := orders[..|orders| - 1], orders[|orders| - 1];
      assert AllListed(listings, before);
      assert all[..|all| - 1] == BuyerTrades(listings, before) + [];
      TradesAddUp(listings, before, [], l);
      if o.listing == l.id {
        var found := FindListing(listings, o.listing);
        assert found == l;
      }
    } else {
      assert all == [];
    }
  }

  predicate Standing(s: LegacyStatus) { !s.Declined? && !s.Cancelled? && !s.OtherLegacy? }

  /** Order by order: a standing order takes from its listing what it requested, or all that was listed if it
      did not say; any other order takes nothing. */
  lemma OrderTakesItsAmount(l: Listing, orders: seq<LegacyOrder>, o: LegacyOrder)
    ensures FinalAsk(l, orders + [o]).remaining == FinalAsk(l, orders).remaining -
              if o.listing != l.id || !Standing(o.status) then 0
              else match o.requested case Some(amount) => amount case None => l.quantity
  {
    assert (orders + [o])[..|orders|] == orders;
  }

  lemma UntouchedListing(l: Listing)
    ensures FinalAsk(l, []) == BookOrder(l.id, l.supplier, Ask, l.quantity, l.quantity, l.price, FinalStatus(l, l.quantity))
  {}

  /** The trade of a legacy order, column by column. */
  lemma TradeCarriesItsOrder(listings: seq<Listing>, orders: seq<LegacyOrder>, i: nat, l: Listing)
    requires DistinctListings(listings) && AllListed(listings, orders) && i < |orders|
    requires l in listings && l.id == orders[i].listing
    ensures var t, o := BuyerTrades(listings, orders)[i], orders[i];
            && t.id == o.id && t.ask == Some(l.id) && t.bid.None? && t.commission == o.commission
            && t.buyer == o.buyer && t.seller == l.supplier && t.initiatedBy == M.Buyer && t.price == l.price
            && (o.requested.Some? ==> t.quantity == o.requested.value)
            && (o.requested.None? ==> t.quantity == l.quantity)
            && (t.status in {M.TradeCancelled, M.TradeDeclined} <==> !Standing(o.status))
            && (t.status == M.TradeDeclined <==> o.status.Declined?)
            && (t.status == M.PendingConfirmation <==> o.status.Placed?)
            && (t.status == M.Confirmed <==> o.status.Agreed?)
            && (t.status == M.Delivered <==> o.status.Delivered? || o.status.Finished?)
            && (t.status == M.Paid <==> o.status.Paid?)
  {
    assert FindListing(listings, orders[i].listing) == l;
  }

  lemma InsertedQuantities(was: seq<Trade>, listings: seq<Listing>, orders: seq<LegacyOrder>, offered: seq<Trade>)
    requires AllListed(listings, orders)
    ensures forall i | 0 <= i < |orders| ::
              (was + BuyerTrades(listings, orders) + offered)[|was| + i].quantity
                == if orders[i].requested.Some? then orders[i].requested.value
                   else FindListing(listings, orders[i].listing).quantity
  {}

  /** The three UPDATEs amount to the direct description of an ask. */
  lemma UpdatesGiveFinalAsk(listings: seq<Listing>, orders: seq<LegacyOrder>, offered: seq<Trade>, l: Listing)
    requires DistinctListings(listings) && AllListed(listings, orders) && l in listings
    requires forall i | 0 <= i < |offered| :: offered[i].ask.None?
    ensures MarkPartial(MarkFilled(SetRemaining(AskOf(l), BuyerTrades(listings, orders) + offered))) == FinalAsk(l, orders)
  {
    TradesAddUp(listings, orders, offered, l);
  }

  /** The rows of both INSERTs. */
  function InsertedBook(listings: seq<Listing>, directs: seq<DirectOrder>): (book: seq<BookOrder>)
    requires KnownBuyers(directs)
    ensures |book| == |listings| + |directs|
    ensures forall i | 0 <= i < |listings| :: book[i] == AskOf(listings[i])
    ensures forall i | 0 <= i < |directs| :: book[|listings| + i] == BidOf(directs[i])
  {
    seq(|listings|, i requires 0 <= i < |listings| => AskOf(listings[i]))
    + seq(|directs|, i requires 0 <= i < |directs| => BidOf(directs[i]))
  }

  /** The whole table after the three UPDATEs. */
  function UpdatedBook(book: seq<BookOrder>, trades: seq<Trade>): seq<BookOrder> {
    seq(|book|, i requires 0 <= i < |book| => MarkPartial(MarkFilled(SetRemaining(book[i], trades))))
  }

  predicate RowsFit(book: seq<BookOrder>, trades: seq<Trade>) {
    forall i | 0 <= i < |book| :: Fits(SetRemaining(book[i], trades).remaining)
  }

  lemma UpdatesGiveFinalBook(listings: seq<Listing>, directs: seq<DirectOrder>, orders: seq<LegacyOrder>,
                             trades: seq<Trade>, offered: seq<Trade>)
    requires DistinctListings(listings) && AllListed(listings, orders)
    requires forall i | 0 <= i < |offered| :: offered[i].ask.None?
    requires forall i | 0 <= i < |directs| :: Fits(directs[i].quantity)
    requires KnownBuyers(directs)
    requires trades == BuyerTrades(listings, orders) + offered
    ensures UpdatedBook(InsertedBook(listings, directs), trades) == FinalBook(listings, directs, orders)
    ensures RowsFit(InsertedBook(listings, directs), trades) <==> RemainingFits(listings, orders)
  {
    var book := InsertedBook(listings, directs);
    forall i | 0 <= i < |book|
      ensures MarkPartial(MarkFilled(SetRemaining(book[i], trades))) == FinalBook(listings, directs, orders)[i]
      ensures SetRemaining(book[i], trades).remaining
              == if i < |listings| then listings[i].quantity - Sold(listings[i], orders) else directs[i - |listings|].quantity
    {
      if i < |listings| {
        TradesAddUp(listings, orders, offered, listings[i]);
        UpdatesGiveFinalAsk(listings, orders, offered, listings[i]);
      } else {
        assert book[i] == BidOf(directs[i - |listings|]);
        assert FinalBook(listings, directs, orders)[|listings| + (i - |listings|)] == BidOf(directs[i - |listings|]);
      }
    }
    assert UpdatedBook(book, trades) == FinalBook(listings, directs, orders);
    hide Fits, Sold, SetRemaining, UpdatedBook, FinalBook, InsertedBook, MarkPartial, MarkFilled;
    if RemainingFits(listings, orders) {
      forall i | 0 <= i < |book| ensures Fits(SetRemaining(book[i], trades).remaining) {
        if i < |listings| { assert Fits(listings[i].quantity - Sold(listings[i], orders)); }
        else { assert Fits(directs[i - |listings|].quantity); }
      }
    }
    if RowsFit(book, trades) {
      forall i | 0 <= i < |listings| ensures Fits(listings[i].quantity - Sold(listings[i], orders)) {
        assert Fits(SetRemaining(book[i], trades).remaining);
      }
    }
  }

  // ---------- the migration ----------

  datatype Outcome = Migrated | DuplicateId | NullBuyer | NumericOverflow

  predicate IdsClash(listings: seq<Listing>, directs: seq<DirectOrder>) {
    exists i | 0 <= i < |listings| :: Requested(directs, listings[i].id)
  }

  lemma ClashAt(listings: seq<Listing>, directs: seq<DirectOrder>, i: nat)
    requires i < |directs| && Listed(listings, directs[i].id)
    ensures IdsClash(listings, directs)
  {
    var k :| 0 <= k < |listings| && listings[k].id == directs[i].id;
    assert Requested(directs, listings[k].id);
  }

  predicate RemainingFits(listings: seq<Listing>, orders: seq<LegacyOrder>) {
    forall i | 0 <= i < |listings| :: Fits(listings[i].quantity - Sold(listings[i], orders))
  }

  class Tables {
    const listings: seq<Listing>
    const directs: seq<DirectOrder>
    const orders: seq<LegacyOrder>
    const offers: seq<Offer>
    var commissions: seq<Commission>
    var book: seq<BookOrder>
    var trades: seq<Trade>

    constructor (listings: seq<Listing>, directs: seq<DirectOrder>, orders: seq<LegacyOrder>, offers: seq<Offer>,
                 commissions: seq<Commission>)
      ensures this.listings == listings && this.directs == directs && this.orders == orders
      ensures this.offers == offers && this.commissions == commissions && book == [] && trades == []
    {
      this.listings, this.directs, this.orders, this.offers := listings, directs, orders, offers;
      this.commissions, book, trades := commissions, [], [];
    }

    /** Keys and foreign keys of the legacy tables, and columns within their widths. */
    ghost predicate Valid() {
      && DistinctListings(listings) && AllListed(listings, orders) && AllRequested(directs, offers)
    }

    /** Row by row, until a bid without a buyer or one whose identifier an ask already has. */
    method InsertOrders() returns (failure: Option<Outcome>)
      requires book == []
      modifies `book
      ensures failure.None? <==> KnownBuyers(directs) && !IdsClash(listings, directs)
      ensures failure.None? ==> book == InsertedBook(listings, directs)
      ensures failure.Some? ==> failure.value.NullBuyer? || failure.value.DuplicateId?
      ensures failure == Some(NullBuyer) ==> !KnownBuyers(directs)
      ensures failure == Some(DuplicateId) ==> IdsClash(listings, directs)
    {
      var i := 0;
      while i < |listings|
        invariant 0 <= i <= |listings|
        invariant book == seq(i, k requires 0 <= k < i => AskOf(listings[k]))
      {
        book := book + [AskOf(listings[i])];
        i := i + 1;
      }
      ghost var asks := book;
      i := 0;
      while i < |directs|
        invariant 0 <= i <= |directs|
        invariant forall k | 0 <= k < i :: directs[k].buyer.Some? && !Listed(listings, directs[k].id)
        invariant |book| == |asks| + i && asks <= book
        invariant forall k | 0 <= k < i :: book[|asks| + k] == BidOf(directs[k])
      {
        if directs[i].buyer.None? { return Some(NullBuyer); }
        if Listed(listings, directs[i].id) {
          ClashAt(listings, directs, i);
          return Some(DuplicateId);
        }
        book := book + [BidOf(directs[i])];
        i := i + 1;
      }
      assert book == InsertedBook(listings, directs);
      return None;
    }

    method InsertBuyerTrades()
      requires AllListed(listings, orders)
      modifies `trades
      ensures trades == old(trades) + BuyerTrades(listings, orders)
    {
      var i := 0;
      while i < |orders|
        invariant 0 <= i <= |orders|
        invariant trades == old(trades) + BuyerTrades(listings, orders)[..i]
      {
        trades := trades + [BuyerTrade(orders[i], FindListing(listings, orders[i].listing))];
        i := i + 1;
      }
    }

    method InsertSellerTrades(newId: nat -> Id)
      requires AllRequested(directs, offers) && KnownBuyers(directs)
      modifies `trades
      ensures trades == old(trades) + SellerTrades(directs, offers, newId)
    {
      var inserted := 0;
      var i := 0;
      while i < |offers|
        invariant 0 <= i <= |offers| && AllRequested(directs, offers[..i])
        invariant inserted == |SellerTrades(directs, offers[..i], newId)|
        invariant trades == old(trades) + SellerTrades(directs, offers[..i], newId)
      {
        assert offers[..i + 1][..i] == offers[..i];
        assert AllRequested(directs, offers[..i + 1]);
        if Equals(offers[i].accepted, true).Selected() {
          trades := trades + [SellerTrade(newId(inserted), offers[i], FindDirect(directs, offers[i].direct))];
          inserted := inserted + 1;
        }
        i := i + 1;
      }
      assert offers[..|offers|] == offers;
    }

    method InsertTrades(newId: nat -> Id)
      requires Valid() && KnownBuyers(directs)
      modifies `trades
      ensures trades == old(trades) + BuyerTrades(listings, orders) + SellerTrades(directs, offers, newId)
      ensures forall i | 0 <= i < |orders| ::
                trades[|old(trades)| + i].quantity
                  == if orders[i].requested.Some? then orders[i].requested.value
                     else FindListing(listings, orders[i].listing).quantity
    {
      InsertBuyerTrades();
      InsertSellerTrades(newId);
      InsertedQuantities(old(trades), listings, orders, SellerTrades(directs, offers, newId));
    }

    method RelinkCommissions()
      modifies `commissions
      ensures |commissions| == |old(commissions)|
      ensures forall i | 0 <= i < |commissions| :: commissions[i] == Relinked(old(commissions)[i], trades)
    {
      var i := 0;
      while i < |commissions|
        invariant 0 <= i <= |commissions| == |old(commissions)|
        invariant forall k | 0 <= k < i :: commissions[k] == Relinked(old(commissions)[k], trades)
        invariant forall k | i <= k < |commissions| :: commissions[k] == old(commissions)[k]
      {
        commissions := commissions[i := Relinked(commissions[i], trades)];
        i := i + 1;
      }
    }

    /** The UPDATEs of the last step; a remaining quantity that no longer fits its column stops the first. */
    method UpdateBook() returns (fits: bool)
      modifies `book
      ensures fits <==> RowsFit(old(book), trades)
      ensures fits ==> book == UpdatedBook(old(book), trades)
    {
      fits := true;
      var i := 0;
      while i < |book|
        invariant 0 <= i <= |book| == |old(book)|
        invariant forall k | 0 <= k < i :: Fits(SetRemaining(old(book)[k], trades).remaining)
        invariant forall k | 0 <= k < i :: book[k] == SetRemaining(old(book)[k], trades)
        invariant forall k | i <= k < |book| :: book[k] == old(book)[k]
      {
        var row := SetRemaining(book[i], trades);
        if !Fits(row.remaining) { return false; }
        book := book[i := row];
        i := i + 1;
      }
      i := 0;
      while i < |book|
        invariant 0 <= i <= |book| == |old(book)|
        invariant forall k | 0 <= k < i :: book[k] == MarkFilled(SetRemaining(old(book)[k], trades))
        invariant forall k | i <= k < |book| :: book[k] == SetRemaining(old(book)[k], trades)
      {
        book := book[i := MarkFilled(book[i])];
        i := i + 1;
      }
      i := 0;
      while i < |book|
        invariant 0 <= i <= |book| == |old(book)|
        invariant forall k | 0 <= k < i :: book[k] == MarkPartial(MarkFilled(SetRemaining(old(book)[k], trades)))
        invariant forall k | i <= k < |book| :: book[k] == MarkFilled(SetRemaining(old(book)[k], trades))
      {
        book := book[i := MarkPartial(book[i])];
        i := i + 1;
      }
    }

    /** Steps 4 to 9 in one transaction: either every table holds what the legacy rows call for, or a bid
        without a buyer, a clash of identifiers or a quantity too wide for its column rolls everything back. */
    method Upgrade(newId: nat -> Id) returns (outcome: Outcome)
      requires Valid() && book == [] && trades == []
      requires forall i | 0 <= i < |directs| :: Fits(directs[i].quantity)
      modifies this
      ensures outcome.Migrated? <==>
                KnownBuyers(directs) && !IdsClash(listings, directs) && RemainingFits(listings, orders)
      ensures outcome.NumericOverflow? <==>
                KnownBuyers(directs) && !IdsClash(listings, directs) && !RemainingFits(listings, orders)
      ensures outcome.NullBuyer? ==> !KnownBuyers(directs)
      ensures outcome.DuplicateId? ==> IdsClash(listings, directs)
      ensures !outcome.Migrated? ==> book == [] && trades == [] && commissions == old(commissions)
      ensures outcome.Migrated? ==> book == FinalBook(listings, directs, orders)
      ensures outcome.Migrated? ==>
        trades == BuyerTrades(listings, orders) + SellerTrades(directs, offers, newId)
      ensures outcome.Migrated? ==> |commissions| == |old(commissions)|
      ensures outcome.Migrated? ==>
        forall i | 0 <= i < |commissions| :: commissions[i] == Relinked(old(commissions)[i], trades)
    {
      var before := commissions;
      var failure := InsertOrders();
      if failure.Some? {
        book := [];
        return failure.value;
      }
      InsertTrades(newId);
      RelinkCommissions();
      ghost var offered := SellerTrades(directs, offers, newId);
      assert trades == BuyerTrades(listings, orders) + offered;
      assert book == InsertedBook(listings, directs);
      UpdatesGiveFinalBook(listings, directs, orders, trades, offered);
      hide *;
      var fits := UpdateBook();
      if !fits {
        book, trades, commissions := [], [], before;
        return NumericOverflow;
      }
      return Migrated;
    }
  }

  // ---------- conservation ----------

  /** Per ask: what remains and what live trades hold add up to what was listed. */
  lemma AskConserves(listings: seq<Listing>, directs: seq<DirectOrder>, orders: seq<LegacyOrder>,
                     offers: seq<Offer>, newId: nat -> Id, i: nat)
    requires DistinctListings(listings) && AllListed(listings, orders) && AllRequested(directs, offers) && KnownBuyers(directs)
    requires i < |listings|
    ensures var ask := FinalBook(listings, directs, orders)[i];
            var trades := BuyerTrades(listings, orders) + SellerTrades(directs, offers, newId);
            ask.remaining + LiveVolume(trades, ask.id) == ask.quantity == listings[i].quantity
  {
    TradesAddUp(listings, orders, SellerTrades(directs, offers, newId), listings[i]);
  }

  function TotalRemaining(book: seq<BookOrder>): Cents {
    if book == [] then 0
    else TotalRemaining(book[..|book| - 1]) + if book[|book| - 1].side.Ask? then book[|book| - 1].remaining else 0
  }

  function TotalListed(listings: seq<Listing>): Cents {
    if listings == [] then 0 else TotalListed(listings[..|listings| - 1]) + listings[|listings| - 1].quantity
  }

  /** All live trades that hit an ask. */
  function TotalLive(trades: seq<Trade>): Cents {
    if trades == [] then 0
    else
      var t := trades[|trades| - 1];
      TotalLive(trades[..|trades| - 1])
      + if t.ask.Some? && t.status != M.TradeCancelled && t.status != M.TradeDeclined then t.quantity else 0
  }

  function TotalSold(listings: seq<Listing>, orders: seq<LegacyOrder>): Cents {
    if listings == [] then 0
    else TotalSold(listings[..|listings| - 1], orders) + Sold(listings[|listings| - 1], orders)
  }

  lemma {:induction false} AsksTotal(listings: seq<Listing>, orders: seq<LegacyOrder>)
    ensures TotalRemaining(FinalBook(listings, [], orders)) == TotalListed(listings) - TotalSold(listings, orders)
  {
    if listings == [] {
      assert FinalBook(listings, [], orders) == [];
    } else {
      var book := FinalBook(listings, [], orders);
      assert book[..|book| - 1] == FinalBook(listings[..|listings| - 1], [], orders);
      AsksTotal(listings[..|listings| - 1], orders);
    }
  }

  lemma {:induction false} BidsAddNothing(listings: seq<Listing>, directs: seq<DirectOrder>, orders: seq<LegacyOrder>)
    requires KnownBuyers(directs)
    ensures TotalRemaining(FinalBook(listings, directs, orders)) == TotalRemaining(FinalBook(listings, [], orders))
    decreases |directs|
  {
    if directs != [] {
      var book := FinalBook(listings, directs, orders);
      assert book[|book| - 1] == BidOf(directs[|directs| - 1]);
      assert book[..|book| - 1] == FinalBook(listings, directs[..|directs| - 1], orders);
      BidsAddNothing(listings, directs[..|directs| - 1], orders);
    }
  }

  lemma {:induction false} OffersAddNothing(trades: seq<Trade>, offered: seq<Trade>)
    requires forall i | 0 <= i < |offered| :: offered[i].ask.None?
    ensures TotalLive(trades + offered) == TotalLive(trades)
    decreases |offered|
  {
    if offered == [] {
      assert trades + offered == trades;
    } else {
      assert (trades + offered)[..|trades + offered| - 1] == trades + offered[..|offered| - 1];
      OffersAddNothing(trades, offered[..|offered| - 1]);
    }
  }

  /** One more order is sold by its own listing once and by no other. */
  lemma {:induction false} OneListingSells(listings: seq<Listing>, orders: seq<LegacyOrder>, o: LegacyOrder)
    requires DistinctListings(listings)
    ensures TotalSold(listings, orders + [o]) == TotalSold(listings, orders)
            + if Listed(listings, o.listing) && Live(o.status) then Amount(o, FindListing(listings, o.listing)) else 0
    decreases |listings|
  {
    assert (orders + [o])[..|orders|] == orders;
    if listings != [] {
      var before, last := listings[..|listings| - 1], listings[|listings| - 1];
      assert DistinctListings(before);
      OneListingSells(before, orders, o);
      if last.id == o.listing {
        assert Listed(listings, o.listing);
        assert !Listed(before, o.listing);
      } else {
        assert Listed(listings, o.listing) <==> Listed(before, o.listing);
      }
    }
  }

  lemma {:induction false} LiveIsSold(listings: seq<Listing>, orders: seq<LegacyOrder>)
    requires DistinctListings(listings) && AllListed(listings, orders)
    ensures TotalLive(BuyerTrades(listings, orders)) == TotalSold(listings, orders)
    decreases |orders|
  {
    var trades := BuyerTrades(listings, orders);
    if orders == [] {
      NothingSold(listings);
    } else {
      var before, o := orders[..|orders| - 1], orders[|orders| - 1];
      assert orders == before + [o];
      assert AllListed(listings, before) && Listed(listings, o.listing);
      assert trades[..|trades| - 1] == BuyerTrades(listings, before);
      LiveIsSold(listings, before);
      OneListingSells(listings, before, o);
    }
  }

  lemma NothingSold(listings: seq<Listing>)
    ensures TotalSold(listings, []) == 0
  {}

  /** Over the whole market: listed quantity is neither created nor lost. */
  lemma MarketConserves(listings: seq<Listing>, directs: seq<DirectOrder>, orders: seq<LegacyOrder>,
                        offers: seq<Offer>, newId: nat -> Id)
    requires DistinctListings(listings) && AllListed(listings, orders) && AllRequested(directs, offers)
    requires KnownBuyers(directs)
    ensures TotalRemaining(FinalBook(listings, directs, orders))
            + TotalLive(BuyerTrades(listings, orders) + SellerTrades(directs, offers, newId))
            == TotalListed(listings)
  {
    BidsAddNothing(listings, directs, orders);
    AsksTotal(listings, orders);
    OffersAddNothing(BuyerTrades(listings, orders), SellerTrades(directs, offers, newId));
    LiveIsSold(listings, orders);
  }

  // ---------- the order lifecycle constraint that came later ----------

  function Tonnes(c: Cents): Option<Numeric> { Lit(c as real / 100.0) }

  predicate LifecycleHolds(o: BookOrder) {
    MarketChecks.OrderLifecycle(Some(o.status), Tonnes(o.quantity), Tonnes(o.remaining)).Admitted()
  }

  lemma LifecycleInCents(o: BookOrder)
    ensures LifecycleHolds(o) <==>
              && o.remaining <= o.quantity
              && (|| (o.status == M.Open && o.remaining == o.quantity)
                  || (o.status == M.PartiallyFilled && 0 < o.remaining < o.quantity)
                  || (o.status == M.Filled && o.remaining == 0)
                  || o.status == M.OrderCancelled || o.status == M.OrderExpired)
  {
    var q, r := o.quantity as real / 100.0, o.remaining as real / 100.0;
    assert r <= q <==> o.remaining <= o.quantity;
    assert r == q <==> o.remaining == o.quantity;
    assert r == 0.0 <==> o.remaining == 0;
  }

  /** An ask meets ORDER_LIFECYCLE exactly when the standing orders do not give quantity back and an active
      listing was not overbooked. */
  lemma AskLifecycle(l: Listing, orders: seq<LegacyOrder>)
    ensures LifecycleHolds(FinalAsk(l, orders)) <==>
              0 <= Sold(l, orders) && (l.status.Active? ==> Sold(l, orders) <= l.quantity)
  {
    LifecycleInCents(FinalAsk(l, orders));
  }

  lemma {:induction false} SoldIsNatural(l: Listing, orders: seq<LegacyOrder>)
    requires 0 <= l.quantity
    requires forall i | 0 <= i < |orders| :: orders[i].requested.Some? ==> 0 <= orders[i].requested.value
    ensures 0 <= Sold(l, orders)
  {
    if orders != [] { SoldIsNatural(l, orders[..|orders| - 1]); }
  }

  /** With no negative quantity and no overbooked listing, every ask of the new book meets ORDER_LIFECYCLE. */
  lemma {:induction false} AsksMeetLifecycle(listings: seq<Listing>, directs: seq<DirectOrder>,
                                             orders: seq<LegacyOrder>, i: nat)
    requires i < |listings| && 0 <= listings[i].quantity && KnownBuyers(directs)
    requires forall k | 0 <= k < |orders| :: orders[k].requested.Some? ==> 0 <= orders[k].requested.value
    requires Sold(listings[i], orders) <= listings[i].quantity
    ensures LifecycleHolds(FinalBook(listings, directs, orders)[i])
  {
    SoldIsNatural(listings[i], orders);
    AskLifecycle(listings[i], orders);
  }

  /** A bid meets it exactly when it was never filled or had no quantity: filled bids keep a full remainder. */
  lemma BidLifecycle(d: DirectOrder)
    requires d.buyer.Some?
    ensures LifecycleHolds(BidOf(d)) <==> !(d.status.Confirmed? || d.status.Completed?) || d.quantity == 0
  {
    LifecycleInCents(BidOf(d));
  }

  /** A direct order becomes a bid of its buyer for the whole quantity: open while it was under way, filled once
      confirmed, else cancelled, at its final price or, without one, at zero. */
  lemma DirectOrderBecomesABid(listings: seq<Listing>, directs: seq<DirectOrder>, orders: seq<LegacyOrder>, i: nat)
    requires KnownBuyers(directs) && i < |directs|
    ensures var bid, d := FinalBook(listings, directs, orders)[|listings| + i], directs[i];
            && bid.side.Bid? && bid.id == d.id && Some(bid.organization) == d.buyer
            && bid.quantity == d.quantity == bid.remaining
            && (d.finalPrice.Some? ==> bid.price == d.finalPrice.value) && (d.finalPrice.None? ==> bid.price == 0)
            && (bid.status == M.Open <==> d.status in {Pending, Draft, Quoted, Negotiating})
            && (bid.status == M.Filled <==> d.status in {Confirmed, Completed})
            && (bid.status == M.OrderCancelled <==> d.status.Rejected? || d.status.OtherDirect?)
  {
    assert FinalBook(listings, directs, orders)[|listings| + i] == BidOf(directs[i]);
  }

  // ---------- links ----------

  /** Every trade is tied to one order of the new book, its owner sits on the right side of the trade. */
  lemma TradesLinkTheirOrders(listings: seq<Listing>, directs: seq<DirectOrder>, orders: seq<LegacyOrder>,
                              offers: seq<Offer>, newId: nat -> Id, t: Trade)
    requires AllListed(listings, orders) && AllRequested(directs, offers) && KnownBuyers(directs)
    requires t in BuyerTrades(listings, orders) + SellerTrades(directs, offers, newId)
    ensures exists o | o in FinalBook(listings, directs, orders) ::
              || (o.side.Ask? && t.ask == Some(o.id) && t.bid.None? && t.seller == o.organization
                  && t.initiatedBy == M.Buyer && t.price == o.price)
              || (o.side.Bid? && t.bid == Some(o.id) && t.ask.None? && t.buyer == o.organization
                  && t.initiatedBy == M.Seller && t.quantity == o.quantity && t.status == M.Confirmed)
  {
    var book := FinalBook(listings, directs, orders);
    if t in BuyerTrades(listings, orders) {
      var k :| 0 <= k < |orders| && BuyerTrades(listings, orders)[k] == t;
      var l := FindListing(listings, orders[k].listing);
      var i :| 0 <= i < |listings| && listings[i] == l;
      assert book[i] in book;
    } else {
      SellerTradesLink(directs, offers, newId, t);
      var i :| 0 <= i < |directs| && t.bid == Some(directs[i].id) && directs[i].buyer == Some(t.buyer)
               && t.quantity == directs[i].quantity && t.initiatedBy == M.Seller && t.status == M.Confirmed;
      assert book[|listings| + i] in book;
    }
  }

  lemma {:induction false} SellerTradesLink(directs: seq<DirectOrder>, offers: seq<Offer>, newId: nat -> Id, t: Trade)
    requires AllRequested(directs, offers) && KnownBuyers(directs) && t in SellerTrades(directs, offers, newId)
    ensures exists i | 0 <= i < |directs| ::
              t.bid == Some(directs[i].id) && directs[i].buyer == Some(t.buyer) && t.quantity == directs[i].quantity
              && t.initiatedBy == M.Seller && t.status == M.Confirmed
    decreases |offers|
  {
    var last := offers[|offers| - 1];
    var before := SellerTrades(directs, offers[..|offers| - 1], newId);
    if t in before {
      SellerTradesLink(directs, offers[..|offers| - 1], newId, t);
    } else {
      var d := FindDirect(directs, last.direct);
      var i :| 0 <= i < |directs| && directs[i] == d;
      assert t.bid == Some(directs[i].id);
    }
  }

  /** Every accepted offer becomes exactly one confirmed trade: as many as there are, in their order. */
  function Accepted(offers: seq<Offer>): seq<Offer> {
    if offers == [] then []
    else
      var last := offers[|offers| - 1];
      Accepted(offers[..|offers| - 1]) + if last.accepted == Some(true) then [last] else []
  }

  lemma {:induction false} OnlyAcceptedOffersTrade(directs: seq<DirectOrder>, offers: seq<Offer>, newId: nat -> Id)
    requires AllRequested(directs, offers) && KnownBuyers(directs)
    ensures var trades, accepted := SellerTrades(directs, offers, newId), Accepted(offers);
            && |trades| == |accepted|
            && forall i | 0 <= i < |trades| ::
                 trades[i].seller == accepted[i].supplier && trades[i].price == accepted[i].price
                 && trades[i].bid == Some(accepted[i].direct)
    decreases |offers|
  {
    if offers != [] { OnlyAcceptedOffersTrade(directs, offers[..|offers| - 1], newId); }
  }

  /** A commission of a legacy order is relinked to the trade that carries the same parties and fee. */
  lemma CommissionFollowsItsTrade(c: Commission, listings: seq<Listing>, orders: seq<LegacyOrder>,
                                  offered: seq<Trade>, k: nat)
    requires AllListed(listings, orders) && k < |orders| && c.matchId == orders[k].id
    ensures var trades := BuyerTrades(listings, orders) + offered;
            && Relinked(c, trades).tradeId == Some(trades[k].id)
            && trades[k].buyer == orders[k].buyer && trades[k].commission == orders[k].commission
            && trades[k].seller == FindListing(listings, orders[k].listing).supplier
  {
    var trades := BuyerTrades(listings, orders) + offered;
    assert trades[k] == BuyerTrade(orders[k], FindListing(listings, orders[k].listing));
    assert trades[k].id == c.matchId;
  }
}
