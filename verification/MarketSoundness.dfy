/** The preflight is exact: it passes if and only if, after the backfills, every row satisfies
    every constraint the upgrade adds, although the preflight and the constraints
    test different columns and treat NULL and NaN differently. */
module MarketSoundness {
  import opened Sql
  import opened MarketSchema
  import opened MarketChecks
  import opened MarketMigration

  predicate OrgsHold(m: Market) {
    forall id | id in m.orgs :: ProvenanceDomain(m.orgs[id].provenance).Admitted()
  }

  predicate OrdersHold(m: Market) { forall id | id in m.orders :: OrderChecks(m.orders[id]) }

  predicate TradesHold(reg: Registry, m: Market) { forall id | id in m.trades :: TradeChecks(reg, m.trades[id]) }

  predicate InventoryHolds(m: Market) {
    forall id | id in m.inventory :: InventoryNumeric(m.inventory[id]).Admitted()
  }

  predicate RfqsHold(m: Market) {
    && (forall id | id in m.rfqs :: RfqChecks(m.rfqs[id]))
    && (forall id | id in m.quotes :: QuoteChecks(m.quotes[id]))
    && UniqueQuotes(m.quotes)
  }

  predicate NegotiationsHold(m: Market) {
    && (forall id | id in m.negotiations :: NegotiationChecks(m.negotiations[id].core))
    && (forall i, j | i in m.negotiations && j in m.negotiations && i != j ::
          !SameActivePair(m.negotiations[i].core, m.negotiations[j].core))
    && (forall id | id in m.rounds :: RoundChecks(m.rounds[id]))
  }

  /** The 18 CHECK constraints and the unique indexes. */
  predicate ConstraintsHold(reg: Registry, m: Market) {
    && OrgsHold(m) && OrdersHold(m) && TradesHold(reg, m) && InventoryHolds(m)
    && RfqsHold(m) && NegotiationsHold(m)
  }

  // ---------- one column ----------

  lemma RequiredColumn(a: Option<Numeric>, minimum: real, maximum: real, scale: Scale)
    requires OnGrid(a, scale)
    ensures RequiredNumeric(a, minimum, maximum, scale) == MissingOrOutOfRange(a, minimum, maximum).Not()
  {
    RequiredNumericIsExact(a, minimum, maximum, scale);
  }

  lemma OptionalColumn(a: Option<Numeric>, minimum: real, maximum: real, scale: Scale)
    requires OnGrid(a, scale)
    ensures OptionalNumeric(a, minimum, maximum, scale) == Of(!OutOfRange(a, minimum, maximum).Selected())
  {
    if a.Some? {
      RequiredColumn(a, minimum, maximum, scale);
    }
  }

  /** Inventory prices and RFQ targets are only required to be positive; it is the
      two-digit scale of the stored value that lifts the bound to one cent. */
  lemma PositivePriceIsAtLeastOneCent(a: Option<Numeric>)
    requires OnGrid(a, CENTS)
    ensures OptionalNumeric(a, 0.01, 1000000.0, CENTS)
         == Of(!Le(a, Lit(0.0)).Selected() && !Gt(a, Lit(1000000.0)).Selected())
  {
    OptionalNumericIsExact(a, 0.01, 1000000.0, CENTS);
    if a.Some? && a.value.Fin? && a.value.x > 0.0 {
      assert Scaled(a.value.x, CENTS).Floor >= 1;
    }
  }

  // ---------- one row ----------

  lemma OrderRow(reg: Registry, orgs: map<Id, Org>, o: OrderCore)
    requires o.org in orgs && orgs[o.org].provenance in PROVENANCES
    requires orgs[o.org].provenance == Demo <==> o.org in reg.demo
    requires OrderOnGrid(o)
    ensures !OrderRejected(reg, o).Selected()
       <==> OrderChecks(WithProvenance(orgs, o)) && o.window.Some? && |o.window.value| <= 16
  {
    RequiredColumn(o.quantity, 0.01, 100000.0, CENTS);
    RequiredColumn(o.remaining, 0.0, 100000.0, CENTS);
    RequiredColumn(o.price, 0.01, 1000000.0, CENTS);
    OptionalColumn(o.carbon, 0.0, 10000.0, CENTS);
    OptionalColumn(o.energy, 0.0, 10000.0, CENTS);
  }

  /** Version 1 is only ever written next to a complete canonical snapshot. */
  lemma BackfilledVersionIsASnapshot(reg: Registry, t: Trade)
    requires WellFormed(reg) && t.snapshotVersion.None?
    ensures TradeSnapshot(reg, BackfillVersion(reg, t)).IsTrue?
    ensures BackfillVersion(reg, t).snapshotVersion.Some? ==>
              t.buyerProvenance == t.sellerProvenance && t.buyerProvenance in {Real, Demo}
  {
    VersionIsExact(reg, t);
    hide AnyProduct, AnyPoint, CanonicalWindow;
  }

  predicate TradeEconomics(t: TradeCore) {
    && TradeNumeric(AddTradeColumns(t)).Admitted() && TradeLifecycle(t).Admitted()
    && t.buyer != t.seller && t.initiatedBy in {Some(Buyer), Some(Seller)}
    && t.status.Some? && t.status.value in TRADE_STATUSES
  }

  lemma TradeColumns(t: TradeCore)
    requires TradeOnGrid(t)
    ensures !TradeRejected(t).Selected() <==> TradeEconomics(t)
  {
    RequiredColumn(t.quantity, 0.01, 100000.0, CENTS);
    RequiredColumn(t.price, 0.01, 1000000.0, CENTS);
    RequiredColumn(t.commissionRate, 0.0, 100.0, MILLS);
    OptionalColumn(t.finalQuantity, 0.01, 100000.0, CENTS);
    OptionalColumn(t.finalPrice, 0.01, 1000000.0, CENTS);
    OptionalColumn(t.finalTotal, 0.0, 100000000000.0, CENTS);
    OptionalColumn(t.commissionAmount, 0.0, 100000000000.0, CENTS);
  }

  lemma OrgClassification(reg: Registry, db: Legacy, id: Id)
    requires WellFormed(reg) && ApprovalsCurrent(reg, db) && id in db.orgs
    ensures MigratedOrg(reg, db, id).verification
         == if db.orgs[id] == VerifiedSpelling then Approved else db.orgs[id]
    ensures MigratedOrg(reg, db, id).provenance in PROVENANCES
    ensures MigratedOrg(reg, db, id).provenance == Demo <==> id in reg.demo
    ensures MigratedOrg(reg, db, id).provenance == Test <==> id in reg.test
    ensures MigratedOrg(reg, db, id).provenance == Real <==>
              id in db.approvals && db.orgs[id] in {Approved, VerifiedSpelling}
  {
    assert id in db.approvals ==> id !in reg.demo + reg.test;
  }

  /** What the three trade backfills leave in the columns they add. */
  predicate Backfilled(reg: Registry, t: Trade) {
    && t.feePerMt.None? && t.plan.None? && t.idempotency == NO_IDEMPOTENCY
    && t.initiatorOrg == Some(if t.core.initiatedBy == Some(Buyer) then t.core.buyer else t.core.seller)
    && t.buyerProvenance in PROVENANCES && t.sellerProvenance in PROVENANCES
    && TradeSnapshot(reg, t).Admitted()
    && (t.snapshotVersion.Some? ==> TradablePair(reg, t))
  }

  lemma BackfilledTradeChecks(reg: Registry, t: Trade)
    requires Backfilled(reg, t)
    ensures TradeChecks(reg, t) <==> TradeEconomics(t.core)
  {
    hide TradeSnapshot, TradeLifecycle, TradablePair, RequiredNumeric, OptionalNumeric;
    OptionalNumericIsExact(None, 0.0, 100000.0, CENTS);
  }

  lemma MigratedTradeIsBackfilled(reg: Registry, db: Legacy, id: Id)
    requires WellFormed(reg) && ForeignKeys(db) && ApprovalsCurrent(reg, db) && id in db.trades
    ensures Backfilled(reg, MigratedTrade(reg, db, db.trades[id]))
  {
    hide TradeSnapshot;
    var core := db.trades[id];
    OrgClassification(reg, db, core.buyer);
    OrgClassification(reg, db, core.seller);
    var t := BackfillSlice(reg, db, BackfillParties(MigratedOrgs(reg, db), AddTradeColumns(core)));
    BackfilledVersionIsASnapshot(reg, t);
  }

  /** The order that a trade or a negotiation takes its slice from: its ask, or else its bid. */
  function SliceOrder(db: Legacy, askOrder: Option<Id>, bidOrder: Option<Id>): Option<OrderCore> {
    match (askOrder, bidOrder)
    case (Some(ask), _) => if ask in db.orders then Some(db.orders[ask]) else None
    case (None, Some(bid)) => if bid in db.orders then Some(db.orders[bid]) else None
    case (None, None) => None
  }

  /** Column by column, what a migrated trade shows of the catalog; the market product is that of the first
      registered identity with these labels. */
  lemma MigratedSlice(reg: Registry, db: Legacy, id: Id)
    requires ForeignKeys(db) && id in db.trades
    ensures var s := MigratedTrade(reg, db, db.trades[id]).slice;
            var source := SliceOrder(db, db.trades[id].askOrder, db.trades[id].bidOrder);
            if source.None? then s == NO_SLICE else
            var o, p := source.value, db.products[source.value.product];
            && s.product == Some(o.product) && s.productName == Some(StoredIn(p.name, 120))
            && s.fuelType == Some(StoredIn(p.fuelType, 64)) && s.fuelGrade == Some(StoredIn(p.fuelGrade, 64))
            && s.marketProduct == ProductCase(o.product, p, reg.products)
            && s.window == ColumnValue(o.window, 16) && s.point == o.point
            && (o.point.None? ==> s.pointName.None? && s.pointRegion.None?)
            && (o.point.Some? ==> s.pointName == Some(StoredIn(db.points[o.point.value].name, 120))
                                  && s.pointRegion == Some(StoredIn(db.points[o.point.value].region, 120)))
  {
    hide ProductCase, MigratedOrg, AnyProduct, AnyPoint;
  }

  /** Both parties reviewed and approved, or both registered demo identities. */
  predicate SettledParties(reg: Registry, db: Legacy, t: TradeCore) {
    || (forall id | id in {t.buyer, t.seller} ::
          id in db.approvals && id in db.orgs && db.orgs[id] in {Approved, VerifiedSpelling})
    || {t.buyer, t.seller} <= reg.demo
  }

  /** The catalog row is registered word for word. */
  predicate RegisteredRows(reg: Registry, db: Legacy, o: OrderCore)
    requires o.product in db.products && Linked(o.point, db.points)
  {
    var p := db.products[o.product];
    && (exists i | 0 <= i < |reg.products| :: reg.products[i]
          == ProductIdentity(o.product, p.name, p.fuelType, p.fuelGrade, reg.products[i].marketProduct))
    && o.point.Some?
    && (exists j | 0 <= j < |reg.points| :: reg.points[j]
          == PointIdentity(o.point.value, db.points[o.point.value].name, db.points[o.point.value].region))
  }

  /** The labels compiled into the registry are shorter than the columns they are compared with. */
  predicate ShortLabels(reg: Registry) {
    && (forall i | 0 <= i < |reg.products| ::
          |reg.products[i].name| < 120 && |reg.products[i].fuelType| < 64 && |reg.products[i].fuelGrade| < 64)
    && (forall j | 0 <= j < |reg.points| :: |reg.points[j].name| < 120 && |reg.points[j].region| < 120)
  }

  lemma SliceIsRegistered(reg: Registry, db: Legacy, o: OrderCore, s: MarketSlice)
    requires ShortLabels(reg) && o.product in db.products && Linked(o.point, db.points)
    requires s == StoredSlice(SliceOf(reg, db.products, db.points, o))
    ensures Registered(reg, s) <==> RegisteredRows(reg, db, o) && o.window.Some? && CanonicalWindow(o.window.value)
  {
    hide ProductCase;
    var p := db.products[o.product];
    ProductCaseIsListed(o.product, p, reg.products);
    var code := ProductCase(o.product, p, reg.products);
    if code.Some? {
      var i :| 0 <= i < |reg.products|
               && reg.products[i] == ProductIdentity(o.product, p.name, p.fuelType, p.fuelGrade, code.value);
      assert NamesProduct(s, reg.products[i]);
    }
  }

  lemma SettledPair(reg: Registry, db: Legacy, id: Id)
    requires WellFormed(reg) && ForeignKeys(db) && ApprovalsCurrent(reg, db) && id in db.trades
    ensures var t := MigratedTrade(reg, db, db.trades[id]);
            t.buyerProvenance == t.sellerProvenance && t.buyerProvenance in {Real, Demo}
            <==> SettledParties(reg, db, db.trades[id])
  {
    var t := db.trades[id];
    OrgClassification(reg, db, t.buyer);
    OrgClassification(reg, db, t.seller);
    hide MigratedOrg, CopiedSlice, StoredSlice, AnyProduct, AnyPoint, CanonicalWindow, WellFormed, ApprovalsCurrent;
  }

  lemma CopiesItsOrder(reg: Registry, db: Legacy, id: Id)
    requires ForeignKeys(db) && id in db.trades
    requires SliceOrder(db, db.trades[id].askOrder, db.trades[id].bidOrder).Some?
    ensures var o := SliceOrder(db, db.trades[id].askOrder, db.trades[id].bidOrder).value;
            && o.product in db.products && Linked(o.point, db.points)
            && MigratedTrade(reg, db, db.trades[id]).slice == StoredSlice(SliceOf(reg, db.products, db.points, o))
  {
    hide SliceOf, StoredSlice, AnyProduct, AnyPoint, CanonicalWindow, MigratedOrg;
  }

  /** In terms of the catalog before the upgrade: a trade becomes a versioned snapshot exactly when the order it
      takes its slice from has registered rows and a canonical window, between two approved or two demo parties. */
  lemma MigratedVersionIsDeserved(reg: Registry, db: Legacy, id: Id)
    requires WellFormed(reg) && ForeignKeys(db) && ApprovalsCurrent(reg, db) && id in db.trades
    requires ShortLabels(reg) && SliceOrder(db, db.trades[id].askOrder, db.trades[id].bidOrder).Some?
    ensures var t, o := db.trades[id], SliceOrder(db, db.trades[id].askOrder, db.trades[id].bidOrder).value;
            MigratedTrade(reg, db, t).snapshotVersion == Some(1) <==>
              && RegisteredRows(reg, db, o) && o.window.Some? && CanonicalWindow(o.window.value)
              && SettledParties(reg, db, t)
  {
    var t, o := db.trades[id], SliceOrder(db, db.trades[id].askOrder, db.trades[id].bidOrder).value;
    SettledPair(reg, db, id);
    CopiesItsOrder(reg, db, id);
    SliceIsRegistered(reg, db, o, MigratedTrade(reg, db, t).slice);
    hide *;
    MigratedVersions(reg, db);
  }

  lemma TradeRow(reg: Registry, db: Legacy, id: Id)
    requires WellFormed(reg) && ForeignKeys(db) && ApprovalsCurrent(reg, db)
    requires id in db.trades && TradeOnGrid(db.trades[id])
    ensures !TradeRejected(db.trades[id]).Selected() <==> TradeChecks(reg, MigratedTrade(reg, db, db.trades[id]))
  {
    hide TradeChecks, TradeEconomics, TradeRejected, Backfilled, TradeOnGrid;
    MigratedTradeIsBackfilled(reg, db, id);
    BackfilledTradeChecks(reg, MigratedTrade(reg, db, db.trades[id]));
    TradeColumns(db.trades[id]);
  }

  lemma InventoryRow(i: Inventory)
    requires InventoryOnGrid(i)
    ensures !InventoryRejected(i).Selected() <==> InventoryNumeric(i).Admitted()
  {
    RequiredColumn(i.current, 0.0, 100000.0, CENTS);
    RequiredColumn(i.incoming, 0.0, 100000.0, CENTS);
    RequiredColumn(i.reserved, 0.0, 100000.0, CENTS);
    PositivePriceIsAtLeastOneCent(i.price);
    OptionalColumn(i.energy, 0.0, 10000.0, CENTS);
    OptionalColumn(i.carbon, 0.0, 10000.0, CENTS);
  }

  lemma RfqRow(r: RfqCore)
    requires OnGrid(r.quantity, CENTS) && OnGrid(r.target, CENTS)
    ensures !RfqRejected(r).Selected() <==> RfqChecks(NarrowedRfq(r)) && |r.window| <= 16
  {
    RequiredColumn(r.quantity, 0.01, 100000.0, CENTS);
    PositivePriceIsAtLeastOneCent(r.target);
  }

  lemma QuoteRow(q: Quote, buyer: Id)
    requires OnGrid(q.price, CENTS)
    ensures !QuoteRejected(q, buyer).Selected() <==> QuoteChecks(q) && q.seller != buyer
  {
    RequiredColumn(q.price, 0.01, 1000000.0, CENTS);
  }

  lemma NegotiationRow(n: NegotiationCore)
    requires OnGrid(n.quantity, CENTS) && OnGrid(n.currentPrice, CENTS)
    ensures !NegotiationRejected(n).Selected() <==> NegotiationChecks(n)
  {
    RequiredColumn(n.quantity, 0.01, 100000.0, CENTS);
    RequiredColumn(n.currentPrice, 0.01, 1000000.0, CENTS);
  }

  /** A negotiation that links an order carries that order's delivery point and its whole window. */
  lemma NegotiationFollowsItsOrder(reg: Registry, db: Legacy, id: Id)
    requires ForeignKeys(db) && PreflightExtras(db) && id in db.negotiations
    ensures var n, was := MigratedMarket(reg, db).negotiations[id], db.negotiations[id];
            var source := SliceOrder(db, was.askOrder, was.bidOrder);
            && n.core == was
            && (source.Some? ==> n.point == source.value.point && Some(n.window) == source.value.window)
            && (source.None? ==> was.askOrder.None? && was.bidOrder.None? && n.point.None? && n.window == "SPOT")
  {
    hide MigratedTrade, MigratedOrg, LinksMismatch;
  }

  /** The unique index does not care which of the two organizations started the negotiation. */
  lemma ActivePairIsUnordered(m: NegotiationCore, n: NegotiationCore)
    ensures SameActivePair(m, n) <==>
              && m.status in {Some(NegotiationOpen), Some(Countered)}
              && n.status in {Some(NegotiationOpen), Some(Countered)}
              && m.product == n.product
              && (|| (m.initiator == n.initiator && m.counterparty == n.counterparty)
                  || (m.initiator == n.counterparty && m.counterparty == n.initiator))
  {
    if {m.initiator, m.counterparty} == {n.initiator, n.counterparty} {
      assert m.initiator in {n.initiator, n.counterparty} && m.counterparty in {n.initiator, n.counterparty};
      assert n.initiator in {m.initiator, m.counterparty} && n.counterparty in {m.initiator, m.counterparty};
    }
  }

  /** A trade is refused for its orders exactly when it links both and they differ in product, delivery point or
      window. */
  lemma LinkedOrdersAgree(db: Legacy, id: Id)
    requires ForeignKeys(db) && id in db.trades
    ensures LinksMismatch(db, db.trades[id]) <==>
              && db.trades[id].bidOrder.Some? && db.trades[id].askOrder.Some?
              && var bid, ask := db.orders[db.trades[id].bidOrder.value], db.orders[db.trades[id].askOrder.value];
                 (bid.product, bid.point, bid.window) != (ask.product, ask.point, ask.window)
  {}

  lemma RoundRow(price: Option<Numeric>)
    requires OnGrid(price, CENTS)
    ensures !MissingOrOutOfRange(price, 0.01, 1000000.0).Selected() <==> RoundChecks(price)
  {
    RequiredColumn(price, 0.01, 1000000.0, CENTS);
  }

  // ---------- the whole database ----------

  /** What the preflight protects besides the constraints: windows that are there and short enough to be stored
      whole, trades whose two orders describe one slice, and quotes that do not come from the buyer. */
  predicate PreflightExtras(db: Legacy) {
    && (forall id | id in db.orders :: db.orders[id].window.Some?) && WindowsShort(db)
    && (forall id | id in db.trades :: !LinksMismatch(db, db.trades[id]))
    && (forall id | id in db.quotes && db.quotes[id].rfq in db.rfqs ::
          db.quotes[id].seller != db.rfqs[db.quotes[id].rfq].buyer)
  }

  /** length(window) counts blanks, so this asks more than the columns do. */
  predicate WindowsShort(db: Legacy) {
    && (forall id | id in db.orders :: db.orders[id].window.Some? ==> |db.orders[id].window.value| <= WINDOW_WIDTH)
    && (forall id | id in db.rfqs :: |db.rfqs[id].window| <= WINDOW_WIDTH)
  }

  predicate WindowsWhole(db: Legacy, m: Market) {
    && (forall id | id in db.orders && id in m.orders :: m.orders[id].core.window == db.orders[id].window)
    && (forall id | id in db.rfqs && id in m.rfqs :: m.rfqs[id].core.window == db.rfqs[id].window)
  }

  /** The preflight's length test accepts exactly the windows that the narrowed columns store whole; a window
      whose excess is blanks could be stored too, cut, and is refused all the same. */
  lemma MigratedWindows(reg: Registry, db: Legacy)
    ensures WindowsShort(db) <==> WindowsFit(db) && WindowsWhole(db, MigratedMarket(reg, db))
  {
    hide MigratedTrade, MigratedOrgs;
    var m := MigratedMarket(reg, db);
    assert forall id | id in db.orders ::
        id in m.orders && m.orders[id].core.window == ColumnValue(db.orders[id].window, WINDOW_WIDTH);
    assert forall id | id in db.rfqs :: id in m.rfqs && m.rfqs[id].core.window == StoredIn(db.rfqs[id].window, WINDOW_WIDTH);
    hide MigratedMarket;
  }

  lemma OrdersTable(reg: Registry, db: Legacy)
    requires WellFormed(reg) && ParentSchema(db) && ApprovalsCurrent(reg, db)
    ensures OrdersPass(reg, db) <==>
              OrdersHold(MigratedMarket(reg, db)) && forall id | id in db.orders ::
                db.orders[id].window.Some? && |db.orders[id].window.value| <= 16
  {
    hide OrderRejected, OrderChecks, OrderOnGrid, WithProvenance, MigratedTrade;
    var m := MigratedMarket(reg, db);
    forall id | id in db.orders
      ensures var w := db.orders[id].window;
              !OrderRejected(reg, db.orders[id]).Selected() <==> OrderChecks(m.orders[id]) && w.Some? && |w.value| <= 16
    {
      OrgClassification(reg, db, db.orders[id].org);
      OrderRow(reg, m.orgs, db.orders[id]);
    }
  }

  lemma RfqTables(reg: Registry, db: Legacy)
    requires ParentSchema(db)
    ensures RfqsPass(db) <==>
              && RfqsHold(MigratedMarket(reg, db))
              && (forall id | id in db.rfqs :: |db.rfqs[id].window| <= 16)
              && (forall id | id in db.quotes :: db.quotes[id].seller != db.rfqs[db.quotes[id].rfq].buyer)
  {
    hide RfqRejected, QuoteRejected, RfqChecks, QuoteChecks, OnGrid, UniqueQuotes, MigratedTrade;
    var m := MigratedMarket(reg, db);
    forall id | id in db.rfqs
      ensures !RfqRejected(db.rfqs[id]).Selected() <==> RfqChecks(m.rfqs[id]) && |db.rfqs[id].window| <= 16
    {
      RfqRow(db.rfqs[id]);
    }
    forall id | id in db.quotes
      ensures var buyer := db.rfqs[db.quotes[id].rfq].buyer;
              !QuoteRejected(db.quotes[id], buyer).Selected() <==>
                QuoteChecks(m.quotes[id]) && db.quotes[id].seller != buyer
    {
      QuoteRow(db.quotes[id], db.rfqs[db.quotes[id].rfq].buyer);
    }
  }

  lemma NegotiationTables(reg: Registry, db: Legacy)
    requires ParentSchema(db)
    ensures NegotiationsPass(db) <==> NegotiationsHold(MigratedMarket(reg, db))
  {
    hide NegotiationRejected, NegotiationChecks, RoundChecks, OnGrid, MissingOrOutOfRange, SameActivePair, MigratedTrade;
    var m := MigratedMarket(reg, db);
    assert forall id | id in db.negotiations :: m.negotiations[id].core == db.negotiations[id];
    forall id | id in db.negotiations
      ensures !NegotiationRejected(db.negotiations[id]).Selected() <==> NegotiationChecks(m.negotiations[id].core)
    {
      NegotiationRow(db.negotiations[id]);
    }
    forall id | id in db.rounds
      ensures !MissingOrOutOfRange(db.rounds[id], 0.01, 1000000.0).Selected() <==> RoundChecks(m.rounds[id])
    {
      RoundRow(db.rounds[id]);
    }
  }

  lemma TradeAndInventoryTables(reg: Registry, db: Legacy)
    requires WellFormed(reg) && ParentSchema(db) && ApprovalsCurrent(reg, db)
    ensures TradesPass(db) <==>
              TradesHold(reg, MigratedMarket(reg, db)) && forall id | id in db.trades :: !LinksMismatch(db, db.trades[id])
    ensures InventoryPasses(db) <==> InventoryHolds(MigratedMarket(reg, db))
  {
    hide TradeRejected, TradeChecks, TradeOnGrid, LinksMismatch, MigratedTrade,
         InventoryRejected, InventoryNumeric, InventoryOnGrid;
    var m := MigratedMarket(reg, db);
    forall id | id in db.trades
      ensures !TradeRejected(db.trades[id]).Selected() <==> TradeChecks(reg, m.trades[id])
    {
      TradeRow(reg, db, id);
    }
    forall id | id in db.inventory
      ensures !InventoryRejected(db.inventory[id]).Selected() <==> InventoryNumeric(m.inventory[id]).Admitted()
    {
      InventoryRow(db.inventory[id]);
    }
  }

  /** Main result: the preflight passes exactly on the databases whose migrated rows satisfy
      every constraint the upgrade then adds (and the extra facts it protects). */
  lemma PreflightIsExact(reg: Registry, db: Legacy)
    requires WellFormed(reg) && ParentSchema(db) && ApprovalsCurrent(reg, db)
    ensures PreflightPasses(reg, db) <==> ConstraintsHold(reg, MigratedMarket(reg, db)) && PreflightExtras(db)
  {
    hide OrdersPass, TradesPass, InventoryPasses, RfqsPass, NegotiationsPass, OrdersHold, TradesHold,
         InventoryHolds, RfqsHold, NegotiationsHold, LinksMismatch, MigratedTrade;
    OrdersTable(reg, db);
    TradeAndInventoryTables(reg, db);
    RfqTables(reg, db);
    NegotiationTables(reg, db);
    forall id | id in db.orgs
      ensures ProvenanceDomain(MigratedOrg(reg, db, id).provenance).Admitted()
    {
      OrgClassification(reg, db, id);
    }
  }

  const ONE_ORDER := OrderCore(1, Some(Ask), Some(Open), 1, Some(1), Some("SPOT"), None, Lit(1.0), Lit(1.0), Lit(1.0),
                               None, None, None)
  const ONE_TRADE := TradeCore(None, Some(1), 1, 2, Some(Buyer), Some(TradeCancelled), Lit(1.0), Lit(1.0),
                               None, None, None, Lit(0.0), None, None, None, None)

  /** One approved seller's order for this product at this delivery point, and one cancelled trade on it. */
  function OneTrade(p: Product, dp: DeliveryPoint): Legacy {
    Legacy(map[1 := Approved, 2 := Approved], map[], map[1 := p], map[1 := dp],
           map[1 := ONE_ORDER], map[1 := ONE_TRADE], map[], map[], map[], map[], map[])
  }

  lemma OneTradeFitsSchema(p: Product, dp: DeliveryPoint)
    requires OrderOnGrid(ONE_ORDER) && TradeOnGrid(ONE_TRADE)
    ensures ParentSchema(OneTrade(p, dp))
  {
    var db := OneTrade(p, dp);
    hide OrderOnGrid, TradeOnGrid, InventoryOnGrid, OnGrid;
    assert ForeignKeys(db);
    assert NumericColumnsOnGrid(db);
    hide ForeignKeys, NumericColumnsOnGrid;
  }

  lemma OneTradePassesQueries(reg: Registry, p: Product, dp: DeliveryPoint)
    requires !OrderRejected(reg, ONE_ORDER).Selected() && !TradeRejected(ONE_TRADE).Selected()
    ensures OrdersPass(reg, OneTrade(p, dp)) && TradesPass(OneTrade(p, dp))
  {
    hide OrderRejected, TradeRejected, MismatchedSlices;
  }

  lemma OneTradePasses(reg: Registry, p: Product, dp: DeliveryPoint)
    requires 1 !in reg.demo
    ensures ParentSchema(OneTrade(p, dp)) && PreflightPasses(reg, OneTrade(p, dp)) && ApprovalsCurrent(reg, OneTrade(p, dp))
  {
    OneTradeRows(reg);
    hide ParentSchema, OrderRejected, TradeRejected, OrderOnGrid, TradeOnGrid, OrdersPass, TradesPass,
         InventoryRejected, RfqRejected, QuoteRejected, NegotiationRejected, SameActivePair;
    OneTradeFitsSchema(p, dp);
    OneTradePassesQueries(reg, p, dp);
  }

  lemma OneTradeRows(reg: Registry)
    requires 1 !in reg.demo
    ensures OrderOnGrid(ONE_ORDER) && TradeOnGrid(ONE_TRADE)
    ensures !OrderRejected(reg, ONE_ORDER).Selected() && !TradeRejected(ONE_TRADE).Selected()
  {
    assert Whole(Scaled(1.0, CENTS)) && Whole(Scaled(0.0, MILLS));
  }

  /** What the preflight does not look at: the catalog does not bound its labels, the new trade columns do.
      Whatever label is too long, of a product or of a delivery point, some market passes the preflight and
      still cannot be upgraded. */
  lemma LongLabelPassesPreflight(reg: Registry, p: Product, dp: DeliveryPoint)
    requires 1 !in reg.demo
    requires !ProductLabelsFit(p) || !PointLabelsFit(dp)
    ensures exists db :: ParentSchema(db) && PreflightPasses(reg, db) && ApprovalsCurrent(reg, db)
                         && db.products == map[1 := p] && db.points == map[1 := dp] && !CatalogLabelsFit(db)
  {
    var db := OneTrade(p, dp);
    OneTradePasses(reg, p, dp);
    assert db.products == map[1 := p] && db.points == map[1 := dp];
    assert !OrderLabelsFit(db, ONE_ORDER);
    assert 1 in db.trades && Coalesce(db.trades[1].askOrder, db.trades[1].bidOrder) == Some(1);
    assert !CatalogLabelsFit(db);
    hide ParentSchema, PreflightPasses, ApprovalsCurrent, CatalogLabelsFit, OneTrade;
  }
}
