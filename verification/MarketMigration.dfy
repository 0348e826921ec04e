/** The market-integrity migration: the preflight, the backfills, and the theorem that
    nothing the preflight lets through can break a constraint added afterwards. */
module MarketMigration {
  import opened Sql
  import opened MarketSchema
  import opened MarketChecks

  /** A reviewed organization: whether its database, environment and JSON snapshot still match. */
  datatype Approval = Approval(databaseMatches: bool, environmentMatches: bool, snapshotCurrent: bool)

  datatype Legacy = Legacy(
    orgs: map<Id, Verification>, approvals: map<Id, Approval>,
    products: map<Id, Product>, points: map<Id, DeliveryPoint>,
    orders: map<Id, OrderCore>, trades: map<Id, TradeCore>, inventory: map<Id, Inventory>,
    rfqs: map<Id, RfqCore>, quotes: map<Id, Quote>,
    negotiations: map<Id, NegotiationCore>, rounds: map<Id, Option<Numeric>>)

  datatype Market = Market(
    orgs: map<Id, Org>, approvals: set<Id>,
    products: map<Id, Product>, points: map<Id, DeliveryPoint>,
    orders: map<Id, Order>, trades: map<Id, Trade>, inventory: map<Id, Inventory>,
    rfqs: map<Id, Rfq>, quotes: map<Id, Quote>,
    negotiations: map<Id, Negotiation>, rounds: map<Id, Option<Numeric>>)

  datatype Outcome = PreflightRejected | ApprovalDrift | ValueTooLong | ConstraintViolated | Completed(market: Market)

  // ---------- what the parent schema guarantees ----------

  predicate OrderOnGrid(o: OrderCore) {
    && OnGrid(o.quantity, CENTS) && OnGrid(o.remaining, CENTS) && OnGrid(o.price, CENTS)
    && OnGrid(o.carbon, CENTS) && OnGrid(o.energy, CENTS)
  }

  predicate TradeOnGrid(t: TradeCore) {
    && OnGrid(t.quantity, CENTS) && OnGrid(t.price, CENTS)
    && OnGrid(t.finalQuantity, CENTS) && OnGrid(t.finalPrice, CENTS) && OnGrid(t.finalTotal, CENTS)
    && OnGrid(t.commissionRate, MILLS) && OnGrid(t.commissionAmount, CENTS)
  }

  predicate InventoryOnGrid(i: Inventory) {
    && OnGrid(i.current, CENTS) && OnGrid(i.incoming, CENTS) && OnGrid(i.reserved, CENTS)
    && OnGrid(i.price, CENTS) && OnGrid(i.energy, CENTS) && OnGrid(i.carbon, CENTS)
  }

  predicate NumericColumnsOnGrid(db: Legacy) {
    && (forall id | id in db.orders :: OrderOnGrid(db.orders[id]))
    && (forall id | id in db.trades :: TradeOnGrid(db.trades[id]))
    && (forall id | id in db.inventory :: InventoryOnGrid(db.inventory[id]))
    && (forall id | id in db.rfqs :: OnGrid(db.rfqs[id].quantity, CENTS) && OnGrid(db.rfqs[id].target, CENTS))
    && (forall id | id in db.quotes :: OnGrid(db.quotes[id].price, CENTS))
    && (forall id | id in db.negotiations ::
          OnGrid(db.negotiations[id].quantity, CENTS) && OnGrid(db.negotiations[id].currentPrice, CENTS))
    && (forall id | id in db.rounds :: OnGrid(db.rounds[id], CENTS))
  }

  predicate Linked<V>(link: Option<Id>, table: map<Id, V>) { link.Some? ==> link.value in table }

  predicate ForeignKeys(db: Legacy) {
    && db.approvals.Keys <= db.orgs.Keys
    && (forall id | id in db.orders :: db.orders[id].org in db.orgs && db.orders[id].product in db.products
          && Linked(db.orders[id].point, db.points))
    && (forall id | id in db.trades :: db.trades[id].buyer in db.orgs && db.trades[id].seller in db.orgs
          && Linked(db.trades[id].bidOrder, db.orders) && Linked(db.trades[id].askOrder, db.orders))
    && (forall id | id in db.rfqs :: db.rfqs[id].buyer in db.orgs)
    && (forall id | id in db.quotes :: db.quotes[id].rfq in db.rfqs && db.quotes[id].seller in db.orgs)
    && (forall id | id in db.negotiations ::
          Linked(db.negotiations[id].bidOrder, db.orders) && Linked(db.negotiations[id].askOrder, db.orders))
  }

  predicate ParentSchema(db: Legacy) { NumericColumnsOnGrid(db) && ForeignKeys(db) }

  // ---------- preflight: the WHERE clause of each rejecting query ----------

  function OutOfRange(a: Option<Numeric>, minimum: real, maximum: real): Truth {
    Lt(a, Lit(minimum)).Or(Gt(a, Lit(maximum)))
  }

  function MissingOrOutOfRange(a: Option<Numeric>, minimum: real, maximum: real): Truth {
    Absent(a).Or(OutOfRange(a, minimum, maximum))
  }

  function MissingOrTooLong(window: Option<string>): Truth {
    Absent(window).Or(if window.None? then IsNull else Of(|window.value| > 16))
  }

  function OrderRejected(reg: Registry, o: OrderCore): Truth {
    Absent(o.side).Or(Among(o.side, {Bid, Ask}).Not())
    .Or(Absent(o.status)).Or(Among(o.status, ORDER_STATUSES).Not())
    .Or(MissingOrTooLong(o.window))
    .Or(MissingOrOutOfRange(o.quantity, 0.01, 100000.0))
    .Or(Absent(o.remaining)).Or(Lt(o.remaining, Lit(0.0)))
    .Or(Gt(o.remaining, o.quantity)).Or(Gt(o.remaining, Lit(100000.0)))
    .Or(MissingOrOutOfRange(o.price, 0.01, 1000000.0))
    .Or(OutOfRange(o.carbon, 0.0, 10000.0))
    .Or(OutOfRange(o.energy, 0.0, 10000.0))
    .Or(Of(o.org in reg.demo).And(Among(o.status, {Open, PartiallyFilled})).And(Absent(o.expiresAt)))
    .Or(OrderProgress(o.status, o.quantity, o.remaining).Not())
  }

  function TradeRejected(t: TradeCore): Truth {
    Of(t.buyer == t.seller)
    .Or(Absent(t.initiatedBy)).Or(Among(t.initiatedBy, {Buyer, Seller}).Not())
    .Or(Absent(t.status)).Or(Among(t.status, TRADE_STATUSES).Not())
    .Or(MissingOrOutOfRange(t.quantity, 0.01, 100000.0))
    .Or(MissingOrOutOfRange(t.price, 0.01, 1000000.0))
    .Or(MissingOrOutOfRange(t.commissionRate, 0.0, 100.0))
    .Or(Lt(t.finalQuantity, Lit(0.01))).Or(Gt(t.finalQuantity, t.quantity))
    .Or(Gt(t.finalQuantity, Lit(100000.0)))
    .Or(OutOfRange(t.finalPrice, 0.01, 1000000.0))
    .Or(OutOfRange(t.finalTotal, 0.0, 100000000000.0))
    .Or(OutOfRange(t.commissionAmount, 0.0, 100000000000.0))
    .Or(TradeStage(t).Not())
  }

  /** bid and ask disagree on product, delivery point or window (IS DISTINCT FROM is total) */
  predicate MismatchedSlices(bid: OrderCore, ask: OrderCore) {
    bid.product != ask.product || bid.point != ask.point || bid.window != ask.window
  }

  function InventoryRejected(i: Inventory): Truth {
    MissingOrOutOfRange(i.current, 0.0, 100000.0)
    .Or(MissingOrOutOfRange(i.incoming, 0.0, 100000.0))
    .Or(MissingOrOutOfRange(i.reserved, 0.0, 100000.0))
    .Or(Le(i.price, Lit(0.0))).Or(Gt(i.price, Lit(1000000.0)))
    .Or(OutOfRange(i.energy, 0.0, 10000.0))
    .Or(OutOfRange(i.carbon, 0.0, 10000.0))
  }

  function RfqRejected(r: RfqCore): Truth {
    Absent(r.status).Or(Among(r.status, RFQ_STATUSES).Not())
    .Or(Equals(r.status, RfqAccepted))
    .Or(MissingOrOutOfRange(r.quantity, 0.01, 100000.0))
    .Or(Le(r.target, Lit(0.0))).Or(Gt(r.target, Lit(1000000.0)))
    .Or(Of(|r.window| > 16))
  }

  function QuoteRejected(q: Quote, buyer: Id): Truth {
    Absent(q.status).Or(Among(q.status, QUOTE_STATUSES).Not())
    .Or(MissingOrOutOfRange(q.price, 0.01, 1000000.0))
    .Or(Of(q.seller == buyer))
  }

  function NegotiationRejected(n: NegotiationCore): Truth {
    Absent(n.status).Or(Among(n.status, NEGOTIATION_STATUSES).Not())
    .Or(Absent(n.initiatorSide)).Or(Among(n.initiatorSide, {Buyer, Seller}).Not())
    .Or(Of(n.initiator == n.counterparty))
    .Or(MissingOrOutOfRange(n.quantity, 0.01, 100000.0))
    .Or(MissingOrOutOfRange(n.currentPrice, 0.01, 1000000.0))
    .Or(Of(Equals(n.status, Agreed) != Present(n.trade)))
  }

  predicate SameActivePair(m: NegotiationCore, n: NegotiationCore) {
    && Among(m.status, {NegotiationOpen, Countered}).Selected()
    && Among(n.status, {NegotiationOpen, Countered}).Selected()
    && {m.initiator, m.counterparty} == {n.initiator, n.counterparty}
    && m.product == n.product
  }

  predicate OrdersPass(reg: Registry, db: Legacy) {
    forall id | id in db.orders :: !OrderRejected(reg, db.orders[id]).Selected()
  }

  predicate TradesPass(db: Legacy) {
    && (forall id | id in db.trades :: !TradeRejected(db.trades[id]).Selected())
    && (forall id | id in db.trades :: !LinksMismatch(db, db.trades[id]))
  }

  predicate InventoryPasses(db: Legacy) {
    forall id | id in db.inventory :: !InventoryRejected(db.inventory[id]).Selected()
  }

  predicate RfqsPass(db: Legacy) {
    && (forall id | id in db.rfqs :: !RfqRejected(db.rfqs[id]).Selected())
    && (forall id | id in db.quotes && db.quotes[id].rfq in db.rfqs ::
          !QuoteRejected(db.quotes[id], db.rfqs[db.quotes[id].rfq].buyer).Selected())
    && UniqueQuotes(db.quotes)
  }

  predicate NegotiationsPass(db: Legacy) {
    && (forall id | id in db.negotiations :: !NegotiationRejected(db.negotiations[id]).Selected())
    && (forall i, j | i in db.negotiations && j in db.negotiations && i != j ::
          !SameActivePair(db.negotiations[i], db.negotiations[j]))
    && (forall id | id in db.rounds :: !MissingOrOutOfRange(db.rounds[id], 0.01, 1000000.0).Selected())
  }

  predicate PreflightPasses(reg: Registry, db: Legacy) {
    OrdersPass(reg, db) && TradesPass(db) && InventoryPasses(db) && RfqsPass(db) && NegotiationsPass(db)
  }

  predicate LinksMismatch(db: Legacy, t: TradeCore) {
    && t.bidOrder.Some? && t.bidOrder.value in db.orders
    && t.askOrder.Some? && t.askOrder.value in db.orders
    && MismatchedSlices(db.orders[t.bidOrder.value], db.orders[t.askOrder.value])
  }

  predicate UniqueQuotes(quotes: map<Id, Quote>) {
    forall i, j | i in quotes && j in quotes && i != j ::
      quotes[i].rfq != quotes[j].rfq || quotes[i].seller != quotes[j].seller
  }

  predicate ApprovalsCurrent(reg: Registry, db: Legacy) {
    forall id | id in db.approvals :: id in db.orgs ==>
      && db.approvals[id].databaseMatches && db.approvals[id].environmentMatches
      && db.approvals[id].snapshotCurrent && id !in reg.demo + reg.test
  }

  // ---------- backfills ----------

  function Normalized(v: Verification): Verification { if v == VerifiedSpelling then Approved else v }

  function MigratedOrg(reg: Registry, db: Legacy, id: Id): Org
    requires id in db.orgs
  {
    var v := Normalized(db.orgs[id]);
    Org(v,
        if id in reg.test then Test
        else if id in reg.demo then Demo
        else if id in db.approvals && v == Approved then Real
        else Unknown)
  }

  function MigratedOrgs(reg: Registry, db: Legacy): map<Id, Org> {
    map id | id in db.orgs :: MigratedOrg(reg, db, id)
  }

  /** VARCHAR(16) of every window column the upgrade adds or narrows. */
  const WINDOW_WIDTH := 16

  function WithProvenance(orgs: map<Id, Org>, o: OrderCore): Order {
    Order(o.(window := ColumnValue(o.window, WINDOW_WIDTH)),
          if o.org in orgs then orgs[o.org].provenance else Unknown,
          NO_IDEMPOTENCY)
  }

  function AddTradeColumns(t: TradeCore): (r: Trade)
    ensures r.core == t
  {
    Trade(t, Unknown, Unknown, None, NO_SLICE, None, NO_IDEMPOTENCY, None, None)
  }

  function BackfillParties(orgs: map<Id, Org>, t: Trade): (r: Trade)
    ensures r.core == t.core
  {
    if t.core.buyer in orgs && t.core.seller in orgs then
      t.(buyerProvenance := orgs[t.core.buyer].provenance,
         sellerProvenance := orgs[t.core.seller].provenance,
         initiatorOrg := Some(if t.core.initiatedBy == Some(Buyer) then t.core.buyer else t.core.seller))
    else t
  }

  /** CASE over the product identities; NULL when no identity matches the row exactly */
  function ProductCase(id: Id, p: Product, identities: seq<ProductIdentity>): Option<string> {
    if identities == [] then None
    else if identities[0].id == id && identities[0].name == p.name
         && identities[0].fuelType == p.fuelType && identities[0].fuelGrade == p.fuelGrade
    then Some(identities[0].marketProduct)
    else ProductCase(id, p, identities[1..])
  }

  /** The slice of an order, with the labels its product and delivery point carry. */
  function SliceOf(reg: Registry, products: map<Id, Product>, points: map<Id, DeliveryPoint>, o: OrderCore): MarketSlice
    requires o.product in products
  {
    var p := products[o.product];
    var located := o.point.Some? && o.point.value in points;
    MarketSlice(Some(o.product), Some(p.name), Some(p.fuelType), Some(p.fuelGrade),
                ProductCase(o.product, p, reg.products),
                o.point,
                if located then Some(points[o.point.value].name) else None,
                if located then Some(points[o.point.value].region) else None,
                o.window)
  }

  function Coalesce<T>(a: Option<T>, b: Option<T>): Option<T> { if a.Some? then a else b }

  /** What the UPDATE reads for a trade from its ask, or else its bid. */
  function CopiedSlice(reg: Registry, db: Legacy, t: TradeCore): Option<MarketSlice> {
    var link := Coalesce(t.askOrder, t.bidOrder);
    if link.Some? && link.value in db.orders && db.orders[link.value].product in db.products then
      Some(SliceOf(reg, db.products, db.points, db.orders[link.value]))
    else None
  }

  /** The VARCHAR widths of the new trade columns; the enumerated market product always fits. */
  predicate LabelsFit(s: MarketSlice) {
    && FitsColumn(s.productName, 120) && FitsColumn(s.fuelType, 64) && FitsColumn(s.fuelGrade, 64)
    && FitsColumn(s.pointName, 120) && FitsColumn(s.pointRegion, 120) && FitsColumn(s.window, WINDOW_WIDTH)
  }

  function StoredSlice(s: MarketSlice): MarketSlice {
    s.(productName := ColumnValue(s.productName, 120),
       fuelType := ColumnValue(s.fuelType, 64), fuelGrade := ColumnValue(s.fuelGrade, 64),
       pointName := ColumnValue(s.pointName, 120), pointRegion := ColumnValue(s.pointRegion, 120),
       window := ColumnValue(s.window, WINDOW_WIDTH))
  }

  function BackfillSlice(reg: Registry, db: Legacy, t: Trade): Trade {
    var copied := CopiedSlice(reg, db, t.core);
    if copied.Some? then t.(slice := StoredSlice(copied.value)) else t
  }

  function ProductMatches(s: MarketSlice, p: ProductIdentity): Truth {
    Equals(s.product, p.id).And(Equals(s.productName, p.name)).And(Equals(s.fuelType, p.fuelType))
    .And(Equals(s.fuelGrade, p.fuelGrade)).And(Equals(s.marketProduct, p.marketProduct))
  }

  function AnyProduct(s: MarketSlice, identities: seq<ProductIdentity>): Truth {
    if identities == [] then IsFalse
    else ProductMatches(s, identities[0]).Or(AnyProduct(s, identities[1..]))
  }

  function PointMatches(s: MarketSlice, p: PointIdentity): Truth {
    Equals(s.point, p.id).And(Equals(s.pointName, p.name)).And(Equals(s.pointRegion, p.region))
  }

  function AnyPoint(s: MarketSlice, identities: seq<PointIdentity>): Truth {
    if identities == [] then IsFalse
    else PointMatches(s, identities[0]).Or(AnyPoint(s, identities[1..]))
  }

  function BackfillVersion(reg: Registry, t: Trade): (r: Trade)
    ensures r.slice == t.slice && r.core == t.core
  {
    if AnyProduct(t.slice, reg.products)
       .And(AnyPoint(t.slice, reg.points))
       .And(WindowCanonical(t.slice.window))
       .And(Of(t.buyerProvenance == t.sellerProvenance == Real || t.buyerProvenance == t.sellerProvenance == Demo))
       .Selected()
    then t.(snapshotVersion := Some(1)) else t
  }

  predicate NamesProduct(s: MarketSlice, p: ProductIdentity) {
    && s.product == Some(p.id) && s.productName == Some(p.name) && s.fuelType == Some(p.fuelType)
    && s.fuelGrade == Some(p.fuelGrade) && s.marketProduct == Some(p.marketProduct)
  }

  predicate NamesPoint(s: MarketSlice, p: PointIdentity) {
    s.point == Some(p.id) && s.pointName == Some(p.name) && s.pointRegion == Some(p.region)
  }

  /** The slice names a registered product and delivery point in a canonical window. */
  predicate Registered(reg: Registry, s: MarketSlice) {
    && (exists i | 0 <= i < |reg.products| :: NamesProduct(s, reg.products[i]))
    && (exists j | 0 <= j < |reg.points| :: NamesPoint(s, reg.points[j]))
    && s.window.Some? && CanonicalWindow(s.window.value)
  }

  /** What snapshot version 1 stands for. */
  predicate Certified(reg: Registry, t: Trade) {
    Registered(reg, t.slice) && t.buyerProvenance == t.sellerProvenance && t.buyerProvenance in {Real, Demo}
  }

  lemma {:induction false} SomeProductMatches(s: MarketSlice, identities: seq<ProductIdentity>)
    ensures AnyProduct(s, identities).Selected()
       <==> exists i | 0 <= i < |identities| :: NamesProduct(s, identities[i])
  {
    if identities != [] {
      var rest := identities[1..];
      SomeProductMatches(s, rest);
      if i :| 0 <= i < |rest| && NamesProduct(s, rest[i]) { assert NamesProduct(s, identities[i + 1]); }
      if i :| 0 < i < |identities| && NamesProduct(s, identities[i]) { assert NamesProduct(s, rest[i - 1]); }
    }
  }

  lemma {:induction false} SomePointMatches(s: MarketSlice, identities: seq<PointIdentity>)
    ensures AnyPoint(s, identities).Selected()
       <==> exists j | 0 <= j < |identities| :: NamesPoint(s, identities[j])
  {
    if identities != [] {
      var rest := identities[1..];
      SomePointMatches(s, rest);
      if j :| 0 <= j < |rest| && NamesPoint(s, rest[j]) { assert NamesPoint(s, identities[j + 1]); }
      if j :| 0 < j < |identities| && NamesPoint(s, identities[j]) { assert NamesPoint(s, rest[j - 1]); }
    }
  }

  /** Version 1 is written exactly where it is deserved. */
  lemma VersionIsExact(reg: Registry, t: Trade)
    ensures BackfillVersion(reg, t) == if Certified(reg, t) then t.(snapshotVersion := Some(1)) else t
  {
    SomeProductMatches(t.slice, reg.products);
    SomePointMatches(t.slice, reg.points);
    hide AnyProduct, AnyPoint, NamesProduct, NamesPoint, CanonicalWindow;
  }

  lemma {:induction false} ProductCaseFindsTheFirst(id: Id, p: Product, identities: seq<ProductIdentity>, i: nat)
    requires i < |identities|
    requires identities[i] == ProductIdentity(id, p.name, p.fuelType, p.fuelGrade, identities[i].marketProduct)
    requires forall k | 0 <= k < i ::
               identities[k] != ProductIdentity(id, p.name, p.fuelType, p.fuelGrade, identities[k].marketProduct)
    ensures ProductCase(id, p, identities) == Some(identities[i].marketProduct)
  {
    if i > 0 {
      assert identities[0] != ProductIdentity(id, p.name, p.fuelType, p.fuelGrade, identities[0].marketProduct);
      ProductCaseFindsTheFirst(id, p, identities[1..], i - 1);
    }
  }

  lemma {:induction false} ProductCaseIsListed(id: Id, p: Product, identities: seq<ProductIdentity>)
    ensures var code := ProductCase(id, p, identities);
            && (code.Some? <==> exists i | 0 <= i < |identities| ::
                  identities[i] == ProductIdentity(id, p.name, p.fuelType, p.fuelGrade, identities[i].marketProduct))
            && (code.Some? ==> ProductIdentity(id, p.name, p.fuelType, p.fuelGrade, code.value) in identities)
  {
    if identities != [] {
      var rest := identities[1..];
      ProductCaseIsListed(id, p, rest);
      if i :| 0 <= i < |rest| && rest[i] == ProductIdentity(id, p.name, p.fuelType, p.fuelGrade, rest[i].marketProduct) {
        assert identities[i + 1] == ProductIdentity(id, p.name, p.fuelType, p.fuelGrade, identities[i + 1].marketProduct);
      }
      if i :| 0 < i < |identities|
              && identities[i] == ProductIdentity(id, p.name, p.fuelType, p.fuelGrade, identities[i].marketProduct) {
        assert rest[i - 1] == identities[i];
      }
    }
  }

  function MigratedTrade(reg: Registry, db: Legacy, t: TradeCore): Trade {
    BackfillVersion(reg, BackfillSlice(reg, db, BackfillParties(MigratedOrgs(reg, db), AddTradeColumns(t))))
  }

  function MigratedNegotiation(db: Legacy, n: NegotiationCore): Negotiation {
    var link := Coalesce(n.askOrder, n.bidOrder);
    if link.Some? && link.value in db.orders && db.orders[link.value].window.Some? then
      Negotiation(n, db.orders[link.value].point, StoredIn(db.orders[link.value].window.value, WINDOW_WIDTH))
    else Negotiation(n, None, "SPOT")
  }

  function NarrowedRfq(r: RfqCore): Rfq { Rfq(r.(window := StoredIn(r.window, WINDOW_WIDTH)), None, None) }

  /** The tables that are rewritten row by row from the organizations and the orders. */
  function Assemble(db: Legacy, orgs: map<Id, Org>, trades: map<Id, Trade>): Market {
    Market(
      orgs, db.approvals.Keys, db.products, db.points,
      map id | id in db.orders :: WithProvenance(orgs, db.orders[id]),
      trades,
      db.inventory,
      map id | id in db.rfqs :: NarrowedRfq(db.rfqs[id]),
      db.quotes,
      map id | id in db.negotiations :: MigratedNegotiation(db, db.negotiations[id]),
      db.rounds)
  }

  function MigratedTrades(reg: Registry, db: Legacy): map<Id, Trade> {
    map id | id in db.trades :: MigratedTrade(reg, db, db.trades[id])
  }

  function MigratedMarket(reg: Registry, db: Legacy): Market {
    Assemble(db, MigratedOrgs(reg, db), MigratedTrades(reg, db))
  }

  lemma MigratedVersions(reg: Registry, db: Legacy)
    ensures forall id | id in db.trades ::
              var t := MigratedTrade(reg, db, db.trades[id]);
              t.snapshotVersion == if Certified(reg, t) then Some(1) else None
  {
    hide Registered, BackfillVersion;
    forall id | id in db.trades
      ensures var t := MigratedTrade(reg, db, db.trades[id]);
              t.snapshotVersion == if Certified(reg, t) then Some(1) else None
    {
      VersionIsExact(reg, BackfillSlice(reg, db, BackfillParties(MigratedOrgs(reg, db), AddTradeColumns(db.trades[id]))));
    }
  }

  predicate AllLabelsFit(reg: Registry, db: Legacy) {
    forall id | id in db.trades ::
      var copied := CopiedSlice(reg, db, db.trades[id]);
      copied.Some? ==> LabelsFit(copied.value)
  }

  predicate ProductLabelsFit(p: Product) {
    FitsVarchar(p.name, 120) && FitsVarchar(p.fuelType, 64) && FitsVarchar(p.fuelGrade, 64)
  }

  predicate PointLabelsFit(p: DeliveryPoint) { FitsVarchar(p.name, 120) && FitsVarchar(p.region, 120) }

  /** The window of an order and the labels of the catalog rows that it refers to. */
  predicate OrderLabelsFit(db: Legacy, o: OrderCore) {
    o.product in db.products ==>
      && ProductLabelsFit(db.products[o.product]) && FitsColumn(o.window, WINDOW_WIDTH)
      && (o.point.Some? && o.point.value in db.points ==> PointLabelsFit(db.points[o.point.value]))
  }

  /** What an operator can look up beforehand: for every order that a trade links, its ask if it has one, the
      labels can be stored in the new columns. */
  predicate CatalogLabelsFit(db: Legacy) {
    forall id | id in db.trades ::
      var link := Coalesce(db.trades[id].askOrder, db.trades[id].bidOrder);
      link.Some? && link.value in db.orders ==> OrderLabelsFit(db, db.orders[link.value])
  }

  /** What the UPDATE copies can be stored exactly when what the linked catalog rows hold can. */
  lemma LabelsFitIsACatalogFact(reg: Registry, db: Legacy)
    ensures AllLabelsFit(reg, db) <==> CatalogLabelsFit(db)
  {
    hide ProductCase, FitsVarchar;
    forall id | id in db.trades
      ensures var t := db.trades[id];
              var copied, link := CopiedSlice(reg, db, t), Coalesce(t.askOrder, t.bidOrder);
              (copied.Some? ==> LabelsFit(copied.value)) <==>
                (link.Some? && link.value in db.orders ==> OrderLabelsFit(db, db.orders[link.value]))
    {}
    hide CopiedSlice, LabelsFit, OrderLabelsFit;
  }

  /** Every window can be stored in the columns the upgrade narrows or adds. */
  predicate WindowsFit(db: Legacy) {
    && (forall id | id in db.orders :: FitsColumn(db.orders[id].window, WINDOW_WIDTH))
    && (forall id | id in db.rfqs :: FitsVarchar(db.rfqs[id].window, WINDOW_WIDTH))
  }

  /** Organizations: normalize the status, then REAL by approval, then DEMO and TEST by identity. */
  method BackfillOrgs(reg: Registry, db: Legacy) returns (orgs: map<Id, Org>)
    requires reg.demo !! reg.test
    ensures orgs == MigratedOrgs(reg, db)
  {
    orgs := map id | id in db.orgs :: Org(Normalized(db.orgs[id]), Unknown);
    orgs := map id | id in orgs ::
      if id in db.approvals && orgs[id].verification == Approved then orgs[id].(provenance := Real) else orgs[id];
    orgs := map id | id in orgs :: if id in reg.demo then orgs[id].(provenance := Demo) else orgs[id];
    orgs := map id | id in orgs :: if id in reg.test then orgs[id].(provenance := Test) else orgs[id];
  }

  /** Trades: three UPDATE statements over the whole table; the second one fails
      when a copied label is wider than its column. */
  method BackfillTrades(reg: Registry, db: Legacy, orgs: map<Id, Org>) returns (fits: bool, trades: map<Id, Trade>)
    requires orgs == MigratedOrgs(reg, db)
    ensures fits <==> CatalogLabelsFit(db)
    ensures fits ==> trades == MigratedTrades(reg, db)
    ensures fits ==> forall id | id in trades ::
              trades[id].snapshotVersion == if Certified(reg, trades[id]) then Some(1) else None
  {
    LabelsFitIsACatalogFact(reg, db);
    MigratedVersions(reg, db);
    hide Certified;
    hide CatalogLabelsFit, AllLabelsFit, BackfillParties, BackfillSlice, BackfillVersion, MigratedOrgs, AddTradeColumns;
    trades := map id | id in db.trades :: AddTradeColumns(db.trades[id]);
    trades := map id | id in trades :: BackfillParties(orgs, trades[id]);
    fits := AllLabelsFit(reg, db);
    trades := map id | id in trades :: BackfillSlice(reg, db, trades[id]);
    assert forall id | id in trades :: MigratedTrade(reg, db, db.trades[id]) == BackfillVersion(reg, trades[id]);
    hide MigratedTrade;
    trades := map id | id in trades :: BackfillVersion(reg, trades[id]);
  }
}
