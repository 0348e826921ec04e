/** The live market database: every INSERT, UPDATE and DELETE passes the row triggers,
    the CHECK constraints and the foreign keys, or leaves the database unchanged.
    Transactions are serial and ids are immutable keys. */
module MarketGuards {
  import opened Sql
  import opened MarketSchema
  import opened MarketChecks
  import M = MarketMigration

  datatype Db = Db(
    orgs: map<Id, Org>, approvals: set<Id>,
    products: map<Id, Product>, points: map<Id, DeliveryPoint>,
    orders: map<Id, Order>, trades: map<Id, Trade>, rfqs: map<Id, Rfq>, quotes: map<Id, Quote>)

  datatype Op =
    | InsertOrg(id: Id, org: Org)
    | UpdateOrg(id: Id, org: Org)
    | DeleteOrg(id: Id)
    | RecordApproval(id: Id)
    | PutProduct(id: Id, product: Product)
    | PutPoint(id: Id, point: DeliveryPoint)
    | InsertOrder(id: Id, order: Order)
    | UpdateOrder(id: Id, order: Order, touchesGuarded: bool)  // whether SET names a guarded column
    | DeleteOrder(id: Id)
    | InsertTrade(id: Id, trade: Trade)
    | UpdateTrade(id: Id, trade: Trade)
    | DeleteTrade(id: Id)
    | InsertRfq(id: Id, rfq: Rfq)
    | UpdateRfq(id: Id, rfq: Rfq)
    | DeleteRfq(id: Id)
    | InsertQuote(id: Id, quote: Quote)
    | UpdateQuote(id: Id, quote: Quote)
    | DeleteQuote(id: Id)

  // ---------- trigger bodies ----------

  predicate OrgInsertAllowed(reg: Registry, id: Id, org: Org) {
    && (org.provenance == Demo ==> id in reg.demo)
    && (org.provenance == Test ==> id in reg.test)
    && org.provenance != Canary
  }

  predicate Resolved(o: Order) { o.core.status in {Some(OrderCancelled), Some(OrderExpired)} }

  /** An order that still blocks the automatic classification of its organization. */
  predicate BlocksApproval(db: Db, org: Id) {
    exists o | o in db.orders ::
      db.orders[o].core.org == org && db.orders[o].provenance == Unknown
      && db.orders[o].core.status.Some? && !Resolved(db.orders[o])
  }

  /** The row the organization trigger lets through, or None when it raises. */
  function OrgUpdate(reg: Registry, db: Db, id: Id, was: Org, now: Org): Option<Org> {
    if was.provenance != now.provenance
       && !(was.provenance == Unknown && now.provenance == Real && now.verification == Approved && id in db.approvals)
    then None
    else if was.verification != now.verification && now.verification == Approved
            && now.provenance == Unknown && id !in reg.demo + reg.test
    then if BlocksApproval(db, id) then None else Some(now.(provenance := Real))
    else Some(now)
  }

  predicate SameGuardedColumns(a: Order, b: Order) {
    && a.core.org == b.core.org && a.provenance == b.provenance && a.core.side == b.core.side
    && a.core.product == b.core.product && a.core.point == b.core.point
    && a.core.window == b.core.window && a.core.inventory == b.core.inventory
  }

  predicate OrderMatchesOwner(db: Db, o: Order) {
    o.core.org in db.orgs && o.provenance == db.orgs[o.core.org].provenance
  }

  predicate CanonicalPoint(id: Id, p: DeliveryPoint, identities: seq<PointIdentity>) {
    PointIdentity(id, p.name, p.region) in identities
  }

  predicate TradeInsertAllowed(reg: Registry, db: Db, t: Trade) {
    && t.core.buyer in db.orgs && t.buyerProvenance == db.orgs[t.core.buyer].provenance
    && t.core.seller in db.orgs && t.sellerProvenance == db.orgs[t.core.seller].provenance
    && t.snapshotVersion == Some(1)
    && t.slice.product.Some? && t.slice.product.value in db.products
    && (var p := db.products[t.slice.product.value];
        var code := M.ProductCase(t.slice.product.value, p, reg.products);
        && p.active == Some(true) && code.Some?
        && t.slice.productName == Some(p.name) && t.slice.fuelType == Some(p.fuelType)
        && t.slice.fuelGrade == Some(p.fuelGrade) && t.slice.marketProduct == code)
    && t.slice.point.Some? && t.slice.point.value in db.points
    && (var p := db.points[t.slice.point.value];
        && p.active == Some(true) && CanonicalPoint(t.slice.point.value, p, reg.points)
        && t.slice.pointName == Some(p.name) && t.slice.pointRegion == Some(p.region))
    && t.slice.window.Some? && CanonicalWindow(t.slice.window.value)
    && TradablePair(reg, t)
  }

  /** Parties, links, provenance and snapshot never change; once a fee is recorded,
      neither do the fee, the plan and the rate. */
  predicate Frozen(was: Trade, now: Trade) {
    && was.core.bidOrder == now.core.bidOrder && was.core.askOrder == now.core.askOrder
    && was.core.buyer == now.core.buyer && was.core.seller == now.core.seller
    && was.initiatorOrg == now.initiatorOrg
    && was.buyerProvenance == now.buyerProvenance && was.sellerProvenance == now.sellerProvenance
    && was.slice == now.slice && was.snapshotVersion == now.snapshotVersion
    && was.feePerMt == now.feePerMt && was.plan == now.plan
    && (was.feePerMt.Some? ==> was.core.commissionRate == now.core.commissionRate)
  }

  predicate QuoteAllowed(db: Db, q: Quote) {
    q.rfq in db.rfqs && q.seller != db.rfqs[q.rfq].core.buyer
  }

  predicate AcceptedSomewhere(db: Db, quote: Id) {
    exists r | r in db.rfqs ::
      db.rfqs[r].acceptedQuote == Some(quote) && db.rfqs[r].core.status == Some(RfqAccepted)
  }

  predicate QuoteUpdateAllowed(db: Db, id: Id, was: Quote, now: Quote) {
    && QuoteAllowed(db, now)
    && (AcceptedSomewhere(db, id) ==>
          now.rfq == was.rfq && now.seller == was.seller && now.price == was.price
          && now.status == Some(QuoteAccepted))
  }

  /** The RFQ trigger: an ACCEPTED row must agree with its quote and its trade.
      A NULL quantity makes the comparison unknown, which an IF does not act on. */
  predicate RfqAllowed(db: Db, id: Id, r: Rfq) {
    r.core.status == Some(RfqAccepted) ==>
      && r.acceptedQuote.Some? && r.acceptedQuote.value in db.quotes
      && r.trade.Some? && r.trade.value in db.trades
      && var q := db.quotes[r.acceptedQuote.value];
         var t := db.trades[r.trade.value];
         && AcceptanceConsistent(id, r, q, t)
         && !Gt(t.core.quantity, r.core.quantity).Selected()
         && t.core.price == q.price
  }

  predicate AcceptanceConsistent(id: Id, r: Rfq, q: Quote, t: Trade) {
    && q.rfq == id && q.status == Some(QuoteAccepted)
    && t.core.buyer == r.core.buyer && t.core.seller == q.seller
    && t.slice.product == Some(r.core.product) && t.slice.point == r.core.point
    && t.slice.window == Some(r.core.window)
  }

  // ---------- constraints on one row ----------

  predicate OrderRowOk(db: Db, o: Order) {
    OrderChecks(o) && o.core.org in db.orgs && o.core.window.Some?
  }

  predicate TradeRowOk(reg: Registry, db: Db, t: Trade) {
    && TradeChecks(reg, t)
    && t.core.buyer in db.orgs && t.core.seller in db.orgs
    && M.Linked(t.initiatorOrg, db.orgs)
    && M.Linked(t.core.bidOrder, db.orders) && M.Linked(t.core.askOrder, db.orders)
  }

  predicate RfqRowOk(db: Db, r: Rfq) {
    && RfqChecks(r) && r.core.buyer in db.orgs
    && M.Linked(r.acceptedQuote, db.quotes) && M.Linked(r.trade, db.trades)
  }

  predicate QuoteRowOk(db: Db, q: Quote) {
    QuoteChecks(q) && q.rfq in db.rfqs && q.seller in db.orgs
  }

  // ---------- references that block a DELETE ----------

  predicate OrgReferenced(db: Db, id: Id) {
    || id in db.approvals
    || (exists o | o in db.orders :: db.orders[o].core.org == id)
    || (exists t | t in db.trades ::
          id in {db.trades[t].core.buyer, db.trades[t].core.seller} || db.trades[t].initiatorOrg == Some(id))
    || (exists r | r in db.rfqs :: db.rfqs[r].core.buyer == id)
    || (exists q | q in db.quotes :: db.quotes[q].seller == id)
  }

  predicate OrderReferenced(db: Db, id: Id) {
    exists t | t in db.trades :: db.trades[t].core.bidOrder == Some(id) || db.trades[t].core.askOrder == Some(id)
  }

  predicate TradeReferenced(db: Db, id: Id) { exists r | r in db.rfqs :: db.rfqs[r].trade == Some(id) }

  predicate RfqReferenced(db: Db, id: Id) { exists q | q in db.quotes :: db.quotes[q].rfq == id }

  predicate QuoteReferenced(db: Db, id: Id) { exists r | r in db.rfqs :: db.rfqs[r].acceptedQuote == Some(id) }

  /** uq_rfq_quotes_rfq_seller against every other row */
  predicate QuoteIsNew(db: Db, id: Id, q: Quote) {
    forall k | k in db.quotes && k != id :: db.quotes[k].rfq != q.rfq || db.quotes[k].seller != q.seller
  }

  // ---------- one statement ----------

  function ApplyOrg(reg: Registry, db: Db, op: Op): Option<Db>
    requires op.InsertOrg? || op.UpdateOrg? || op.DeleteOrg?
  {
    match op
    case InsertOrg(id, org) =>
      if id !in db.orgs && OrgInsertAllowed(reg, id, org) && ProvenanceDomain(org.provenance).Admitted()
      then Some(db.(orgs := db.orgs[id := org])) else None
    case UpdateOrg(id, org) =>
      if id !in db.orgs then None else
      var result := OrgUpdate(reg, db, id, db.orgs[id], org);
      if result.Some? && ProvenanceDomain(result.value.provenance).Admitted()
      then Some(db.(orgs := db.orgs[id := result.value])) else None
    case DeleteOrg(id) =>
      if id in db.orgs && !OrgReferenced(db, id) then Some(db.(orgs := db.orgs - {id})) else None
  }

  function ApplyOrder(db: Db, op: Op): Option<Db>
    requires op.InsertOrder? || op.UpdateOrder? || op.DeleteOrder?
  {
    match op
    case InsertOrder(id, o) =>
      if id !in db.orders && OrderMatchesOwner(db, o) && OrderRowOk(db, o)
      then Some(db.(orders := db.orders[id := o])) else None
    case UpdateOrder(id, o, touches) =>
      if && id in db.orders && SameGuardedColumns(db.orders[id], o)
         && (touches ==> OrderMatchesOwner(db, o)) && OrderRowOk(db, o)
      then Some(db.(orders := db.orders[id := o])) else None
    case DeleteOrder(id) =>
      if id in db.orders && !OrderReferenced(db, id) then Some(db.(orders := db.orders - {id})) else None
  }

  function ApplyTrade(reg: Registry, db: Db, op: Op): Option<Db>
    requires op.InsertTrade? || op.UpdateTrade? || op.DeleteTrade?
  {
    match op
    case InsertTrade(id, t) =>
      if id !in db.trades && TradeInsertAllowed(reg, db, t) && TradeRowOk(reg, db, t)
      then Some(db.(trades := db.trades[id := t])) else None
    case UpdateTrade(id, t) =>
      if id in db.trades && Frozen(db.trades[id], t) && TradeRowOk(reg, db, t)
      then Some(db.(trades := db.trades[id := t])) else None
    case DeleteTrade(id) =>
      if id in db.trades && !TradeReferenced(db, id) then Some(db.(trades := db.trades - {id})) else None
  }

  function ApplyRfq(db: Db, op: Op): Option<Db>
    requires op.InsertRfq? || op.UpdateRfq? || op.DeleteRfq?
  {
    match op
    case InsertRfq(id, r) =>
      if id !in db.rfqs && RfqAllowed(db, id, r) && RfqRowOk(db, r)
      then Some(db.(rfqs := db.rfqs[id := r])) else None
    case UpdateRfq(id, r) =>
      if id in db.rfqs && RfqAllowed(db, id, r) && RfqRowOk(db, r)
      then Some(db.(rfqs := db.rfqs[id := r])) else None
    case DeleteRfq(id) =>
      if id in db.rfqs && !RfqReferenced(db, id) then Some(db.(rfqs := db.rfqs - {id})) else None
  }

  function ApplyQuote(db: Db, op: Op): Option<Db>
    requires op.InsertQuote? || op.UpdateQuote? || op.DeleteQuote?
  {
    match op
    case InsertQuote(id, q) =>
      if id !in db.quotes && QuoteAllowed(db, q) && QuoteRowOk(db, q) && QuoteIsNew(db, id, q)
      then Some(db.(quotes := db.quotes[id := q])) else None
    case UpdateQuote(id, q) =>
      if id in db.quotes && QuoteUpdateAllowed(db, id, db.quotes[id], q) && QuoteRowOk(db, q) && QuoteIsNew(db, id, q)
      then Some(db.(quotes := db.quotes[id := q])) else None
    case DeleteQuote(id) =>
      if id in db.quotes && !QuoteReferenced(db, id) then Some(db.(quotes := db.quotes - {id})) else None
  }

  /** None when a trigger raises or a constraint fails; the statement then has no effect. */
  function Apply(reg: Registry, db: Db, op: Op): Option<Db> {
    match op
    case InsertOrg(_, _) | UpdateOrg(_, _) | DeleteOrg(_) => ApplyOrg(reg, db, op)
    case RecordApproval(id) => if id in db.orgs then Some(db.(approvals := db.approvals + {id})) else None
    case PutProduct(id, p) => Some(db.(products := db.products[id := p]))
    case PutPoint(id, p) => Some(db.(points := db.points[id := p]))
    case InsertOrder(_, _) | UpdateOrder(_, _, _) | DeleteOrder(_) => ApplyOrder(db, op)
    case InsertTrade(_, _) | UpdateTrade(_, _) | DeleteTrade(_) => ApplyTrade(reg, db, op)
    case InsertRfq(_, _) | UpdateRfq(_, _) | DeleteRfq(_) => ApplyRfq(db, op)
    case InsertQuote(_, _) | UpdateQuote(_, _) | DeleteQuote(_) => ApplyQuote(db, op)
  }

  function Step(reg: Registry, db: Db, op: Op): Db {
    var next := Apply(reg, db, op);
    if next.Some? then next.value else db
  }

  function Run(reg: Registry, db: Db, ops: seq<Op>): Db
    decreases |ops|
  {
    if ops == [] then db else Run(reg, Step(reg, db, ops[0]), ops[1..])
  }
}
