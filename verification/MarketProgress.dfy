/** What does go through: the guards refuse nothing that keeps the rules they are there for. */
module MarketProgress {
  import opened Sql
  import opened MarketSchema
  import opened MarketChecks
  import opened MarketGuards
  import opened MarketInvariants
  import D = MarketIdentities
  import M = MarketMigration

  lemma RunCons(reg: Registry, db: Db, op: Op, rest: seq<Op>)
    ensures Run(reg, db, [op] + rest) == Run(reg, Step(reg, db, op), rest)
  {
    hide Step;
    assert ([op] + rest)[1..] == rest;
  }

  // ---------- organizations ----------

  /** Approval classifies: an UNKNOWN organization outside the registries becomes REAL with its approval, unless
      one of its orders is still UNKNOWN and neither cancelled nor expired. */
  lemma ApprovalClassifies(reg: Registry, db: Db, id: Id)
    requires id in db.orgs && id !in reg.demo + reg.test
    requires db.orgs[id].provenance == Unknown && db.orgs[id].verification != Approved
    requires forall o | o in db.orders :: db.orders[o].core.status.Some?
    ensures var next := Apply(reg, db, UpdateOrg(id, db.orgs[id].(verification := Approved)));
            if exists o | o in db.orders ::
                 && db.orders[o].core.org == id && db.orders[o].provenance == Unknown
                 && db.orders[o].core.status !in {Some(OrderCancelled), Some(OrderExpired)}
            then next.None?
            else next == Some(db.(orgs := db.orgs[id := Org(Approved, Real)]))
  {}

  /** Any other update of an organization: its provenance can only be set by hand, from UNKNOWN to REAL with an
      approval on record, and what leaves it alone is applied as written. */
  lemma OtherOrgUpdates(reg: Registry, db: Db, id: Id, now: Org)
    requires id in db.orgs && db.orgs[id].provenance in PROVENANCES
    requires now.verification == Approved && now.provenance == Unknown && db.orgs[id].verification != Approved ==>
               id in reg.demo + reg.test
    ensures var was, next := db.orgs[id], Apply(reg, db, UpdateOrg(id, now));
            if was.provenance == now.provenance
               || (was.provenance == Unknown && now == Org(Approved, Real) && id in db.approvals)
            then next == Some(db.(orgs := db.orgs[id := now]))
            else next.None?
  {}

  lemma OrgsAreInserted(reg: Registry, db: Db, id: Id, org: Org)
    ensures var next := Apply(reg, db, InsertOrg(id, org));
            if && id !in db.orgs
               && match org.provenance
                  case Unknown | Real => true
                  case Demo => id in reg.demo
                  case Test => id in reg.test
                  case Canary | OtherProvenance(_) => false
            then next == Some(db.(orgs := db.orgs[id := org]))
            else next.None?
  {}

  /** With its approval recorded, an approved organization can be set to REAL by hand. */
  lemma ReviewedOrgBecomesReal(reg: Registry, db: Db, id: Id)
    requires id in db.orgs && db.orgs[id] == Org(Approved, Unknown)
    ensures Run(reg, db, [RecordApproval(id), UpdateOrg(id, Org(Approved, Real))])
         == db.(approvals := db.approvals + {id}, orgs := db.orgs[id := Org(Approved, Real)])
  {
    var recorded := Step(reg, db, RecordApproval(id));
    OtherOrgUpdates(reg, recorded, id, Org(Approved, Real));
    var update := UpdateOrg(id, Org(Approved, Real));
    assert [RecordApproval(id), update] == [RecordApproval(id)] + ([update] + []);
    RunCons(reg, db, RecordApproval(id), [update] + []);
    RunCons(reg, recorded, update, []);
  }

  // ---------- the catalog ----------

  /** Taking a product or a delivery point out of the catalog always goes through, and from then on no trade on
      it can be inserted. */
  lemma InactiveRowsAreNotTraded(reg: Registry, db: Db, id: Id, p: Product, dp: DeliveryPoint, trade: Id, t: Trade)
    requires p.active != Some(true) && dp.active != Some(true)
    ensures var next := db.(products := db.products[id := p]);
            && Apply(reg, db, PutProduct(id, p)) == Some(next)
            && (t.slice.product == Some(id) ==> Apply(reg, next, InsertTrade(trade, t)) == None)
    ensures var next := db.(points := db.points[id := dp]);
            && Apply(reg, db, PutPoint(id, dp)) == Some(next)
            && (t.slice.point == Some(id) ==> Apply(reg, next, InsertTrade(trade, t)) == None)
  {
    hide TradeRowOk, CanonicalWindow, M.ProductCase, TradablePair, ApplyOrg, ApplyOrder, ApplyRfq, ApplyQuote;
  }

  // ---------- orders ----------

  /** An open order of an organization, before anything of it is traded. */
  function NewOrder(org: Id, side: Side, provenance: Provenance, product: Id, point: Option<Id>, window: string,
                    quantity: Option<Numeric>, price: Option<Numeric>, expiresAt: Instant): Order {
    Order(OrderCore(org, Some(side), Some(Open), product, point, Some(window), None, quantity, quantity, price,
                    None, None, Some(expiresAt)), provenance, NO_IDEMPOTENCY)
  }

  /** Such an order within the ranges can be placed exactly under its organization's provenance. */
  lemma OrderCanBePlaced(reg: Registry, db: Db, id: Id, org: Id, side: Side, provenance: Provenance, product: Id,
                         point: Option<Id>, window: string, quantity: Option<Numeric>, price: Option<Numeric>,
                         expiresAt: Instant)
    requires Invariant(reg, db) && id !in db.orders && org in db.orgs && side in {Bid, Ask}
    requires Bounded(quantity, 0.01, 100000.0, CENTS) && Bounded(price, 0.01, 1000000.0, CENTS)
    ensures var o := NewOrder(org, side, provenance, product, point, window, quantity, price, expiresAt);
            Apply(reg, db, InsertOrder(id, o))
              == if provenance == db.orgs[org].provenance then Some(db.(orders := db.orders[id := o])) else None
  {
    hide OrderRowOk, TradeRowOk, RfqRowOk, QuoteRowOk, AcceptedRfqsAgree, SnapshotTruth, OrderDomain, OrderNumeric,
         OrderLifecycle;
    var o := NewOrder(org, side, provenance, product, point, window, quantity, price, expiresAt);
    assert db.orgs[org].provenance in PROVENANCES;
    if provenance == db.orgs[org].provenance {
      NewOrderChecks(o);
      NewOrderRow(db, o);
    }
  }

  lemma NewOrderRow(db: Db, o: Order)
    requires OrderChecks(o) && o.core.org in db.orgs && o.core.window.Some?
    ensures OrderRowOk(db, o)
  {}

  lemma NewOrderChecks(o: Order)
    requires o.core.status == Some(Open) && o.core.side in {Some(Bid), Some(Ask)} && o.core.expiresAt.Some?
    requires o.provenance in PROVENANCES && o.idempotency == NO_IDEMPOTENCY
    requires o.core.remaining == o.core.quantity && o.core.carbon.None? && o.core.energy.None?
    requires Bounded(o.core.quantity, 0.01, 100000.0, CENTS) && Bounded(o.core.price, 0.01, 1000000.0, CENTS)
    ensures OrderChecks(o)
  {
    RequiredNumericIsExact(o.core.quantity, 0.01, 100000.0, CENTS);
    RequiredNumericIsExact(o.core.remaining, 0.0, 100000.0, CENTS);
    RequiredNumericIsExact(o.core.price, 0.01, 1000000.0, CENTS);
    OptionalNumericIsExact(None, 0.0, 10000.0, CENTS);
    hide RequiredNumeric, OptionalNumeric;
    OrderLifecycleIsExact(o.core);
    OrderDomainIsExact(o);
  }

  /** An order keeps its owner, provenance, side, product, point, window and inventory; naming one of them in an
      update also asks that the owner's provenance still is the order's. */
  lemma OrderUpdateIsGuarded(reg: Registry, db: Db, id: Id, o: Order, touches: bool)
    requires Invariant(reg, db) && id in db.orders && OrderChecks(o)
    ensures var w := db.orders[id];
            Apply(reg, db, UpdateOrder(id, o, touches))
              == if && (o.core.org, o.provenance, o.core.side, o.core.product, o.core.point, o.core.window, o.core.inventory)
                       == (w.core.org, w.provenance, w.core.side, w.core.product, w.core.point, w.core.window,
                           w.core.inventory)
                    && (touches ==> w.provenance == db.orgs[w.core.org].provenance)
                 then Some(db.(orders := db.orders[id := o])) else None
  {
    hide TradeRowOk, RfqRowOk, QuoteRowOk, AcceptedRfqsAgree, SnapshotTruth, OrderChecks;
    assert OrderRowOk(db, db.orders[id]);
  }

  // ---------- trades ----------

  lemma UpdateIsChecked(reg: Registry, db: Db, id: Id, t: Trade)
    requires id in db.trades
    ensures Apply(reg, db, UpdateTrade(id, t))
         == if Frozen(db.trades[id], t) && TradeRowOk(reg, db, t) then Some(db.(trades := db.trades[id := t])) else None
  {
    hide TradeRowOk, Frozen, TradeInsertAllowed, ApplyOrg, ApplyOrder, ApplyRfq, ApplyQuote;
  }

  /** t with the columns that may move put back. */
  function Restored(w: Trade, t: Trade): Trade {
    var c := w.core;
    t.(core := t.core.(
         initiatedBy := c.initiatedBy, status := c.status, quantity := c.quantity, price := c.price,
         finalQuantity := c.finalQuantity, finalPrice := c.finalPrice, finalTotal := c.finalTotal,
         commissionRate := c.commissionRate, commissionAmount := c.commissionAmount,
         confirmedAt := c.confirmedAt, deliveredAt := c.deliveredAt, paidAt := c.paidAt),
       idempotency := w.idempotency)
  }

  lemma FrozenIsRestored(w: Trade, t: Trade)
    ensures Frozen(w, t) <==> Restored(w, t) == w && (w.feePerMt.Some? ==> t.core.commissionRate == w.core.commissionRate)
  {}

  lemma FrozenRowKeepsLinks(reg: Registry, db: Db, w: Trade, t: Trade)
    requires TradeRowOk(reg, db, w) && Frozen(w, t)
    ensures TradeRowOk(reg, db, t) <==> TradeChecks(reg, t)
  {
    hide TradeChecks;
  }

  /** A trade keeps all columns but those; with a fee on record it keeps its rate, too. */
  lemma TradeUpdateIsGuarded(reg: Registry, db: Db, id: Id, t: Trade)
    requires Invariant(reg, db) && id in db.trades && TradeChecks(reg, t)
    ensures var w := db.trades[id];
            Apply(reg, db, UpdateTrade(id, t))
              == if Restored(w, t) == w && (w.feePerMt.Some? ==> t.core.commissionRate == w.core.commissionRate)
                 then Some(db.(trades := db.trades[id := t])) else None
  {
    assert TradeRowOk(reg, db, db.trades[id]);
    hide Invariant;
    UpdateIsChecked(reg, db, id, t);
    FrozenIsRestored(db.trades[id], t);
    if Frozen(db.trades[id], t) { FrozenRowKeepsLinks(reg, db, db.trades[id], t); }
    hide *;
  }

  function ConfirmedAt(t: Trade, at: Instant): Trade {
    t.(core := t.core.(status := Some(Confirmed), confirmedAt := Some(at)))
  }

  function DeliveredAt(t: Trade, at: Instant, quantity: Numeric, price: Numeric, total: Numeric): Trade {
    t.(core := t.core.(status := Some(Delivered), deliveredAt := Some(at),
                       finalQuantity := Some(quantity), finalPrice := Some(price), finalTotal := Some(total)))
  }

  function PaidAt(t: Trade, at: Instant): Trade { t.(core := t.core.(status := Some(Paid), paidAt := Some(at))) }

  /** t is w at another stage of its life. */
  predicate SameButStage(w: Trade, t: Trade) {
    Restored(w, t) == w && t.idempotency == w.idempotency && t.core.initiatedBy == w.core.initiatedBy
    && t.core.quantity == w.core.quantity && t.core.price == w.core.price
    && t.core.commissionRate == w.core.commissionRate && t.core.commissionAmount == w.core.commissionAmount
  }

  predicate FinalsInRange(t: TradeCore) {
    && (t.finalQuantity.None? || Bounded(t.finalQuantity, 0.01, 100000.0, CENTS))
    && (t.finalPrice.None? || Bounded(t.finalPrice, 0.01, 1000000.0, CENTS))
    && (t.finalTotal.None? || Bounded(t.finalTotal, 0.0, 100000000000.0, CENTS))
  }

  lemma StageDomain(reg: Registry, w: Trade, t: Trade)
    requires SameButStage(w, t) && w.initiatorOrg.Some? && TradeDomain(reg, w).Admitted()
    requires t.core.status.Some? && !t.core.status.value.OtherTradeStatus?
    ensures TradeDomain(reg, t).Admitted()
  {
    hide TradeDomain;
    TradeDomainIsExact(reg, w);
    TradeDomainIsExact(reg, t);
  }

  lemma StageNumeric(w: Trade, t: Trade)
    requires SameButStage(w, t) && TradeNumeric(w).Admitted() && FinalsInRange(t.core)
    ensures TradeNumeric(t).Admitted()
  {
    OptionalNumericIsExact(t.core.finalQuantity, 0.01, 100000.0, CENTS);
    OptionalNumericIsExact(t.core.finalPrice, 0.01, 1000000.0, CENTS);
    OptionalNumericIsExact(t.core.finalTotal, 0.0, 100000000000.0, CENTS);
    hide OptionalNumeric, RequiredNumeric, Bounded;
  }

  /** t is another stage of w and meets the CHECKs that concern stages. */
  predicate NextStage(w: Trade, t: Trade) {
    && SameButStage(w, t) && FinalsInRange(t.core) && TradeLifecycle(t.core).Admitted()
    && t.core.status.Some? && !t.core.status.value.OtherTradeStatus?
  }

  lemma StageRow(reg: Registry, db: Db, w: Trade, t: Trade)
    requires TradeRowOk(reg, db, w) && NextStage(w, t)
    ensures TradeRowOk(reg, db, t) && Frozen(w, t)
  {
    FrozenIsRestored(w, t);
    StageDomain(reg, w, t);
    StageNumeric(w, t);
    FrozenRowKeepsLinks(reg, db, w, t);
    hide TradeDomain, TradeNumeric, TradeLifecycle, FinalsInRange;
  }

  lemma StageGoesThrough(reg: Registry, db: Db, id: Id, t: Trade) returns (next: Db)
    requires id in db.trades && TradeRowOk(reg, db, db.trades[id]) && NextStage(db.trades[id], t)
    ensures next == Step(reg, db, UpdateTrade(id, t)) == db.(trades := db.trades[id := t])
    ensures TradeRowOk(reg, next, t)
  {
    StageRow(reg, db, db.trades[id], t);
    UpdateIsChecked(reg, db, id, t);
    hide NextStage, Frozen, TradeChecks, Apply;
    next := db.(trades := db.trades[id := t]);
  }

  lemma RunThree(reg: Registry, db: Db, a: Op, b: Op, c: Op)
    ensures Run(reg, db, [a, b, c]) == Step(reg, Step(reg, Step(reg, db, a), b), c)
  {
    hide Step;
    assert [a, b, c] == [a] + ([b] + ([c] + []));
    RunCons(reg, db, a, [b] + ([c] + []));
    RunCons(reg, Step(reg, db, a), b, [c] + []);
    RunCons(reg, Step(reg, Step(reg, db, a), b), c, []);
  }

  lemma CourseOfATrade(t: Trade, a: Instant, b: Instant, c: Instant, quantity: Numeric, price: Numeric, total: Numeric)
    requires t.core.status == Some(PendingConfirmation) && TradeLifecycle(t.core).Admitted()
    requires Bounded(Some(quantity), 0.01, 100000.0, CENTS) && Le(Some(quantity), t.core.quantity).IsTrue?
    requires Bounded(Some(price), 0.01, 1000000.0, CENTS) && Bounded(Some(total), 0.0, 100000000000.0, CENTS)
    ensures var confirmed := ConfirmedAt(t, a);
            var delivered := DeliveredAt(confirmed, b, quantity, price, total);
            NextStage(t, confirmed) && NextStage(confirmed, delivered) && NextStage(delivered, PaidAt(delivered, c))
  {
    var confirmed := ConfirmedAt(t, a);
    var delivered := DeliveredAt(confirmed, b, quantity, price, total);
    var paid := PaidAt(delivered, c);
    TradeLifecycleIsExact(t.core);
    TradeLifecycleIsExact(confirmed.core);
    TradeLifecycleIsExact(delivered.core);
    TradeLifecycleIsExact(paid.core);
    hide TradeLifecycle, Bounded;
  }

  lemma PendingTradeRuns(reg: Registry, db: Db, id: Id, confirmed: Trade, delivered: Trade, paid: Trade)
    requires id in db.trades && TradeRowOk(reg, db, db.trades[id])
    requires NextStage(db.trades[id], confirmed) && NextStage(confirmed, delivered) && NextStage(delivered, paid)
    ensures Run(reg, db, [UpdateTrade(id, confirmed), UpdateTrade(id, delivered), UpdateTrade(id, paid)])
         == db.(trades := db.trades[id := paid])
  {
    hide *;
    RunThree(reg, db, UpdateTrade(id, confirmed), UpdateTrade(id, delivered), UpdateTrade(id, paid));
    var one := StageGoesThrough(reg, db, id, confirmed);
    var two := StageGoesThrough(reg, one, id, delivered);
    var three := StageGoesThrough(reg, two, id, paid);
    assert three == db.(trades := db.trades[id := paid]);
  }

  /** From any sound state a pending trade can be confirmed, delivered in any quantity up to the traded one, and
      paid, each step as written and nothing else changed. */
  lemma TradeCanRunItsCourse(reg: Registry, db: Db, id: Id, a: Instant, b: Instant, c: Instant,
                             quantity: Numeric, price: Numeric, total: Numeric)
    requires Invariant(reg, db) && id in db.trades && db.trades[id].core.status == Some(PendingConfirmation)
    requires Bounded(Some(quantity), 0.01, 100000.0, CENTS) && Le(Some(quantity), db.trades[id].core.quantity).IsTrue?
    requires Bounded(Some(price), 0.01, 1000000.0, CENTS) && Bounded(Some(total), 0.0, 100000000000.0, CENTS)
    ensures var confirmed := ConfirmedAt(db.trades[id], a);
            var delivered := DeliveredAt(confirmed, b, quantity, price, total);
            var paid := PaidAt(delivered, c);
            Run(reg, db, [UpdateTrade(id, confirmed), UpdateTrade(id, delivered), UpdateTrade(id, paid)])
              == db.(trades := db.trades[id := paid])
  {
    assert TradeRowOk(reg, db, db.trades[id]);
    var confirmed := ConfirmedAt(db.trades[id], a);
    var delivered := DeliveredAt(confirmed, b, quantity, price, total);
    CourseOfATrade(db.trades[id], a, b, c, quantity, price, total);
    hide *;
    PendingTradeRuns(reg, db, id, confirmed, delivered, PaidAt(delivered, c));
  }

  // ---------- acceptance of an RFQ ----------

  lemma RfqCanBePlaced(reg: Registry, db: Db, id: Id, r: RfqCore)
    requires id !in db.rfqs && r.buyer in db.orgs && r.status == Some(RfqOpen)
    requires Bounded(r.quantity, 0.01, 100000.0, CENTS) && (r.target.None? || Bounded(r.target, 0.01, 1000000.0, CENTS))
    ensures Apply(reg, db, InsertRfq(id, Rfq(r, None, None))) == Some(db.(rfqs := db.rfqs[id := Rfq(r, None, None)]))
  {
    RequiredNumericIsExact(r.quantity, 0.01, 100000.0, CENTS);
    OptionalNumericIsExact(r.target, 0.01, 1000000.0, CENTS);
    hide RequiredNumeric, OptionalNumeric;
  }

  /** An offer in range is refused only to the buyer and to a seller who has one already. */
  lemma QuoteCanBePlaced(reg: Registry, db: Db, id: Id, rfq: Id, seller: Id, price: Option<Numeric>)
    requires id !in db.quotes && rfq in db.rfqs && seller in db.orgs && Bounded(price, 0.01, 1000000.0, CENTS)
    ensures var q := Quote(rfq, seller, price, Some(QuotePending));
            Apply(reg, db, InsertQuote(id, q))
              == if seller == db.rfqs[rfq].core.buyer
                    || (exists k | k in db.quotes :: db.quotes[k].rfq == rfq && db.quotes[k].seller == seller)
                 then None else Some(db.(quotes := db.quotes[id := q]))
  {
    RequiredNumericIsExact(price, 0.01, 1000000.0, CENTS);
    hide RequiredNumeric;
  }

  /** The trade that a quote offers the buyer of its RFQ, on catalog rows p and dp. */
  function OfferedTrade(reg: Registry, db: Db, r: RfqCore, q: Quote): Trade
    requires r.buyer in db.orgs && q.seller in db.orgs && r.product in db.products
    requires r.point.Some? && r.point.value in db.points
  {
    var p, dp := db.products[r.product], db.points[r.point.value];
    Trade(TradeCore(None, None, r.buyer, q.seller, Some(Buyer), Some(PendingConfirmation), r.quantity, q.price,
                    None, None, None, Lit(0.0), None, None, None, None),
          db.orgs[r.buyer].provenance, db.orgs[q.seller].provenance, Some(r.buyer),
          MarketSlice(Some(r.product), Some(p.name), Some(p.fuelType), Some(p.fuelGrade),
                      M.ProductCase(r.product, p, reg.products), r.point, Some(dp.name), Some(dp.region), Some(r.window)),
          Some(1), NO_IDEMPOTENCY, None, None)
  }

  /** Active rows that the registry knows word for word. */
  predicate Tradable(reg: Registry, db: Db, product: Id, point: Option<Id>) {
    && product in db.products && point.Some? && point.value in db.points
    && var p, dp := db.products[product], db.points[point.value];
       && p.active == Some(true) && dp.active == Some(true)
       && (exists i | 0 <= i < |reg.products| :: reg.products[i]
             == ProductIdentity(product, p.name, p.fuelType, p.fuelGrade, reg.products[i].marketProduct))
       && PointIdentity(point.value, dp.name, dp.region) in reg.points
  }

  lemma TradableLabels(reg: Registry, db: Db, product: Id, point: Option<Id>)
    requires WellFormed(reg) && Tradable(reg, db, product, point)
    ensures var p, code := db.products[product], M.ProductCase(product, db.products[product], reg.products);
            && code.Some? && code.value in reg.marketProducts
            && !Blank(p.name) && !Blank(p.fuelType) && !Blank(p.fuelGrade)
  {
    var p := db.products[product];
    M.ProductCaseIsListed(product, p, reg.products);
    var i :| 0 <= i < |reg.products| && reg.products[i]
      == ProductIdentity(product, p.name, p.fuelType, p.fuelGrade, M.ProductCase(product, p, reg.products).value);
    hide Blank, M.ProductCase;
  }

  /** What acceptance needs: two different REAL organizations, or two DEMO ones, and a slice on offer. */
  predicate Acceptable(reg: Registry, db: Db, rfq: Id, quote: Id) {
    && rfq in db.rfqs && quote in db.quotes && db.quotes[quote].rfq == rfq && !IsAccepted(db, rfq)
    && var r, q := db.rfqs[rfq].core, db.quotes[quote];
       && r.buyer in db.orgs && q.seller in db.orgs && q.seller != r.buyer
       && db.orgs[r.buyer].provenance == db.orgs[q.seller].provenance
       && db.orgs[r.buyer].provenance in {Real, Demo}
       && Tradable(reg, db, r.product, r.point) && CanonicalWindow(r.window)
  }

  lemma OfferedTradeChecks(reg: Registry, t: Trade)
    requires t.core.buyer != t.core.seller && t.initiatorOrg == Some(t.core.buyer) && t.core.initiatedBy == Some(Buyer)
    requires t.core.status == Some(PendingConfirmation) && t.core.commissionRate == Lit(0.0)
    requires t.core.confirmedAt.None? && t.core.deliveredAt.None? && t.core.paidAt.None? && t.core.commissionAmount.None?
    requires t.core.finalQuantity.None? && t.core.finalPrice.None? && t.core.finalTotal.None?
    requires Bounded(t.core.quantity, 0.01, 100000.0, CENTS) && Bounded(t.core.price, 0.01, 1000000.0, CENTS)
    requires t.idempotency == NO_IDEMPOTENCY && t.feePerMt.None? && t.plan.None?
    requires M.Certified(reg, t) && (t.buyerProvenance == Demo ==> {t.core.buyer, t.core.seller} <= reg.demo)
    requires t.snapshotVersion == Some(1) && WellFormed(reg)
    ensures TradeChecks(reg, t)
  {
    var i :| 0 <= i < |reg.products| && M.NamesProduct(t.slice, reg.products[i]);
    hide TradeChecks, WellFormed, CanonicalWindow, Blank, Bounded;
    TradeDomainIsExact(reg, t);
    TradeLifecycleIsExact(t.core);
    TradeSnapshotIsExact(reg, t);
    CommissionSnapshotIsExact(t);
    OfferedNumbers(t);
    hide TradeDomain, TradeLifecycle, TradeSnapshot, CommissionSnapshot, TradeNumeric;
  }

  lemma OfferedNumbers(t: Trade)
    requires t.core.commissionRate == Lit(0.0) && t.core.commissionAmount.None? && t.feePerMt.None?
    requires t.core.finalQuantity.None? && t.core.finalPrice.None? && t.core.finalTotal.None?
    requires Bounded(t.core.quantity, 0.01, 100000.0, CENTS) && Bounded(t.core.price, 0.01, 1000000.0, CENTS)
    ensures TradeNumeric(t).Admitted()
  {
    RequiredNumericIsExact(t.core.quantity, 0.01, 100000.0, CENTS);
    RequiredNumericIsExact(t.core.price, 0.01, 1000000.0, CENTS);
    RequiredNumericIsExact(t.core.commissionRate, 0.0, 100.0, MILLS);
  }

  lemma OfferIsInserted(reg: Registry, db: Db, rfq: Id, quote: Id, trade: Id) returns (next: Db)
    requires WellFormed(reg) && D.OrgsRegistered(reg, db) && Acceptable(reg, db, rfq, quote) && trade !in db.trades
    requires Bounded(db.rfqs[rfq].core.quantity, 0.01, 100000.0, CENTS)
    requires Bounded(db.quotes[quote].price, 0.01, 1000000.0, CENTS)
    ensures var t := OfferedTrade(reg, db, db.rfqs[rfq].core, db.quotes[quote]);
            next == Step(reg, db, InsertTrade(trade, t)) == db.(trades := db.trades[trade := t])
  {
    var r, q := db.rfqs[rfq].core, db.quotes[quote];
    var t := OfferedTrade(reg, db, r, q);
    TradableLabels(reg, db, r.product, r.point);
    hide WellFormed, M.ProductCase, Blank, CanonicalWindow, Bounded, TradeChecks, Tradable;
    assert Tradable(reg, db, r.product, r.point);
    OfferIsAllowed(reg, db, r, q);
    D.InsertedTradeIsRegistered(reg, db, t);
    OfferedTradeChecks(reg, t);
    hide TradeInsertAllowed, M.Certified;
    assert TradeRowOk(reg, db, t);
    hide TradeRowOk;
    next := db.(trades := db.trades[trade := t]);
  }

  lemma OfferIsAllowed(reg: Registry, db: Db, r: RfqCore, q: Quote)
    requires r.buyer in db.orgs && q.seller in db.orgs && CanonicalWindow(r.window)
    requires Tradable(reg, db, r.product, r.point) && M.ProductCase(r.product, db.products[r.product], reg.products).Some?
    requires db.orgs[r.buyer].provenance == db.orgs[q.seller].provenance
    requires db.orgs[r.buyer].provenance == Real || (db.orgs[r.buyer].provenance == Demo && {r.buyer, q.seller} <= reg.demo)
    ensures TradeInsertAllowed(reg, db, OfferedTrade(reg, db, r, q))
  {
    hide M.ProductCase, CanonicalWindow;
  }

  lemma QuoteIsAccepted(reg: Registry, db: Db, quote: Id) returns (next: Db)
    requires quote in db.quotes && QuoteRowOk(db, db.quotes[quote]) && QuoteAllowed(db, db.quotes[quote])
    requires M.UniqueQuotes(db.quotes)
    ensures var accepted := db.quotes[quote].(status := Some(QuoteAccepted));
            next == Step(reg, db, UpdateQuote(quote, accepted)) == db.(quotes := db.quotes[quote := accepted])
    ensures QuoteRowOk(next, next.quotes[quote])
  {
    hide RequiredNumeric, AcceptedSomewhere;
    assert QuoteChecks(db.quotes[quote].(status := Some(QuoteAccepted)));
    hide QuoteChecks;
    next := db.(quotes := db.quotes[quote := db.quotes[quote].(status := Some(QuoteAccepted))]);
  }

  lemma RfqIsAccepted(reg: Registry, db: Db, rfq: Id, quote: Id, trade: Id) returns (next: Db)
    requires rfq in db.rfqs && quote in db.quotes && trade in db.trades && RfqRowOk(db, db.rfqs[rfq])
    requires var accepted := Rfq(db.rfqs[rfq].core.(status := Some(RfqAccepted)), Some(quote), Some(trade));
             AcceptanceConsistent(rfq, accepted, db.quotes[quote], db.trades[trade])
    requires db.trades[trade].core.quantity == db.rfqs[rfq].core.quantity
    requires db.trades[trade].core.price == db.quotes[quote].price
    ensures var accepted := Rfq(db.rfqs[rfq].core.(status := Some(RfqAccepted)), Some(quote), Some(trade));
            next == Step(reg, db, UpdateRfq(rfq, accepted)) == db.(rfqs := db.rfqs[rfq := accepted])
  {
    hide AcceptanceConsistent, RfqNumeric;
    var accepted := Rfq(db.rfqs[rfq].core.(status := Some(RfqAccepted)), Some(quote), Some(trade));
    SameNumbers(accepted.core, db.rfqs[rfq].core);
    assert RfqRowOk(db, accepted);
    next := db.(rfqs := db.rfqs[rfq := accepted]);
  }

  lemma SameNumbers(a: RfqCore, b: RfqCore)
    requires a.quantity == b.quantity && a.target == b.target
    ensures RfqNumeric(a) == RfqNumeric(b)
  {}

  lemma RfqAndQuoteNumbers(reg: Registry, db: Db, rfq: Id, quote: Id)
    requires RowsOk(reg, db) && rfq in db.rfqs && quote in db.quotes
    ensures RfqRowOk(db, db.rfqs[rfq]) && QuoteRowOk(db, db.quotes[quote])
    ensures Bounded(db.rfqs[rfq].core.quantity, 0.01, 100000.0, CENTS)
    ensures Bounded(db.quotes[quote].price, 0.01, 1000000.0, CENTS)
  {
    hide OrderRowOk, TradeRowOk;
    RequiredNumericIsExact(db.rfqs[rfq].core.quantity, 0.01, 100000.0, CENTS);
    RequiredNumericIsExact(db.quotes[quote].price, 0.01, 1000000.0, CENTS);
    hide RequiredNumeric, OptionalNumeric, Bounded;
  }

  lemma OfferIsConsistent(reg: Registry, db: Db, rfq: Id, quote: Id, trade: Id)
    requires Acceptable(reg, db, rfq, quote)
    ensures var t := OfferedTrade(reg, db, db.rfqs[rfq].core, db.quotes[quote]);
            var r := Rfq(db.rfqs[rfq].core.(status := Some(RfqAccepted)), Some(quote), Some(trade));
            && AcceptanceConsistent(rfq, r, db.quotes[quote].(status := Some(QuoteAccepted)), t)
            && t.core.quantity == db.rfqs[rfq].core.quantity && t.core.price == db.quotes[quote].price
            && QuoteAllowed(db, db.quotes[quote])
  {
    hide M.ProductCase, CanonicalWindow;
  }

  lemma SameRows(a: Db, b: Db, q: Quote)
    requires a.orgs == b.orgs && a.rfqs == b.rfqs
    ensures QuoteRowOk(a, q) <==> QuoteRowOk(b, q)
    ensures QuoteAllowed(a, q) <==> QuoteAllowed(b, q)
  {
    hide QuoteChecks;
  }

  lemma RfqLinksHold(a: Db, b: Db, r: Rfq)
    requires RfqRowOk(a, r) && a.orgs == b.orgs && a.quotes.Keys <= b.quotes.Keys && a.trades.Keys <= b.trades.Keys
    ensures RfqRowOk(b, r)
  {
    hide RfqChecks;
  }

  /** From every sound state an RFQ can be accepted on any such quote: the offered trade is inserted, then the
      quote and the RFQ are accepted, each as written and nothing else changed. */
  lemma AcceptanceGoesThrough(reg: Registry, db: Db, rfq: Id, quote: Id, trade: Id)
    requires WellFormed(reg) && RowsOk(reg, db) && D.OrgsRegistered(reg, db) && M.UniqueQuotes(db.quotes)
    requires Acceptable(reg, db, rfq, quote) && trade !in db.trades
    ensures var t := OfferedTrade(reg, db, db.rfqs[rfq].core, db.quotes[quote]);
            var q := db.quotes[quote].(status := Some(QuoteAccepted));
            var r := Rfq(db.rfqs[rfq].core.(status := Some(RfqAccepted)), Some(quote), Some(trade));
            Run(reg, db, [InsertTrade(trade, t), UpdateQuote(quote, q), UpdateRfq(rfq, r)])
              == db.(trades := db.trades[trade := t], quotes := db.quotes[quote := q], rfqs := db.rfqs[rfq := r])
  {
    var t := OfferedTrade(reg, db, db.rfqs[rfq].core, db.quotes[quote]);
    var q := db.quotes[quote].(status := Some(QuoteAccepted));
    var r := Rfq(db.rfqs[rfq].core.(status := Some(RfqAccepted)), Some(quote), Some(trade));
    RfqAndQuoteNumbers(reg, db, rfq, quote);
    OfferIsConsistent(reg, db, rfq, quote, trade);
    hide *;
    RunThree(reg, db, InsertTrade(trade, t), UpdateQuote(quote, q), UpdateRfq(rfq, r));
    var one := OfferIsInserted(reg, db, rfq, quote, trade);
    SameRows(db, one, db.quotes[quote]);
    var two := QuoteIsAccepted(reg, one, quote);
    RfqLinksHold(db, two, db.rfqs[rfq]);
    var three := RfqIsAccepted(reg, two, rfq, quote, trade);
    assert three == db.(trades := db.trades[trade := t], quotes := db.quotes[quote := q], rfqs := db.rfqs[rfq := r]);
  }

  /** A quote that an accepted RFQ names is fixed; any other can become any valid quote from somebody else than
      the buyer and without a twin. */
  lemma QuoteUpdateIsGuarded(reg: Registry, db: Db, id: Id, q: Quote)
    requires Invariant(reg, db) && id in db.quotes && QuoteChecks(q) && q.seller in db.orgs && q.rfq in db.rfqs
    requires forall k | k in db.quotes && k != id :: (db.quotes[k].rfq, db.quotes[k].seller) != (q.rfq, q.seller)
    ensures var next := Apply(reg, db, UpdateQuote(id, q));
            if exists r | r in db.rfqs :: db.rfqs[r].core.status == Some(RfqAccepted) && db.rfqs[r].acceptedQuote == Some(id)
            then next.Some? ==> q == db.quotes[id]
            else next == if q.seller == db.rfqs[q.rfq].core.buyer then None else Some(db.(quotes := db.quotes[id := q]))
  {
    hide OrderRowOk, TradeRowOk, RfqRowOk, SnapshotTruth, QuoteChecks, ApplyOrg, ApplyOrder, ApplyTrade, ApplyRfq;
    if r :| r in db.rfqs && db.rfqs[r].core.status == Some(RfqAccepted) && db.rfqs[r].acceptedQuote == Some(id) {
      assert IsAccepted(db, r) && AcceptedAgrees(db, r);
      assert db.quotes[id].status == Some(QuoteAccepted);
    }
  }

  // ---------- deletes ----------

  /** What a foreign key or the approval record refers to. */
  predicate NothingDangles(reg: Registry, db: Db) { RowsOk(reg, db) && db.approvals <= db.orgs.Keys }

  /** A row can be deleted exactly when nothing is left dangling. */
  lemma OrgDeleteIsExact(reg: Registry, db: Db, id: Id)
    requires NothingDangles(reg, db) && id in db.orgs
    ensures var next := db.(orgs := db.orgs - {id});
            Apply(reg, db, DeleteOrg(id)) == if NothingDangles(reg, next) then Some(next) else None
  {
    hide OrderChecks, TradeChecks, RfqChecks, QuoteChecks, ProvenanceDomain;
    var next := db.(orgs := db.orgs - {id});
    if OrgReferenced(db, id) {
      assert !NothingDangles(reg, next) by {
        if o :| o in db.orders && db.orders[o].core.org == id { assert !OrderRowOk(next, next.orders[o]); }
        if t :| t in db.trades && (id in {db.trades[t].core.buyer, db.trades[t].core.seller}
                                   || db.trades[t].initiatorOrg == Some(id)) {
          assert !TradeRowOk(reg, next, next.trades[t]);
        }
        if r :| r in db.rfqs && db.rfqs[r].core.buyer == id { assert !RfqRowOk(next, next.rfqs[r]); }
        if q :| q in db.quotes && db.quotes[q].seller == id { assert !QuoteRowOk(next, next.quotes[q]); }
      }
    } else {
      OrgStepRows(reg, db, DeleteOrg(id));
    }
  }

  lemma OrderDeleteIsExact(reg: Registry, db: Db, id: Id)
    requires NothingDangles(reg, db) && id in db.orders
    ensures var next := db.(orders := db.orders - {id});
            Apply(reg, db, DeleteOrder(id)) == if NothingDangles(reg, next) then Some(next) else None
  {
    hide OrderChecks, TradeChecks, RfqChecks, QuoteChecks, ProvenanceDomain;
    var next := db.(orders := db.orders - {id});
    if t :| t in db.trades && (db.trades[t].core.bidOrder == Some(id) || db.trades[t].core.askOrder == Some(id)) {
      assert !TradeRowOk(reg, next, next.trades[t]);
    } else {
      assert forall t | t in next.trades :: TradeRowOk(reg, db, db.trades[t]) && TradeRowOk(reg, next, next.trades[t]);
    }
  }

  lemma TradeDeleteIsExact(reg: Registry, db: Db, id: Id)
    requires NothingDangles(reg, db) && id in db.trades
    ensures var next := db.(trades := db.trades - {id});
            Apply(reg, db, DeleteTrade(id)) == if NothingDangles(reg, next) then Some(next) else None
  {
    hide OrderChecks, TradeChecks, RfqChecks, QuoteChecks, ProvenanceDomain;
    var next := db.(trades := db.trades - {id});
    if r :| r in db.rfqs && db.rfqs[r].trade == Some(id) {
      assert !RfqRowOk(next, next.rfqs[r]);
    } else {
      TradeStepRows(reg, db, DeleteTrade(id));
    }
  }

  lemma RfqDeleteIsExact(reg: Registry, db: Db, id: Id)
    requires NothingDangles(reg, db) && id in db.rfqs
    ensures var next := db.(rfqs := db.rfqs - {id});
            Apply(reg, db, DeleteRfq(id)) == if NothingDangles(reg, next) then Some(next) else None
  {
    hide OrderChecks, TradeChecks, RfqChecks, QuoteChecks, ProvenanceDomain;
    var next := db.(rfqs := db.rfqs - {id});
    if q :| q in db.quotes && db.quotes[q].rfq == id {
      assert !QuoteRowOk(next, next.quotes[q]);
    } else {
      assert forall q | q in next.quotes :: QuoteRowOk(db, db.quotes[q]) && QuoteRowOk(next, next.quotes[q]);
    }
  }

  lemma QuoteDeleteIsExact(reg: Registry, db: Db, id: Id)
    requires NothingDangles(reg, db) && id in db.quotes
    ensures var next := db.(quotes := db.quotes - {id});
            Apply(reg, db, DeleteQuote(id)) == if NothingDangles(reg, next) then Some(next) else None
  {
    hide OrderChecks, TradeChecks, RfqChecks, QuoteChecks, ProvenanceDomain;
    var next := db.(quotes := db.quotes - {id});
    if r :| r in db.rfqs && db.rfqs[r].acceptedQuote == Some(id) {
      assert !RfqRowOk(next, next.rfqs[r]);
    } else {
      QuoteStepRows(reg, db, DeleteQuote(id));
    }
  }
}
