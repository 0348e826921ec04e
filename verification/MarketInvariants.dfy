/** What every run of the guarded market database keeps. */
module MarketInvariants {
  import opened Sql
  import opened MarketSchema
  import opened MarketChecks
  import opened MarketGuards
  import M = MarketMigration
  import S = MarketSoundness

  // ---------- the invariant ----------

  /** Every row meets its CHECK constraints and foreign keys. */
  predicate RowsOk(reg: Registry, db: Db) {
    && (forall id | id in db.orgs :: ProvenanceDomain(db.orgs[id].provenance).Admitted())
    && (forall id | id in db.orders :: OrderRowOk(db, db.orders[id]))
    && (forall id | id in db.trades :: TradeRowOk(reg, db, db.trades[id]))
    && (forall id | id in db.rfqs :: RfqRowOk(db, db.rfqs[id]))
    && (forall id | id in db.quotes :: QuoteRowOk(db, db.quotes[id]))
  }

  predicate IsAccepted(db: Db, id: Id) { id in db.rfqs && db.rfqs[id].core.status == Some(RfqAccepted) }

  /** The quote and trade of an accepted RFQ exist and agree with it. */
  predicate AcceptedAgrees(db: Db, id: Id)
    requires id in db.rfqs
  {
    var r := db.rfqs[id];
    && r.acceptedQuote.Some? && r.acceptedQuote.value in db.quotes
    && r.trade.Some? && r.trade.value in db.trades
    && AcceptanceConsistent(id, r, db.quotes[r.acceptedQuote.value], db.trades[r.trade.value])
  }

  predicate AcceptedRfqsAgree(db: Db) {
    forall id | id in db.rfqs :: IsAccepted(db, id) ==> AcceptedAgrees(db, id)
  }

  /** A versioned trade records what its parties' provenance is now, not only what it was. */
  predicate SnapshotTruth(db: Db) {
    forall id | id in db.trades :: db.trades[id].snapshotVersion.Some? ==>
      var t := db.trades[id];
      && t.core.buyer in db.orgs && t.buyerProvenance == db.orgs[t.core.buyer].provenance
      && t.core.seller in db.orgs && t.sellerProvenance == db.orgs[t.core.seller].provenance
  }

  predicate Invariant(reg: Registry, db: Db) {
    RowsOk(reg, db) && AcceptedRfqsAgree(db) && SnapshotTruth(db)
  }

  // ---------- single-row facts ----------

  lemma AcceptedRowIsLinked(r: Rfq)
    requires RfqChecks(r)
    ensures r.core.status == Some(RfqAccepted) <==> r.acceptedQuote.Some? && r.trade.Some?
    ensures r.core.status != Some(RfqAccepted) ==> r.acceptedQuote.None? && r.trade.None?
  {}

  lemma VersionedTradeParties(reg: Registry, t: Trade)
    requires TradeChecks(reg, t)
    ensures t.core.buyer != t.core.seller
    ensures t.snapshotVersion.Some? ==> t.buyerProvenance == t.sellerProvenance && t.buyerProvenance in {Real, Demo}
  {
    hide TradeNumeric, TradeLifecycle, TradeSnapshot, CommissionSnapshot;
  }

  // ---------- one statement ----------

  predicate OrgOp(op: Op) { op.InsertOrg? || op.UpdateOrg? || op.DeleteOrg? }
  predicate OrderOp(op: Op) { op.InsertOrder? || op.UpdateOrder? || op.DeleteOrder? }
  predicate TradeOp(op: Op) { op.InsertTrade? || op.UpdateTrade? || op.DeleteTrade? }
  predicate RfqOp(op: Op) { op.InsertRfq? || op.UpdateRfq? || op.DeleteRfq? }
  predicate QuoteOp(op: Op) { op.InsertQuote? || op.UpdateQuote? || op.DeleteQuote? }

  /** A statement writes one table only. */
  lemma StatementFrame(reg: Registry, db: Db, op: Op)
    requires Apply(reg, db, op).Some?
    ensures var next := Apply(reg, db, op).value;
            && (!OrgOp(op) ==> next.orgs == db.orgs)
            && (!OrderOp(op) ==> next.orders == db.orders)
            && (!TradeOp(op) ==> next.trades == db.trades)
            && (!RfqOp(op) ==> next.rfqs == db.rfqs)
            && (!QuoteOp(op) ==> next.quotes == db.quotes)
  {
    hide OrgInsertAllowed, OrgUpdate, OrgReferenced, OrderMatchesOwner, OrderRowOk, SameGuardedColumns, OrderReferenced,
         TradeInsertAllowed, TradeRowOk, Frozen, TradeReferenced, RfqAllowed, RfqRowOk, RfqReferenced,
         QuoteAllowed, QuoteUpdateAllowed, QuoteRowOk, QuoteIsNew, QuoteReferenced, ProvenanceDomain;
  }

  lemma VersionedProvenanceIsSettled(reg: Registry, db: Db)
    requires RowsOk(reg, db)
    ensures forall id | id in db.trades && db.trades[id].snapshotVersion.Some? ::
              db.trades[id].buyerProvenance in {Real, Demo} && db.trades[id].sellerProvenance in {Real, Demo}
  {
    hide TradeChecks, OrderRowOk, RfqRowOk, QuoteRowOk;
    forall id | id in db.trades && db.trades[id].snapshotVersion.Some?
      ensures db.trades[id].buyerProvenance in {Real, Demo} && db.trades[id].sellerProvenance in {Real, Demo}
    {
      VersionedTradeParties(reg, db.trades[id]);
    }
  }

  /** An organization's provenance moves only from UNKNOWN to REAL. */
  lemma OrgUpdateProvenance(reg: Registry, db: Db, id: Id, was: Org, now: Org)
    requires OrgUpdate(reg, db, id, was, now).Some?
    ensures var p := OrgUpdate(reg, db, id, was, now).value.provenance;
            p == was.provenance || (was.provenance == Unknown && p == Real)
  {}

  lemma OrgStepRows(reg: Registry, db: Db, op: Op)
    requires OrgOp(op) && RowsOk(reg, db) && ApplyOrg(reg, db, op).Some?
    ensures RowsOk(reg, ApplyOrg(reg, db, op).value)
  {
    hide OrderChecks, TradeChecks, RfqChecks, QuoteChecks, OrgUpdate, OrgInsertAllowed, ProvenanceDomain;
    var next := ApplyOrg(reg, db, op).value;
    forall t | t in next.trades ensures TradeRowOk(reg, next, next.trades[t]) {
      assert TradeRowOk(reg, db, db.trades[t]);
    }
  }

  lemma OrgStepAgreement(reg: Registry, db: Db, op: Op)
    requires OrgOp(op) && Invariant(reg, db) && ApplyOrg(reg, db, op).Some?
    ensures var next := ApplyOrg(reg, db, op).value;
            AcceptedRfqsAgree(next) && SnapshotTruth(next)
  {
    hide AcceptanceConsistent, OrgUpdate, OrgInsertAllowed, ProvenanceDomain, RowsOk;
    var next := ApplyOrg(reg, db, op).value;
    VersionedProvenanceIsSettled(reg, db);
    if op.UpdateOrg? {
      OrgUpdateProvenance(reg, db, op.id, db.orgs[op.id], op.org);
    }
    forall id | id in next.rfqs && IsAccepted(next, id) ensures AcceptedAgrees(next, id) {
      assert IsAccepted(db, id) && AcceptedAgrees(db, id);
    }
  }

  lemma OrderStep(reg: Registry, db: Db, op: Op)
    requires OrderOp(op)
    requires Invariant(reg, db) && ApplyOrder(db, op).Some?
    ensures Invariant(reg, ApplyOrder(db, op).value)
  {
    hide OrderChecks, TradeChecks, RfqChecks, QuoteChecks, AcceptanceConsistent, ProvenanceDomain;
    var next := ApplyOrder(db, op).value;
    assert forall id | id in next.trades :: TradeRowOk(reg, next, next.trades[id]);
  }

  lemma TradeStepRows(reg: Registry, db: Db, op: Op)
    requires TradeOp(op)
    requires RowsOk(reg, db) && ApplyTrade(reg, db, op).Some?
    ensures RowsOk(reg, ApplyTrade(reg, db, op).value)
  {
    hide OrderChecks, TradeChecks, RfqChecks, QuoteChecks, ProvenanceDomain, TradeInsertAllowed, Frozen;
    var next := ApplyTrade(reg, db, op).value;
    assert forall id | id in next.rfqs :: RfqRowOk(next, next.rfqs[id]);
  }

  lemma TradeStepAgreement(reg: Registry, db: Db, op: Op)
    requires TradeOp(op)
    requires AcceptedRfqsAgree(db) && SnapshotTruth(db) && ApplyTrade(reg, db, op).Some?
    ensures var next := ApplyTrade(reg, db, op).value;
            AcceptedRfqsAgree(next) && SnapshotTruth(next)
  {
    hide TradeRowOk, M.ProductCase, TradablePair;
    var next := ApplyTrade(reg, db, op).value;
    forall id | id in next.rfqs && IsAccepted(next, id) ensures AcceptedAgrees(next, id) {
      assert IsAccepted(db, id) && AcceptedAgrees(db, id);
      assert next.rfqs == db.rfqs && next.quotes == db.quotes;
      var t := db.rfqs[id].trade.value;
      assert t in next.trades;
    }
  }

  lemma RfqStep(reg: Registry, db: Db, op: Op)
    requires RfqOp(op)
    requires Invariant(reg, db) && ApplyRfq(db, op).Some?
    ensures Invariant(reg, ApplyRfq(db, op).value)
  {
    hide OrderChecks, TradeChecks, RfqChecks, QuoteChecks, AcceptanceConsistent, ProvenanceDomain;
    var next := ApplyRfq(db, op).value;
    assert forall id | id in next.quotes :: QuoteRowOk(next, next.quotes[id]);
  }

  lemma QuoteStepRows(reg: Registry, db: Db, op: Op)
    requires QuoteOp(op)
    requires RowsOk(reg, db) && ApplyQuote(db, op).Some?
    ensures RowsOk(reg, ApplyQuote(db, op).value)
  {
    hide OrderChecks, TradeChecks, RfqChecks, QuoteChecks, ProvenanceDomain, QuoteAllowed, QuoteUpdateAllowed, QuoteIsNew;
    var next := ApplyQuote(db, op).value;
    assert forall id | id in next.rfqs :: RfqRowOk(next, next.rfqs[id]);
  }

  lemma QuoteStepAgreement(db: Db, op: Op)
    requires QuoteOp(op)
    requires AcceptedRfqsAgree(db) && SnapshotTruth(db) && ApplyQuote(db, op).Some?
    ensures var next := ApplyQuote(db, op).value;
            AcceptedRfqsAgree(next) && SnapshotTruth(next)
  {
    hide QuoteRowOk, QuoteIsNew, QuoteAllowed;
    var next := ApplyQuote(db, op).value;
    assert next.rfqs == db.rfqs && next.trades == db.trades && next.orgs == db.orgs;
    forall id | id in next.rfqs && IsAccepted(next, id) ensures AcceptedAgrees(next, id) {
      assert IsAccepted(db, id) && AcceptedAgrees(db, id);
      var q := db.rfqs[id].acceptedQuote.value;
      assert AcceptedSomewhere(db, q);
      assert q in next.quotes;
    }
  }

  lemma CatalogStep(reg: Registry, db: Db, op: Op)
    requires op.RecordApproval? || op.PutProduct? || op.PutPoint?
    requires Invariant(reg, db) && Apply(reg, db, op).Some?
    ensures Invariant(reg, Apply(reg, db, op).value)
  {
    hide OrderChecks, TradeChecks, RfqChecks, QuoteChecks, AcceptanceConsistent, ProvenanceDomain;
    var next := Apply(reg, db, op).value;
    assert forall id | id in next.trades :: TradeRowOk(reg, next, next.trades[id]);
    assert forall id | id in next.rfqs :: RfqRowOk(next, next.rfqs[id]);
  }

  /** No guarded statement breaks the invariant; each table's guards need the others' to hold. */
  lemma StepKeepsInvariant(reg: Registry, db: Db, op: Op)
    requires Invariant(reg, db)
    ensures Invariant(reg, Step(reg, db, op))
  {
    hide RowsOk, AcceptedRfqsAgree, SnapshotTruth, ApplyOrg, ApplyOrder, ApplyTrade, ApplyRfq, ApplyQuote;
    if Apply(reg, db, op).Some? {
      match op
      case InsertOrg(_, _) | UpdateOrg(_, _) | DeleteOrg(_) =>
        OrgStepRows(reg, db, op);
        OrgStepAgreement(reg, db, op);
      case InsertOrder(_, _) | UpdateOrder(_, _, _) | DeleteOrder(_) => OrderStep(reg, db, op);
      case InsertTrade(_, _) | UpdateTrade(_, _) | DeleteTrade(_) =>
        TradeStepRows(reg, db, op);
        TradeStepAgreement(reg, db, op);
      case InsertRfq(_, _) | UpdateRfq(_, _) | DeleteRfq(_) => RfqStep(reg, db, op);
      case InsertQuote(_, _) | UpdateQuote(_, _) | DeleteQuote(_) =>
        QuoteStepRows(reg, db, op);
        QuoteStepAgreement(db, op);
      case RecordApproval(_) | PutProduct(_, _) | PutPoint(_, _) => CatalogStep(reg, db, op);
    }
  }

  /** Main result: every reachable state keeps every constraint, accepted RFQs consistent,
      and versioned snapshots true. */
  lemma {:induction false} RunKeepsInvariant(reg: Registry, db: Db, ops: seq<Op>)
    requires Invariant(reg, db)
    ensures Invariant(reg, Run(reg, db, ops))
    decreases |ops|
  {
    hide Invariant, Step;
    if ops != [] {
      StepKeepsInvariant(reg, db, ops[0]);
      RunKeepsInvariant(reg, Step(reg, db, ops[0]), ops[1..]);
    }
  }

  lemma CheckedTrade(reg: Registry, t: Trade)
    requires TradeChecks(reg, t)
    ensures Bounded(t.core.quantity, 0.01, 100000.0, CENTS) && Bounded(t.core.price, 0.01, 1000000.0, CENTS)
    ensures t.feePerMt.Some? <==> t.plan.Some?
    ensures t.feePerMt.Some? ==>
      && Bounded(t.feePerMt, 0.0, 100000.0, CENTS) && t.plan in {Some(Free), Some(Standard), Some(Enterprise)}
      && t.core.commissionRate == Lit(0.0)
    ensures t.snapshotVersion.Some? ==>
      && t.snapshotVersion == Some(1) && t.slice.product.Some? && t.slice.point.Some?
      && t.slice.productName.Some? && !Blank(t.slice.productName.value)
      && t.slice.window.Some? && CanonicalWindow(t.slice.window.value)
  {
    TradeNumericIsExact(t);
    CommissionSnapshotIsExact(t);
    TradeSnapshotIsExact(reg, t);
    hide TradeDomain, TradeNumeric, TradeLifecycle, CommissionSnapshot, TradeSnapshot, Blank, CanonicalWindow;
  }

  /** Over every run: each trade is in range, has a fee exactly with a plan and then a rate of zero, and is complete
      if it is versioned. */
  lemma RunKeepsTradesWhole(reg: Registry, db: Db, ops: seq<Op>, id: Id)
    requires Invariant(reg, db) && id in Run(reg, db, ops).trades
    ensures var t := Run(reg, db, ops).trades[id];
            && Bounded(t.core.quantity, 0.01, 100000.0, CENTS) && Bounded(t.core.price, 0.01, 1000000.0, CENTS)
            && (t.feePerMt.Some? <==> t.plan.Some?)
            && (t.feePerMt.Some? ==>
                  && Bounded(t.feePerMt, 0.0, 100000.0, CENTS) && t.plan in {Some(Free), Some(Standard), Some(Enterprise)}
                  && t.core.commissionRate == Lit(0.0))
            && (t.snapshotVersion.Some? ==>
                  && t.snapshotVersion == Some(1) && t.slice.product.Some? && t.slice.point.Some?
                  && t.slice.productName.Some? && !Blank(t.slice.productName.value)
                  && t.slice.window.Some? && CanonicalWindow(t.slice.window.value))
  {
    RunKeepsInvariant(reg, db, ops);
    var last := Run(reg, db, ops);
    hide Run, OrderRowOk, RfqRowOk, QuoteRowOk, TradeChecks, AcceptedRfqsAgree, SnapshotTruth;
    assert TradeRowOk(reg, last, last.trades[id]);
    CheckedTrade(reg, last.trades[id]);
    hide *;
  }

  // ---------- properties that one kind of statement can break ----------

  /** No statement of the run that goes through, in the state it meets, has the given fault; what a guard
      refuses does not count. */
  predicate RunAvoids(reg: Registry, db: Db, ops: seq<Op>, fault: (Db, Op) -> bool)
    decreases |ops|
  {
    ops == [] || (!(Apply(reg, db, ops[0]).Some? && fault(db, ops[0]))
                  && RunAvoids(reg, Step(reg, db, ops[0]), ops[1..], fault))
  }

  /** From any sound state with the property, an accepted statement loses it exactly when it has the fault. */
  ghost predicate LostExactlyBy(reg: Registry, holds: Db -> bool, fault: (Db, Op) -> bool) {
    forall db, op | Invariant(reg, db) && holds(db) && Apply(reg, db, op).Some? ::
      holds(Apply(reg, db, op).value) <==> !fault(db, op)
  }

  /** The property holds after each of the first n statements, for every n. */
  ghost predicate HoldsThroughout(reg: Registry, db: Db, ops: seq<Op>, holds: Db -> bool) {
    forall n | 0 <= n <= |ops| :: holds(Run(reg, db, ops[..n]))
  }

  lemma ThroughoutIsStepwise(reg: Registry, db: Db, ops: seq<Op>, holds: Db -> bool)
    requires ops != []
    ensures HoldsThroughout(reg, db, ops, holds)
            <==> holds(db) && HoldsThroughout(reg, Step(reg, db, ops[0]), ops[1..], holds)
  {
    hide Step;
    var next, rest := Step(reg, db, ops[0]), ops[1..];
    forall n | 0 <= n <= |rest| ensures Run(reg, db, ops[..n + 1]) == Run(reg, next, rest[..n]) {
      assert ops[..n + 1][0] == ops[0] && ops[..n + 1][1..] == rest[..n];
    }
    assert Run(reg, db, ops[..0]) == db;
    hide Run;
    if HoldsThroughout(reg, db, ops, holds) {
      forall n | 0 <= n <= |rest| ensures holds(Run(reg, next, rest[..n])) {
        assert holds(Run(reg, db, ops[..n + 1]));
      }
      assert holds(Run(reg, db, ops[..0]));
    }
    if holds(db) && HoldsThroughout(reg, next, rest, holds) {
      forall n | 0 <= n <= |ops| ensures holds(Run(reg, db, ops[..n])) {
        if n > 0 { assert holds(Run(reg, next, rest[..n - 1])); }
      }
    }
  }

  /** Then over any run the property holds throughout if and only if no faulty statement goes through. */
  lemma {:induction false} RunIsExact(reg: Registry, db: Db, ops: seq<Op>, holds: Db -> bool, fault: (Db, Op) -> bool)
    requires LostExactlyBy(reg, holds, fault) && Invariant(reg, db) && holds(db)
    ensures RunAvoids(reg, db, ops, fault) <==> HoldsThroughout(reg, db, ops, holds)
    decreases |ops|
  {
    if ops == [] {
      assert ops[..0] == ops;
    } else {
      hide Invariant, Apply, HoldsThroughout;
      var next := Step(reg, db, ops[0]);
      ThroughoutIsStepwise(reg, db, ops, holds);
      StepKeepsInvariant(reg, db, ops[0]);
      if holds(next) {
        RunIsExact(reg, next, ops[1..], holds, fault);
      } else {
        NotThroughout(reg, next, ops[1..], holds);
      }
    }
  }

  lemma NotThroughout(reg: Registry, db: Db, ops: seq<Op>, holds: Db -> bool)
    requires !holds(db)
    ensures !HoldsThroughout(reg, db, ops, holds)
  {
    assert Run(reg, db, ops[..0]) == db;
  }

  // ---------- accepted RFQs ----------

  /** No quote is accepted by two RFQs. */
  lemma AcceptanceIsExclusive(reg: Registry, db: Db, i: Id, j: Id)
    requires Invariant(reg, db) && IsAccepted(db, i) && IsAccepted(db, j)
    requires db.rfqs[i].acceptedQuote == db.rfqs[j].acceptedQuote
    ensures i == j
  {
    hide TradeChecks, OrderChecks, RfqChecks, QuoteChecks;
    assert AcceptedAgrees(db, i) && AcceptedAgrees(db, j);
  }

  /** What an accepted RFQ stands for, column by column: an accepted quote of its own, and a trade of its buyer
      with that quote's seller on its product, delivery point and window. */
  lemma AcceptedRfqIsTraded(reg: Registry, db: Db, id: Id)
    requires Invariant(reg, db) && IsAccepted(db, id)
    ensures var r := db.rfqs[id];
            && r.acceptedQuote.Some? && r.acceptedQuote.value in db.quotes && r.trade.Some? && r.trade.value in db.trades
            && var q, t := db.quotes[r.acceptedQuote.value], db.trades[r.trade.value];
               && q.rfq == id && q.status == Some(QuoteAccepted)
               && t.core.buyer == r.core.buyer && t.core.seller == q.seller
               && t.slice.product == Some(r.core.product) && t.slice.point == r.core.point
               && t.slice.window == Some(r.core.window)
  {
    hide TradeChecks, OrderChecks, RfqChecks, QuoteChecks;
    assert AcceptedAgrees(db, id);
  }

  /** The buyer of an accepted RFQ is never its own seller: the trade constraint supplies
      what the quote trigger only checks when the quote itself is written. */
  lemma AcceptedPartiesDiffer(reg: Registry, db: Db, id: Id)
    requires Invariant(reg, db) && IsAccepted(db, id)
    ensures AcceptedAgrees(db, id) && db.quotes[db.rfqs[id].acceptedQuote.value].seller != db.rfqs[id].core.buyer
  {
    hide TradeChecks, OrderChecks, RfqChecks, QuoteChecks;
    assert AcceptedAgrees(db, id);
    var t := db.trades[db.rfqs[id].trade.value];
    assert TradeRowOk(reg, db, t);
    VersionedTradeParties(reg, t);
  }

  /** Before acceptance nothing re-checks the quotes when the buyer of an RFQ changes:
      every RFQ that is not accepted can be moved to the seller of one of its quotes. */
  lemma OpenRfqCanMoveToItsQuoter(reg: Registry, db: Db, quote: Id)
    requires Invariant(reg, db) && quote in db.quotes && !IsAccepted(db, db.quotes[quote].rfq)
    ensures var q := db.quotes[quote];
            var r := db.rfqs[q.rfq];
            var moved := r.(core := r.core.(buyer := q.seller));
            Apply(reg, db, UpdateRfq(q.rfq, moved)) == Some(db.(rfqs := db.rfqs[q.rfq := moved]))
  {
    hide TradeRowOk, OrderRowOk, QuoteChecks, AcceptedRfqsAgree, SnapshotTruth, RfqChecks;
    assert QuoteRowOk(db, db.quotes[quote]);
    var r := db.rfqs[db.quotes[quote].rfq];
    assert RfqRowOk(db, r);
    BuyerIsUnchecked(r, db.quotes[quote].seller);
  }

  /** Every quote belongs to an RFQ and comes from somebody other than its buyer. */
  predicate QuotesFromOthers(db: Db) {
    forall q | q in db.quotes :: QuoteAllowed(db, db.quotes[q])
  }

  /** An RFQ is handed to the seller of one of its own quotes. */
  predicate MovesBuyerToQuoter(db: Db, op: Op) {
    op.UpdateRfq? && exists q | q in db.quotes :: db.quotes[q].rfq == op.id && db.quotes[q].seller == op.rfq.core.buyer
  }

  /** The quotes of one RFQ. */
  predicate RfqQuotesFromOthers(db: Db, id: Id) {
    forall q | q in db.quotes && db.quotes[q].rfq == id :: QuoteAllowed(db, db.quotes[q])
  }

  lemma RfqQuoteStep(reg: Registry, db: Db, op: Op, id: Id)
    requires RfqQuotesFromOthers(db, id) && Apply(reg, db, op).Some?
    ensures RfqQuotesFromOthers(Apply(reg, db, op).value, id) <==> !(MovesBuyerToQuoter(db, op) && op.id == id)
  {
    hide ApplyOrg, ApplyOrder, ApplyTrade, RfqRowOk, RfqAllowed, QuoteRowOk, QuoteIsNew, AcceptedSomewhere;
    StatementFrame(reg, db, op);
    var next := Apply(reg, db, op).value;
    if MovesBuyerToQuoter(db, op) && op.id == id {
      var q :| q in db.quotes && db.quotes[q].rfq == op.id && db.quotes[q].seller == op.rfq.core.buyer;
      assert !QuoteAllowed(next, next.quotes[q]);
    } else {
      forall q | q in next.quotes && next.quotes[q].rfq == id ensures QuoteAllowed(next, next.quotes[q]) {
        assert q in db.quotes && db.quotes[q].rfq == id ==> QuoteAllowed(db, db.quotes[q]);
      }
    }
  }

  lemma QuotesByRfq(db: Db)
    ensures QuotesFromOthers(db) <==> forall id :: RfqQuotesFromOthers(db, id)
  {
    if forall id :: RfqQuotesFromOthers(db, id) {
      forall q | q in db.quotes ensures QuoteAllowed(db, db.quotes[q]) {
        assert RfqQuotesFromOthers(db, db.quotes[q].rfq);
      }
    }
  }

  /** That is the only accepted statement that can make a quote its own RFQ's buyer's. */
  lemma QuoteStep(reg: Registry, db: Db, op: Op)
    requires QuotesFromOthers(db) && Apply(reg, db, op).Some?
    ensures QuotesFromOthers(Apply(reg, db, op).value) <==> !MovesBuyerToQuoter(db, op)
  {
    var next := Apply(reg, db, op).value;
    hide *;
    QuotesByRfq(db);
    QuotesByRfq(next);
    forall id ensures RfqQuotesFromOthers(next, id) <==> !(MovesBuyerToQuoter(db, op) && op.id == id) {
      RfqQuoteStep(reg, db, op, id);
    }
  }

  function SeparateQuotesOf(id: Id): Db -> bool { (db: Db) => RfqQuotesFromOthers(db, id) }

  function QuoterFaultOf(id: Id): (Db, Op) -> bool { (db: Db, op: Op) => MovesBuyerToQuoter(db, op) && op.id == id }

  /** Whatever happens to other RFQs, the quotes of an RFQ come from others than its buyer throughout a run if
      and only if no such statement for this RFQ goes through. */
  lemma RunKeepsQuotesFromOthers(reg: Registry, db: Db, ops: seq<Op>, id: Id)
    requires Invariant(reg, db) && RfqQuotesFromOthers(db, id)
    ensures RunAvoids(reg, db, ops, QuoterFaultOf(id)) <==> HoldsThroughout(reg, db, ops, SeparateQuotesOf(id))
  {
    forall d, op | Invariant(reg, d) && SeparateQuotesOf(id)(d) && Apply(reg, d, op).Some?
      ensures SeparateQuotesOf(id)(Apply(reg, d, op).value) <==> !QuoterFaultOf(id)(d, op)
    {
      RfqQuoteStep(reg, d, op, id);
    }
    assert SeparateQuotesOf(id)(db);
    hide Invariant, Apply, SeparateQuotesOf, QuoterFaultOf;
    RunIsExact(reg, db, ops, SeparateQuotesOf(id), QuoterFaultOf(id));
  }

  lemma BuyerIsUnchecked(r: Rfq, buyer: Id)
    ensures RfqChecks(r.(core := r.core.(buyer := buyer))) <==> RfqChecks(r)
  {}

  /** The price of the trade is the price of the quote and its quantity is within the RFQ. */
  predicate TermsAgree(db: Db, id: Id)
    requires id in db.rfqs && AcceptedAgrees(db, id)
  {
    var t := db.trades[db.rfqs[id].trade.value];
    && t.core.price == db.quotes[db.rfqs[id].acceptedQuote.value].price
    && !Gt(t.core.quantity, db.rfqs[id].core.quantity).Selected()
  }

  /** An update that changes the economics of the trade behind the RFQ. */
  predicate RepricesTradeOf(db: Db, id: Id, op: Op)
    requires id in db.rfqs && AcceptedAgrees(db, id)
  {
    && op.UpdateTrade? && Some(op.id) == db.rfqs[id].trade
    && (|| op.trade.core.price != db.quotes[db.rfqs[id].acceptedQuote.value].price
        || Gt(op.trade.core.quantity, db.rfqs[id].core.quantity).Selected())
  }

  /** An accepting statement goes through only with a consistent quote and trade on agreed terms. */
  lemma AcceptanceFixesTerms(reg: Registry, db: Db, op: Op)
    requires Invariant(reg, db) && (op.InsertRfq? || op.UpdateRfq?) && op.rfq.core.status == Some(RfqAccepted)
    requires Apply(reg, db, op).Some?
    ensures var next := Apply(reg, db, op).value;
            IsAccepted(next, op.id) && AcceptedAgrees(next, op.id) && TermsAgree(next, op.id)
  {
    hide TradeChecks, OrderChecks, RfqChecks, QuoteChecks;
  }

  lemma TermsAfterRfqOp(db: Db, op: Op, id: Id)
    requires RfqOp(op) && ApplyRfq(db, op).Some? && IsAccepted(db, id) && AcceptedAgrees(db, id) && TermsAgree(db, id)
    requires IsAccepted(ApplyRfq(db, op).value, id) && AcceptedAgrees(ApplyRfq(db, op).value, id)
    ensures TermsAgree(ApplyRfq(db, op).value, id)
  {
    hide RfqRowOk, AcceptanceConsistent, RfqReferenced;
  }

  lemma TermsAfterQuoteOp(db: Db, op: Op, id: Id)
    requires QuoteOp(op) && ApplyQuote(db, op).Some? && IsAccepted(db, id) && AcceptedAgrees(db, id) && TermsAgree(db, id)
    requires AcceptedAgrees(ApplyQuote(db, op).value, id)
    ensures TermsAgree(ApplyQuote(db, op).value, id)
  {
    hide QuoteRowOk, QuoteAllowed, QuoteIsNew, AcceptanceConsistent, QuoteReferenced;
    assert AcceptedSomewhere(db, db.rfqs[id].acceptedQuote.value);
  }

  lemma TermsAfterTradeOp(reg: Registry, db: Db, op: Op, id: Id)
    requires TradeOp(op) && ApplyTrade(reg, db, op).Some?
    requires IsAccepted(db, id) && AcceptedAgrees(db, id) && TermsAgree(db, id)
    requires AcceptedAgrees(ApplyTrade(reg, db, op).value, id)
    ensures TermsAgree(ApplyTrade(reg, db, op).value, id) <==> !RepricesTradeOf(db, id, op)
  {
    hide TradeInsertAllowed, TradeRowOk, Frozen, TradeReferenced, AcceptanceConsistent;
  }

  lemma ApplyByTable(reg: Registry, db: Db, op: Op)
    ensures TradeOp(op) ==> Apply(reg, db, op) == ApplyTrade(reg, db, op)
    ensures RfqOp(op) ==> Apply(reg, db, op) == ApplyRfq(db, op) && !TradeOp(op)
    ensures QuoteOp(op) ==> Apply(reg, db, op) == ApplyQuote(db, op) && !TradeOp(op)
  {
    hide ApplyOrg, ApplyOrder, ApplyTrade, ApplyRfq, ApplyQuote;
  }

  lemma OnlyTradeOpsReprice(db: Db, op: Op, id: Id)
    requires id in db.rfqs && AcceptedAgrees(db, id) && !TradeOp(op)
    ensures !RepricesTradeOf(db, id, op)
  {}

  lemma SameTablesSameTerms(a: Db, b: Db, id: Id)
    requires a.rfqs == b.rfqs && a.quotes == b.quotes && a.trades == b.trades
    requires id in a.rfqs && AcceptedAgrees(a, id) && AcceptedAgrees(b, id)
    ensures TermsAgree(a, id) <==> TermsAgree(b, id)
  {}

  lemma AcceptedStaysAgreed(reg: Registry, db: Db, op: Op, id: Id)
    requires Invariant(reg, db) && Apply(reg, db, op).Some? && IsAccepted(Apply(reg, db, op).value, id)
    ensures AcceptedAgrees(Apply(reg, db, op).value, id)
  {
    hide Apply, RowsOk, SnapshotTruth, AcceptedAgrees;
    StepKeepsInvariant(reg, db, op);
  }

  /** Agreement on price and quantity is established by acceptance but not frozen:
      while the RFQ stays accepted it is lost exactly when the trade itself is repriced. */
  lemma TermsDriftOnlyByRepricing(reg: Registry, db: Db, op: Op, id: Id)
    requires Invariant(reg, db) && IsAccepted(db, id) && AcceptedAgrees(db, id) && TermsAgree(db, id)
    requires Apply(reg, db, op).Some? && IsAccepted(Apply(reg, db, op).value, id)
    ensures var next := Apply(reg, db, op).value;
            AcceptedAgrees(next, id) && (TermsAgree(next, id) <==> !RepricesTradeOf(db, id, op))
  {
    hide Invariant, TermsAgree, AcceptedAgrees, Apply;
    var next := Apply(reg, db, op).value;
    StatementFrame(reg, db, op);
    AcceptedStaysAgreed(reg, db, op, id);
    ApplyByTable(reg, db, op);
    if !TradeOp(op) { OnlyTradeOpsReprice(db, op, id); }
    hide *;
    if RfqOp(op) {
      TermsAfterRfqOp(db, op, id);
    } else if QuoteOp(op) {
      TermsAfterQuoteOp(db, op, id);
    } else if TradeOp(op) {
      TermsAfterTradeOp(reg, db, op, id);
    } else {
      SameTablesSameTerms(db, next, id);
    }
  }

  /** The trade behind any accepted RFQ can be set to any price in range. */
  lemma AcceptedTradeCanBeRepriced(reg: Registry, db: Db, id: Id, price: Option<Numeric>)
    requires Invariant(reg, db) && IsAccepted(db, id) && RequiredNumeric(price, 0.01, 1000000.0, CENTS).IsTrue?
    ensures AcceptedAgrees(db, id)
    ensures var trade := db.rfqs[id].trade.value;
            var repriced := db.trades[trade].(core := db.trades[trade].core.(price := price));
            var next := db.(trades := db.trades[trade := repriced]);
            && Apply(reg, db, UpdateTrade(trade, repriced)) == Some(next)
            && AcceptedAgrees(next, id)
            && (price != db.quotes[db.rfqs[id].acceptedQuote.value].price ==> !TermsAgree(next, id))
  {
    var trade := AcceptedTrade(reg, db, id);
    RepricedStillAgrees(db, id, price);
    hide *;
    TradeCanBeRepriced(reg, db, trade, price);
  }

  lemma AcceptedTrade(reg: Registry, db: Db, id: Id) returns (trade: Id)
    requires Invariant(reg, db) && IsAccepted(db, id)
    ensures AcceptedAgrees(db, id) && db.rfqs[id].trade == Some(trade) && TradeRowOk(reg, db, db.trades[trade])
  {
    hide TradeRowOk, OrderRowOk, RfqRowOk, QuoteRowOk, SnapshotTruth;
    assert AcceptedAgrees(db, id);
    trade := db.rfqs[id].trade.value;
  }

  lemma RepricedStillAgrees(db: Db, id: Id, price: Option<Numeric>)
    requires id in db.rfqs && AcceptedAgrees(db, id)
    ensures var trade := db.rfqs[id].trade.value;
            var next := db.(trades := db.trades[trade := db.trades[trade].(core := db.trades[trade].core.(price := price))]);
            && AcceptedAgrees(next, id)
            && (price != db.quotes[db.rfqs[id].acceptedQuote.value].price ==> !TermsAgree(next, id))
  {}

  lemma TradeCanBeRepriced(reg: Registry, db: Db, id: Id, price: Option<Numeric>)
    requires id in db.trades && TradeRowOk(reg, db, db.trades[id])
    requires RequiredNumeric(price, 0.01, 1000000.0, CENTS).IsTrue?
    ensures var repriced := db.trades[id].(core := db.trades[id].core.(price := price));
            Apply(reg, db, UpdateTrade(id, repriced)) == Some(db.(trades := db.trades[id := repriced]))
  {
    var t := db.trades[id];
    var repriced := t.(core := t.core.(price := price));
    RepricedRow(reg, db, t, price);
    hide *;
    UpdateGoesThrough(reg, db, id, repriced);
  }

  lemma RepricedRow(reg: Registry, db: Db, t: Trade, price: Option<Numeric>)
    requires TradeRowOk(reg, db, t) && RequiredNumeric(price, 0.01, 1000000.0, CENTS).IsTrue?
    ensures var repriced := t.(core := t.core.(price := price)); TradeRowOk(reg, db, repriced) && Frozen(t, repriced)
  {
    PriceIsOnlyRangeChecked(reg, t, price);
    hide TradeChecks, RequiredNumeric;
  }

  lemma UpdateGoesThrough(reg: Registry, db: Db, id: Id, t: Trade)
    requires id in db.trades && Frozen(db.trades[id], t) && TradeRowOk(reg, db, t)
    ensures Apply(reg, db, UpdateTrade(id, t)) == Some(db.(trades := db.trades[id := t]))
  {
    hide TradeRowOk, Frozen, TradeInsertAllowed, ApplyOrg, ApplyOrder, ApplyRfq, ApplyQuote;
  }

  lemma PriceIsOnlyRangeChecked(reg: Registry, t: Trade, price: Option<Numeric>)
    requires TradeChecks(reg, t) && RequiredNumeric(price, 0.01, 1000000.0, CENTS).IsTrue?
    ensures TradeChecks(reg, t.(core := t.core.(price := price)))
  {
    hide RequiredNumeric, OptionalNumeric;
  }

  predicate KeepsTerms(db: Db, id: Id) { IsAccepted(db, id) ==> AcceptedAgrees(db, id) && TermsAgree(db, id) }

  predicate Reprices(db: Db, op: Op, id: Id) {
    IsAccepted(db, id) && AcceptedAgrees(db, id) && RepricesTradeOf(db, id, op)
  }

  lemma TermsStep(reg: Registry, db: Db, op: Op, id: Id)
    requires Invariant(reg, db) && KeepsTerms(db, id) && Apply(reg, db, op).Some?
    ensures KeepsTerms(Apply(reg, db, op).value, id) <==> !Reprices(db, op, id)
  {
    var next := Apply(reg, db, op).value;
    NewlyAccepted(reg, db, op, id);
    if IsAccepted(db, id) && IsAccepted(next, id) {
      TermsDriftOnlyByRepricing(reg, db, op, id);
    } else if IsAccepted(next, id) {
      AcceptanceFixesTerms(reg, db, op);
    }
    hide Invariant, Apply, TermsAgree, AcceptedAgrees;
  }

  /** Only a statement on the RFQ itself makes it accepted, and an update of a trade leaves its status alone. */
  lemma NewlyAccepted(reg: Registry, db: Db, op: Op, id: Id)
    requires Apply(reg, db, op).Some?
    ensures var next := Apply(reg, db, op).value;
            && (IsAccepted(next, id) && !IsAccepted(db, id) ==>
                  (op.InsertRfq? || op.UpdateRfq?) && op.id == id && op.rfq.core.status == Some(RfqAccepted))
            && (op.UpdateTrade? ==> (IsAccepted(next, id) <==> IsAccepted(db, id)))
  {
    hide ApplyOrg, ApplyOrder, ApplyTrade, ApplyQuote, RfqAllowed, RfqRowOk;
    StatementFrame(reg, db, op);
  }

  function TermsOf(id: Id): Db -> bool { (db: Db) => KeepsTerms(db, id) }

  function RepricingOf(id: Id): (Db, Op) -> bool { (db: Db, op: Op) => Reprices(db, op, id) }

  /** An RFQ is on agreed terms whenever it is accepted, throughout a run, if and only if no statement that
      goes through reprices the trade behind it. */
  lemma RunKeepsTerms(reg: Registry, db: Db, ops: seq<Op>, id: Id)
    requires Invariant(reg, db) && KeepsTerms(db, id)
    ensures RunAvoids(reg, db, ops, RepricingOf(id)) <==> HoldsThroughout(reg, db, ops, TermsOf(id))
  {
    forall d, op | Invariant(reg, d) && TermsOf(id)(d) && Apply(reg, d, op).Some?
      ensures TermsOf(id)(Apply(reg, d, op).value) <==> !RepricingOf(id)(d, op)
    {
      TermsStep(reg, d, op, id);
    }
    assert TermsOf(id)(db);
    hide Invariant, Apply, TermsOf, RepricingOf;
    RunIsExact(reg, db, ops, TermsOf(id), RepricingOf(id));
  }

  // ---------- orders follow their organization ----------

  /** Every order that is neither cancelled nor expired carries its organization's provenance. */
  predicate OrdersTrackOwners(db: Db) {
    forall id | id in db.orders :: !Resolved(db.orders[id]) ==> OrderMatchesOwner(db, db.orders[id])
  }

  /** A cancelled or expired order with an outdated provenance comes back to life. */
  predicate RevivesStaleOrder(db: Db, op: Op) {
    && op.UpdateOrder? && op.id in db.orders && Resolved(db.orders[op.id])
    && !Resolved(op.order) && !OrderMatchesOwner(db, op.order)
  }

  /** An operator rewrites the provenance of an organization that still has live UNKNOWN orders. */
  predicate ReclassifiesOverOrders(db: Db, op: Op) {
    && op.UpdateOrg? && op.id in db.orgs && op.org.provenance != db.orgs[op.id].provenance
    && BlocksApproval(db, op.id)
  }

  predicate BreaksTracking(db: Db, op: Op) { RevivesStaleOrder(db, op) || ReclassifiesOverOrders(db, op) }

  lemma OrderHasStatus(o: Order)
    requires OrderChecks(o)
    ensures o.core.status.Some?
  {
    hide OrderNumeric, OrderLifecycle;
  }

  lemma TrackingAfterOrgOp(reg: Registry, db: Db, op: Op)
    requires OrgOp(op) && OrdersTrackOwners(db) && ApplyOrg(reg, db, op).Some?
    requires forall id | id in db.orders :: db.orders[id].core.org in db.orgs && db.orders[id].core.status.Some?
    ensures OrdersTrackOwners(ApplyOrg(reg, db, op).value) <==> !ReclassifiesOverOrders(db, op)
  {
    hide OrgInsertAllowed, ProvenanceDomain;
    var next := ApplyOrg(reg, db, op).value;
    if ReclassifiesOverOrders(db, op) {
      var o :| o in db.orders && db.orders[o].core.org == op.id
               && db.orders[o].provenance == Unknown && !Resolved(db.orders[o]);
      assert !OrderMatchesOwner(next, next.orders[o]);
    } else {
      forall o | o in next.orders && !Resolved(next.orders[o]) ensures OrderMatchesOwner(next, next.orders[o]) {
        assert OrderMatchesOwner(db, db.orders[o]);
      }
    }
  }

  lemma TrackingAfterOrderOp(db: Db, op: Op)
    requires OrderOp(op) && OrdersTrackOwners(db) && ApplyOrder(db, op).Some?
    ensures OrdersTrackOwners(ApplyOrder(db, op).value) <==> !RevivesStaleOrder(db, op)
  {
    hide OrderRowOk, OrderReferenced;
    var next := ApplyOrder(db, op).value;
    if RevivesStaleOrder(db, op) {
      assert !OrderMatchesOwner(next, next.orders[op.id]);
    }
  }

  /** Exactly two kinds of accepted statement can separate an order from its organization. */
  lemma TrackingStep(reg: Registry, db: Db, op: Op)
    requires Invariant(reg, db) && OrdersTrackOwners(db) && Apply(reg, db, op).Some?
    ensures OrdersTrackOwners(Apply(reg, db, op).value) <==> !BreaksTracking(db, op)
  {
    hide TradeRowOk, RfqRowOk, QuoteRowOk, OrderChecks, ProvenanceDomain, AcceptedRfqsAgree, SnapshotTruth,
         ApplyOrg, ApplyOrder, ApplyTrade, ApplyRfq, ApplyQuote, BlocksApproval;
    StatementFrame(reg, db, op);
    if OrgOp(op) {
      forall id | id in db.orders ensures db.orders[id].core.org in db.orgs && db.orders[id].core.status.Some? {
        assert OrderRowOk(db, db.orders[id]);
        OrderHasStatus(db.orders[id]);
      }
      TrackingAfterOrgOp(reg, db, op);
    } else if OrderOp(op) {
      TrackingAfterOrderOp(db, op);
    }
  }

  /** An approved organization can be set to REAL by hand whatever live orders still say UNKNOWN. */
  lemma ApprovedOrgCanBeReclassified(reg: Registry, db: Db, id: Id)
    requires id in db.orgs && id in db.approvals
    requires db.orgs[id].provenance == Unknown && db.orgs[id].verification == Approved
    ensures var next := db.(orgs := db.orgs[id := db.orgs[id].(provenance := Real)]);
            && Apply(reg, db, UpdateOrg(id, db.orgs[id].(provenance := Real))) == Some(next)
            && (BlocksApproval(db, id) ==> !OrdersTrackOwners(next))
  {
    var next := db.(orgs := db.orgs[id := db.orgs[id].(provenance := Real)]);
    if BlocksApproval(db, id) {
      var o :| o in db.orders && db.orders[o].core.org == id && db.orders[o].provenance == Unknown && !Resolved(db.orders[o]);
      assert !OrderMatchesOwner(next, next.orders[o]);
    }
  }

  /** A cancelled or expired order that nobody filled can be reopened, however outdated its provenance. */
  lemma ResolvedOrderCanBeReopened(reg: Registry, db: Db, id: Id)
    requires Invariant(reg, db) && id in db.orders && Resolved(db.orders[id])
    requires db.orders[id].provenance != Demo && db.orders[id].core.remaining == db.orders[id].core.quantity
    ensures var reopened := db.orders[id].(core := db.orders[id].core.(status := Some(Open)));
            var next := db.(orders := db.orders[id := reopened]);
            && Apply(reg, db, UpdateOrder(id, reopened, false)) == Some(next)
            && (!OrderMatchesOwner(db, db.orders[id]) ==> !OrdersTrackOwners(next))
  {
    hide TradeRowOk, RfqRowOk, QuoteRowOk, AcceptedRfqsAgree, SnapshotTruth, OrderChecks,
         ApplyOrg, ApplyTrade, ApplyRfq, ApplyQuote;
    var o := db.orders[id];
    assert OrderRowOk(db, o);
    hide Invariant;
    var reopened := o.(core := o.core.(status := Some(Open)));
    ReopenedOrderChecks(o);
    var next := db.(orders := db.orders[id := reopened]);
    assert id in next.orders && !Resolved(next.orders[id]);
    assert !OrderMatchesOwner(db, o) ==> !OrderMatchesOwner(next, next.orders[id]);
  }

  lemma ReopenedOrderChecks(o: Order)
    requires OrderChecks(o) && o.provenance != Demo && o.core.remaining == o.core.quantity
    ensures OrderChecks(o.(core := o.core.(status := Some(Open))))
  {
    hide RequiredNumeric, OptionalNumeric;
  }

  /** Unresolved orders follow their organizations throughout a run if and only if no such statement goes
      through. */
  lemma RunKeepsTracking(reg: Registry, db: Db, ops: seq<Op>)
    requires Invariant(reg, db) && OrdersTrackOwners(db)
    ensures RunAvoids(reg, db, ops, BreaksTracking) <==> HoldsThroughout(reg, db, ops, OrdersTrackOwners)
  {
    forall d, op | Invariant(reg, d) && OrdersTrackOwners(d) && Apply(reg, d, op).Some?
      ensures OrdersTrackOwners(Apply(reg, d, op).value) <==> !BreaksTracking(d, op)
    {
      TrackingStep(reg, d, op);
    }
    hide Invariant, OrdersTrackOwners, BreaksTracking, Apply;
    RunIsExact(reg, db, ops, OrdersTrackOwners, BreaksTracking);
  }

  predicate OrderTracks(db: Db, id: Id) {
    id in db.orders && !Resolved(db.orders[id]) ==> OrderMatchesOwner(db, db.orders[id])
  }

  /** The two kinds of statement, aimed at this order or at its organization while the order is live. */
  predicate BreaksTrackingOf(db: Db, op: Op, id: Id) {
    || (RevivesStaleOrder(db, op) && op.id == id)
    || (&& op.UpdateOrg? && op.id in db.orgs && op.org.provenance != db.orgs[op.id].provenance
        && id in db.orders && db.orders[id].core.org == op.id && !Resolved(db.orders[id]))
  }

  lemma OrderTrackingStep(reg: Registry, db: Db, op: Op, id: Id)
    requires Invariant(reg, db) && OrderTracks(db, id) && Apply(reg, db, op).Some?
    ensures OrderTracks(Apply(reg, db, op).value, id) <==> !BreaksTrackingOf(db, op, id)
  {
    hide TradeRowOk, RfqRowOk, QuoteRowOk, OrderChecks, ProvenanceDomain, AcceptedRfqsAgree, SnapshotTruth,
         ApplyTrade, ApplyRfq, ApplyQuote, OrgInsertAllowed;
    StatementFrame(reg, db, op);
    if id in db.orders {
      assert OrderRowOk(db, db.orders[id]);
      OrderHasStatus(db.orders[id]);
    }
    if OrgOp(op) {
      hide OrderRowOk;
      OrderTrackingAfterOrgOp(reg, db, op, id);
    } else if OrderOp(op) {
      hide OrderRowOk, OrderReferenced;
    }
  }

  lemma OrderTrackingAfterOrgOp(reg: Registry, db: Db, op: Op, id: Id)
    requires OrgOp(op) && ApplyOrg(reg, db, op).Some? && OrderTracks(db, id)
    requires id in db.orders ==> db.orders[id].core.org in db.orgs && db.orders[id].core.status.Some?
    ensures OrderTracks(ApplyOrg(reg, db, op).value, id) <==> !BreaksTrackingOf(db, op, id)
  {
    hide OrgInsertAllowed, ProvenanceDomain;
  }

  function TracksOf(id: Id): Db -> bool { (db: Db) => OrderTracks(db, id) }

  function TrackingFaultOf(id: Id): (Db, Op) -> bool { (db: Db, op: Op) => BreaksTrackingOf(db, op, id) }

  /** Whatever happens to other orders and organizations, an order tracks its own throughout a run if and only
      if no such statement goes through for it. */
  lemma OrderKeepsTracking(reg: Registry, db: Db, ops: seq<Op>, id: Id)
    requires Invariant(reg, db) && OrderTracks(db, id)
    ensures RunAvoids(reg, db, ops, TrackingFaultOf(id)) <==> HoldsThroughout(reg, db, ops, TracksOf(id))
  {
    forall d, op | Invariant(reg, d) && TracksOf(id)(d) && Apply(reg, d, op).Some?
      ensures TracksOf(id)(Apply(reg, d, op).value) <==> !TrackingFaultOf(id)(d, op)
    {
      OrderTrackingStep(reg, d, op, id);
    }
    assert TracksOf(id)(db);
    hide Invariant, Apply, TracksOf, TrackingFaultOf;
    RunIsExact(reg, db, ops, TracksOf(id), TrackingFaultOf(id));
  }

  /** The statement never goes through in the run. */
  predicate NeverApplied(reg: Registry, db: Db, ops: seq<Op>, op: Op)
    decreases |ops|
  {
    ops == [] || (!(ops[0] == op && Apply(reg, db, op).Some?) && NeverApplied(reg, Step(reg, db, ops[0]), ops[1..], op))
  }

  // ---------- trades and the slices of their orders ----------

  predicate SliceMatches(db: Db, s: MarketSlice, link: Option<Id>) {
    link.Some? ==>
      && link.value in db.orders
      && var o := db.orders[link.value].core;
         s.product == Some(o.product) && s.point == o.point && s.window == o.window
  }

  predicate SliceMatchesLinks(db: Db, t: Trade) {
    SliceMatches(db, t.slice, t.core.bidOrder) && SliceMatches(db, t.slice, t.core.askOrder)
  }

  predicate TradesMatchOrders(db: Db) {
    forall id | id in db.trades :: SliceMatchesLinks(db, db.trades[id])
  }

  /** The insert trigger compares the slice with the catalog, never with the linked orders. */
  predicate InsertsMislinkedTrade(db: Db, op: Op) { op.InsertTrade? && !SliceMatchesLinks(db, op.trade) }

  lemma LinkedOrdersKeepTheirSlice(reg: Registry, db: Db, op: Op, s: MarketSlice, link: Option<Id>)
    requires Apply(reg, db, op).Some? && SliceMatches(db, s, link)
    requires link.Some? && OrderOp(op) ==> OrderReferenced(db, link.value)
    ensures SliceMatches(Apply(reg, db, op).value, s, link)
  {
    hide ApplyOrg, ApplyTrade, ApplyRfq, ApplyQuote, OrderRowOk, OrderMatchesOwner, OrderReferenced;
    StatementFrame(reg, db, op);
  }

  /** Exactly one kind of accepted statement can separate a trade from the slice of its orders. */
  lemma SliceStep(reg: Registry, db: Db, op: Op)
    requires TradesMatchOrders(db) && Apply(reg, db, op).Some?
    ensures TradesMatchOrders(Apply(reg, db, op).value) <==> !InsertsMislinkedTrade(db, op)
  {
    hide ApplyOrg, ApplyOrder, ApplyRfq, ApplyQuote, SliceMatches, TradeInsertAllowed, TradeRowOk;
    StatementFrame(reg, db, op);
    var next := Apply(reg, db, op).value;
    if TradeOp(op) {
      forall s, link ensures SliceMatches(next, s, link) <==> SliceMatches(db, s, link) {
        SliceDependsOnOrders(db, next, s, link);
      }
      assert op.InsertTrade? ==>
        next.trades[op.id] == op.trade && forall t | t in db.trades :: next.trades[t] == db.trades[t];
    } else {
      forall t | t in next.trades ensures SliceMatchesLinks(next, next.trades[t]) {
        assert SliceMatchesLinks(db, db.trades[t]);
        LinkedOrdersKeepTheirSlice(reg, db, op, db.trades[t].slice, db.trades[t].core.bidOrder);
        LinkedOrdersKeepTheirSlice(reg, db, op, db.trades[t].slice, db.trades[t].core.askOrder);
      }
    }
  }

  lemma SliceDependsOnOrders(a: Db, b: Db, s: MarketSlice, link: Option<Id>)
    requires a.orders == b.orders
    ensures SliceMatches(a, s, link) <==> SliceMatches(b, s, link)
  {}

  /** An accepted trade insert stays accepted with any existing order as its bid. */
  lemma TradeCanBeInsertedOnAnyBid(reg: Registry, db: Db, id: Id, t: Trade, bid: Id)
    requires Apply(reg, db, InsertTrade(id, t)).Some? && bid in db.orders
    ensures var linked := t.(core := t.core.(bidOrder := Some(bid)));
            var next := db.(trades := db.trades[id := linked]);
            && Apply(reg, db, InsertTrade(id, linked)) == Some(next)
            && (!SliceMatches(db, t.slice, Some(bid)) ==> !TradesMatchOrders(next))
  {
    hide TradeNumeric, TradeSnapshot, CommissionSnapshot, OrderRowOk;
    var linked := t.(core := t.core.(bidOrder := Some(bid)));
    var next := db.(trades := db.trades[id := linked]);
    BidIsUnchecked(reg, t, Some(bid));
    hide TradeChecks;
    assert !SliceMatches(db, t.slice, Some(bid)) ==> !SliceMatchesLinks(next, next.trades[id]);
  }

  lemma BidIsUnchecked(reg: Registry, t: Trade, bid: Option<Id>)
    ensures TradeChecks(reg, t.(core := t.core.(bidOrder := bid))) <==> TradeChecks(reg, t)
  {
    hide RequiredNumeric, OptionalNumeric;
  }

  /** Trades agree with their orders throughout a run if and only if no such insert goes through. */
  lemma RunKeepsSlices(reg: Registry, db: Db, ops: seq<Op>)
    requires Invariant(reg, db) && TradesMatchOrders(db)
    ensures RunAvoids(reg, db, ops, InsertsMislinkedTrade) <==> HoldsThroughout(reg, db, ops, TradesMatchOrders)
  {
    forall d, op | Invariant(reg, d) && TradesMatchOrders(d) && Apply(reg, d, op).Some?
      ensures TradesMatchOrders(Apply(reg, d, op).value) <==> !InsertsMislinkedTrade(d, op)
    {
      SliceStep(reg, d, op);
    }
    hide Invariant, TradesMatchOrders, InsertsMislinkedTrade, Apply;
    RunIsExact(reg, db, ops, TradesMatchOrders, InsertsMislinkedTrade);
  }

  lemma TradeSliceStep(reg: Registry, db: Db, op: Op, id: Id)
    requires id in db.trades && SliceMatchesLinks(db, db.trades[id])
    requires !(op == DeleteTrade(id) && Apply(reg, db, op).Some?)
    ensures var next := Step(reg, db, op);
            id in next.trades && SliceMatchesLinks(next, next.trades[id])
  {
    TradeStepIsFrozen(reg, db, op, id);
    if Apply(reg, db, op).Some? {
      var next, t := Apply(reg, db, op).value, db.trades[id];
      StatementFrame(reg, db, op);
      hide Apply, SliceMatches, OrderReferenced;
      if OrderOp(op) {
        assert t.core.bidOrder.Some? ==> OrderReferenced(db, t.core.bidOrder.value) by { LinkIsReference(db, id); }
        assert t.core.askOrder.Some? ==> OrderReferenced(db, t.core.askOrder.value) by { LinkIsReference(db, id); }
        LinkedOrdersKeepTheirSlice(reg, db, op, t.slice, t.core.bidOrder);
        LinkedOrdersKeepTheirSlice(reg, db, op, t.slice, t.core.askOrder);
      } else {
        SliceDependsOnOrders(db, next, t.slice, t.core.bidOrder);
        SliceDependsOnOrders(db, next, t.slice, t.core.askOrder);
      }
    }
  }

  lemma LinkIsReference(db: Db, id: Id)
    requires id in db.trades
    ensures db.trades[id].core.bidOrder.Some? ==> OrderReferenced(db, db.trades[id].core.bidOrder.value)
    ensures db.trades[id].core.askOrder.Some? ==> OrderReferenced(db, db.trades[id].core.askOrder.value)
  {}

  /** Whatever else a run does, a trade that agrees with its linked orders goes on agreeing with them for as
      long as it exists. */
  lemma {:induction false} TradeKeepsItsSlice(reg: Registry, db: Db, ops: seq<Op>, id: Id)
    requires id in db.trades && SliceMatchesLinks(db, db.trades[id]) && NeverApplied(reg, db, ops, DeleteTrade(id))
    ensures var last := Run(reg, db, ops);
            id in last.trades && SliceMatchesLinks(last, last.trades[id])
    decreases |ops|
  {
    hide Step, Apply, SliceMatchesLinks;
    if ops != [] {
      TradeSliceStep(reg, db, ops[0], id);
      TradeKeepsItsSlice(reg, Step(reg, db, ops[0]), ops[1..], id);
    }
  }

  // ---------- history ----------

  lemma TradeStepIsFrozen(reg: Registry, db: Db, op: Op, id: Id)
    requires id in db.trades && !(op == DeleteTrade(id) && Apply(reg, db, op).Some?)
    ensures var next := Step(reg, db, op);
            id in next.trades && Frozen(db.trades[id], next.trades[id])
  {
    hide ApplyOrg, ApplyOrder, ApplyRfq, ApplyQuote, TradeInsertAllowed, TradeRowOk;
    if Apply(reg, db, op).Some? {
      StatementFrame(reg, db, op);
    }
  }

  /** Over any run that does not delete it, a trade keeps its parties, links, snapshot and fee. */
  lemma {:induction false} TradeHistoryIsFrozen(reg: Registry, db: Db, ops: seq<Op>, id: Id)
    requires id in db.trades && NeverApplied(reg, db, ops, DeleteTrade(id))
    ensures var last := Run(reg, db, ops);
            id in last.trades && Frozen(db.trades[id], last.trades[id])
    decreases |ops|
  {
    hide Step, Apply;
    if ops != [] {
      TradeStepIsFrozen(reg, db, ops[0], id);
      TradeHistoryIsFrozen(reg, Step(reg, db, ops[0]), ops[1..], id);
    }
  }

  lemma OrgStepMoves(reg: Registry, db: Db, op: Op, id: Id)
    requires id in db.orgs && !(op == DeleteOrg(id) && Apply(reg, db, op).Some?)
    ensures var next := Step(reg, db, op);
            id in next.orgs && (next.orgs[id].provenance == db.orgs[id].provenance
                                || (db.orgs[id].provenance == Unknown && next.orgs[id].provenance == Real))
  {
    hide ApplyTrade, ApplyOrder, ApplyRfq, ApplyQuote, OrgUpdate, OrgInsertAllowed, OrgReferenced, ProvenanceDomain;
    if Apply(reg, db, op).Some? {
      StatementFrame(reg, db, op);
      if op.UpdateOrg? {
        OrgUpdateProvenance(reg, db, op.id, db.orgs[op.id], op.org);
      }
    }
  }

  /** Over any run that does not delete it, an organization's provenance changes at most
      once, and only from UNKNOWN to REAL. */
  lemma {:induction false} ProvenanceMovesOnce(reg: Registry, db: Db, ops: seq<Op>, id: Id)
    requires id in db.orgs && NeverApplied(reg, db, ops, DeleteOrg(id))
    ensures var last := Run(reg, db, ops);
            id in last.orgs && (last.orgs[id].provenance == db.orgs[id].provenance
                                || (db.orgs[id].provenance == Unknown && last.orgs[id].provenance == Real))
    decreases |ops|
  {
    hide Step, Apply;
    if ops != [] {
      OrgStepMoves(reg, db, ops[0], id);
      ProvenanceMovesOnce(reg, Step(reg, db, ops[0]), ops[1..], id);
    }
  }

  // ---------- from the migration onwards ----------

  function Live(m: M.Market): Db {
    Db(m.orgs, m.approvals, m.products, m.points, m.orders, m.trades, m.rfqs, m.quotes)
  }

  lemma MigratedTradeFacts(reg: Registry, db: M.Legacy, id: Id)
    requires WellFormed(reg) && M.ForeignKeys(db) && id in db.trades
    requires !M.LinksMismatch(db, db.trades[id])
    ensures var t := M.MigratedTrade(reg, db, db.trades[id]);
            var live := Live(M.MigratedMarket(reg, db));
            && t.core == db.trades[id] && M.Linked(t.initiatorOrg, db.orgs)
            && t.buyerProvenance == live.orgs[t.core.buyer].provenance
            && t.sellerProvenance == live.orgs[t.core.seller].provenance
            && SliceMatchesLinks(live, t)
  {
    hide M.ProductCase, M.MigratedOrg, WellFormed, M.AnyProduct, M.AnyPoint;
    var core := db.trades[id];
    var live := Live(M.MigratedMarket(reg, db));
    var t := M.MigratedTrade(reg, db, core);
    var slice := M.BackfillSlice(reg, db, M.BackfillParties(M.MigratedOrgs(reg, db), M.AddTradeColumns(core))).slice;
    assert t.slice == slice;
    assert forall o | o in db.orders ::
      live.orders[o].core == db.orders[o].(window := ColumnValue(db.orders[o].window, M.WINDOW_WIDTH));
  }

  lemma MigratedOrders(reg: Registry, db: M.Legacy)
    requires M.ForeignKeys(db) && S.OrdersHold(M.MigratedMarket(reg, db)) && S.PreflightExtras(db)
    ensures var live := Live(M.MigratedMarket(reg, db));
            OrdersTrackOwners(live) && forall id | id in live.orders :: OrderRowOk(live, live.orders[id])
  {
    hide OrderChecks, M.MigratedTrade, M.MigratedOrg, M.LinksMismatch;
    var live := Live(M.MigratedMarket(reg, db));
    forall id | id in live.orders ensures OrderRowOk(live, live.orders[id]) && OrderMatchesOwner(live, live.orders[id]) {
      assert live.orders[id].core == db.orders[id].(window := ColumnValue(db.orders[id].window, M.WINDOW_WIDTH));
    }
  }

  lemma MigratedTrades(reg: Registry, db: M.Legacy)
    requires WellFormed(reg) && M.ForeignKeys(db)
    requires S.TradesHold(reg, M.MigratedMarket(reg, db)) && S.PreflightExtras(db)
    ensures var live := Live(M.MigratedMarket(reg, db));
            && SnapshotTruth(live) && TradesMatchOrders(live)
            && forall id | id in live.trades :: TradeRowOk(reg, live, live.trades[id])
  {
    hide TradeChecks, M.MigratedTrade, M.MigratedOrg, M.LinksMismatch, SliceMatchesLinks, WellFormed;
    var m := M.MigratedMarket(reg, db);
    var live := Live(m);
    assert live.orgs.Keys == db.orgs.Keys && live.orders.Keys == db.orders.Keys && live.trades == m.trades;
    forall id | id in live.trades
      ensures TradeRowOk(reg, live, live.trades[id]) && SliceMatchesLinks(live, live.trades[id])
      ensures live.trades[id].buyerProvenance == live.orgs[live.trades[id].core.buyer].provenance
      ensures live.trades[id].sellerProvenance == live.orgs[live.trades[id].core.seller].provenance
    {
      MigratedTradeFacts(reg, db, id);
    }
  }

  lemma MigratedRfqs(reg: Registry, db: M.Legacy)
    requires M.ForeignKeys(db) && S.RfqsHold(M.MigratedMarket(reg, db))
    ensures var live := Live(M.MigratedMarket(reg, db));
            && AcceptedRfqsAgree(live)
            && (forall id | id in live.rfqs :: RfqRowOk(live, live.rfqs[id]))
            && (forall id | id in live.quotes :: QuoteRowOk(live, live.quotes[id]))
  {
    hide RfqChecks, QuoteChecks, M.MigratedTrade, M.MigratedOrg, M.UniqueQuotes;
    var live := Live(M.MigratedMarket(reg, db));
    forall id | id in live.rfqs ensures RfqRowOk(live, live.rfqs[id]) && !IsAccepted(live, id) {
      AcceptedRowIsLinked(live.rfqs[id]);
    }
  }

  /** The migrated database starts in a state that satisfies every invariant. */
  lemma MigrationEstablishesInvariant(reg: Registry, db: M.Legacy)
    requires WellFormed(reg) && M.ParentSchema(db)
    requires M.PreflightPasses(reg, db) && M.ApprovalsCurrent(reg, db)
    ensures var live := Live(M.MigratedMarket(reg, db));
            Invariant(reg, live) && OrdersTrackOwners(live) && TradesMatchOrders(live)
  {
    hide S.OrdersHold, S.TradesHold, S.RfqsHold, S.InventoryHolds, S.NegotiationsHold, S.PreflightExtras,
         OrderRowOk, TradeRowOk, RfqRowOk, QuoteRowOk, ProvenanceDomain, M.PreflightPasses, M.ApprovalsCurrent,
         M.ForeignKeys, M.NumericColumnsOnGrid, WellFormed, SnapshotTruth, TradesMatchOrders, OrdersTrackOwners,
         AcceptedRfqsAgree, M.MigratedMarket;
    S.PreflightIsExact(reg, db);
    MigratedOrders(reg, db);
    MigratedTrades(reg, db);
    MigratedRfqs(reg, db);
  }

  /** PreflightExtras in the terms of the live market. */
  lemma MigratedQuotes(reg: Registry, db: M.Legacy)
    requires M.ForeignKeys(db) && S.PreflightExtras(db)
    ensures QuotesFromOthers(Live(M.MigratedMarket(reg, db)))
  {
    hide M.MigratedTrade, M.MigratedOrg, M.LinksMismatch;
    var live := Live(M.MigratedMarket(reg, db));
    assert live.quotes == db.quotes && live.rfqs.Keys == db.rfqs.Keys;
    assert forall r | r in db.rfqs :: live.rfqs[r].core.buyer == db.rfqs[r].buyer;
  }

  lemma MigrationSeparatesQuotes(reg: Registry, db: M.Legacy)
    requires WellFormed(reg) && M.ParentSchema(db) && M.PreflightPasses(reg, db) && M.ApprovalsCurrent(reg, db)
    ensures QuotesFromOthers(Live(M.MigratedMarket(reg, db)))
  {
    hide S.OrdersHold, S.TradesHold, S.RfqsHold, S.InventoryHolds, S.NegotiationsHold, S.PreflightExtras,
         QuotesFromOthers, WellFormed, M.PreflightPasses, M.ApprovalsCurrent, M.ForeignKeys, M.NumericColumnsOnGrid,
         M.MigratedMarket;
    S.PreflightIsExact(reg, db);
    MigratedQuotes(reg, db);
  }

  /** Rows, acceptances and snapshots need nothing of the run, and a migrated trade keeps its slice whatever else
      the run does; each order, each RFQ and the new trades keep the rest exactly as long as no faulty statement
      for them goes through. */
  ghost predicate StaysSound(reg: Registry, live: Db, ops: seq<Op>) {
    var last := Run(reg, live, ops);
    && Invariant(reg, last)
    && (forall id | id in live.trades && NeverApplied(reg, live, ops, DeleteTrade(id)) ::
          id in last.trades && Frozen(live.trades[id], last.trades[id]) && SliceMatchesLinks(last, last.trades[id]))
    && (forall id :: RunAvoids(reg, live, ops, TrackingFaultOf(id)) <==> HoldsThroughout(reg, live, ops, TracksOf(id)))
    && (forall id :: RunAvoids(reg, live, ops, QuoterFaultOf(id)) <==> HoldsThroughout(reg, live, ops, SeparateQuotesOf(id)))
    && (forall id :: RunAvoids(reg, live, ops, RepricingOf(id)) <==> HoldsThroughout(reg, live, ops, TermsOf(id)))
    && (RunAvoids(reg, live, ops, InsertsMislinkedTrade) <==> HoldsThroughout(reg, live, ops, TradesMatchOrders))
  }

  lemma OldTradesStaySound(reg: Registry, live: Db, ops: seq<Op>)
    requires forall id | id in live.trades :: SliceMatchesLinks(live, live.trades[id])
    ensures var last := Run(reg, live, ops);
            forall id | id in live.trades && NeverApplied(reg, live, ops, DeleteTrade(id)) ::
              id in last.trades && Frozen(live.trades[id], last.trades[id]) && SliceMatchesLinks(last, last.trades[id])
  {
    hide *;
    forall id | id in live.trades && NeverApplied(reg, live, ops, DeleteTrade(id))
      ensures var last := Run(reg, live, ops);
              id in last.trades && Frozen(live.trades[id], last.trades[id]) && SliceMatchesLinks(last, last.trades[id])
    {
      TradeHistoryIsFrozen(reg, live, ops, id);
      TradeKeepsItsSlice(reg, live, ops, id);
    }
  }

  lemma RowsStaySound(reg: Registry, live: Db, ops: seq<Op>)
    requires Invariant(reg, live)
    requires forall id :: OrderTracks(live, id) && RfqQuotesFromOthers(live, id) && KeepsTerms(live, id)
    ensures forall id :: RunAvoids(reg, live, ops, TrackingFaultOf(id)) <==> HoldsThroughout(reg, live, ops, TracksOf(id))
    ensures forall id :: RunAvoids(reg, live, ops, QuoterFaultOf(id)) <==> HoldsThroughout(reg, live, ops, SeparateQuotesOf(id))
    ensures forall id :: RunAvoids(reg, live, ops, RepricingOf(id)) <==> HoldsThroughout(reg, live, ops, TermsOf(id))
  {
    hide *;
    forall id
      ensures RunAvoids(reg, live, ops, TrackingFaultOf(id)) <==> HoldsThroughout(reg, live, ops, TracksOf(id))
      ensures RunAvoids(reg, live, ops, QuoterFaultOf(id)) <==> HoldsThroughout(reg, live, ops, SeparateQuotesOf(id))
      ensures RunAvoids(reg, live, ops, RepricingOf(id)) <==> HoldsThroughout(reg, live, ops, TermsOf(id))
    {
      OrderKeepsTracking(reg, live, ops, id);
      RunKeepsQuotesFromOthers(reg, live, ops, id);
      RunKeepsTerms(reg, live, ops, id);
    }
  }

  lemma StartingPoint(live: Db)
    requires OrdersTrackOwners(live) && TradesMatchOrders(live) && QuotesFromOthers(live)
    requires forall id | id in live.rfqs :: !IsAccepted(live, id)
    ensures forall id :: OrderTracks(live, id) && RfqQuotesFromOthers(live, id) && KeepsTerms(live, id)
    ensures forall id | id in live.trades :: SliceMatchesLinks(live, live.trades[id])
  {
    hide SliceMatchesLinks, Resolved, OrderMatchesOwner, QuoteAllowed, AcceptedAgrees;
  }

  lemma SoundStartStaysSound(reg: Registry, live: Db, ops: seq<Op>)
    requires Invariant(reg, live) && OrdersTrackOwners(live) && TradesMatchOrders(live) && QuotesFromOthers(live)
    requires forall id | id in live.rfqs :: !IsAccepted(live, id)
    ensures StaysSound(reg, live, ops)
  {
    hide Invariant, OrdersTrackOwners, TradesMatchOrders, QuotesFromOthers, OrderTracks, RfqQuotesFromOthers, Run,
         RunAvoids, NeverApplied, SliceMatchesLinks, Frozen, KeepsTerms, HoldsThroughout,
         TrackingFaultOf, TracksOf, QuoterFaultOf, SeparateQuotesOf, RepricingOf, TermsOf, IsAccepted;
    StartingPoint(live);
    RunKeepsInvariant(reg, live, ops);
    OldTradesStaySound(reg, live, ops);
    RowsStaySound(reg, live, ops);
    RunKeepsSlices(reg, live, ops);
  }

  lemma MigrationAcceptsNothing(reg: Registry, db: M.Legacy)
    requires WellFormed(reg) && M.ParentSchema(db) && M.PreflightPasses(reg, db) && M.ApprovalsCurrent(reg, db)
    ensures var live := Live(M.MigratedMarket(reg, db)); forall id | id in live.rfqs :: !IsAccepted(live, id)
  {
    hide S.OrdersHold, S.TradesHold, S.RfqsHold, S.InventoryHolds, S.NegotiationsHold, S.PreflightExtras, WellFormed,
         M.PreflightPasses, M.ApprovalsCurrent, M.ForeignKeys, M.NumericColumnsOnGrid, M.MigratedMarket, IsAccepted;
    S.PreflightIsExact(reg, db);
    NothingAcceptedYet(reg, db);
  }

  lemma NothingAcceptedYet(reg: Registry, db: M.Legacy)
    requires S.RfqsHold(M.MigratedMarket(reg, db))
    ensures var live := Live(M.MigratedMarket(reg, db)); forall id | id in live.rfqs :: !IsAccepted(live, id)
  {
    hide M.MigratedTrade, M.MigratedOrg, M.UniqueQuotes, QuoteChecks;
    var live := Live(M.MigratedMarket(reg, db));
    forall id | id in live.rfqs ensures !IsAccepted(live, id) { AcceptedRowIsLinked(live.rfqs[id]); }
  }

  /** End to end: a database the upgrade accepts, followed by any run of guarded statements. */
  lemma MarketStaysSound(reg: Registry, db: M.Legacy, ops: seq<Op>)
    requires WellFormed(reg) && M.ParentSchema(db)
    requires M.PreflightPasses(reg, db) && M.ApprovalsCurrent(reg, db)
    ensures StaysSound(reg, Live(M.MigratedMarket(reg, db)), ops)
  {
    MigrationEstablishesInvariant(reg, db);
    MigrationSeparatesQuotes(reg, db);
    MigrationAcceptsNothing(reg, db);
    hide *;
    SoundStartStaysSound(reg, Live(M.MigratedMarket(reg, db)), ops);
  }
}
