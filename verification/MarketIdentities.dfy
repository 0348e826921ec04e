/** Whatever statements run, identities stay those of the compiled registry. */
module MarketIdentities {
  import opened Sql
  import opened MarketSchema
  import opened MarketChecks
  import opened MarketGuards
  import I = MarketInvariants
  import M = MarketMigration
  import S = MarketSoundness

  /** DEMO and TEST are registered organizations, and nothing is CANARY. */
  predicate OrgsRegistered(reg: Registry, db: Db) {
    forall id | id in db.orgs ::
      var p := db.orgs[id].provenance;
      && p in {Unknown, Real, Demo, Test}
      && (p == Demo ==> id in reg.demo) && (p == Test ==> id in reg.test)
  }

  /** Every versioned trade names a registered product and delivery point and joins a settled pair. */
  predicate SnapshotsRegistered(reg: Registry, db: Db) {
    forall id | id in db.trades && db.trades[id].snapshotVersion.Some? :: M.Certified(reg, db.trades[id])
  }

  predicate Identified(reg: Registry, db: Db) {
    OrgsRegistered(reg, db) && SnapshotsRegistered(reg, db) && M.UniqueQuotes(db.quotes)
  }

  /** The insert trigger looks the labels up in the catalog and the registry; what passes is registered. */
  lemma InsertedTradeIsRegistered(reg: Registry, db: Db, t: Trade)
    requires TradeInsertAllowed(reg, db, t)
    ensures M.Certified(reg, t)
    ensures db.products[t.slice.product.value].active == Some(true)
    ensures db.points[t.slice.point.value].active == Some(true)
  {
    hide M.ProductCase, CanonicalWindow;
    var product, point := t.slice.product.value, t.slice.point.value;
    M.ProductCaseIsListed(product, db.products[product], reg.products);
    var i :| 0 <= i < |reg.products| && reg.products[i]
      == ProductIdentity(product, t.slice.productName.value, t.slice.fuelType.value, t.slice.fuelGrade.value,
                         t.slice.marketProduct.value);
    assert M.NamesProduct(t.slice, reg.products[i]);
    var j :| 0 <= j < |reg.points|
      && reg.points[j] == PointIdentity(point, t.slice.pointName.value, t.slice.pointRegion.value);
    assert M.NamesPoint(t.slice, reg.points[j]);
  }

  lemma OrgStep(reg: Registry, db: Db, op: Op)
    requires OrgsRegistered(reg, db) && Apply(reg, db, op).Some?
    ensures OrgsRegistered(reg, Apply(reg, db, op).value)
  {
    hide OrgUpdate, ApplyOrder, ApplyTrade, ApplyRfq, ApplyQuote, OrgReferenced;
    I.StatementFrame(reg, db, op);
    if op.UpdateOrg? {
      I.OrgUpdateProvenance(reg, db, op.id, db.orgs[op.id], op.org);
    }
  }

  lemma TradeStep(reg: Registry, db: Db, op: Op)
    requires SnapshotsRegistered(reg, db) && Apply(reg, db, op).Some?
    ensures SnapshotsRegistered(reg, Apply(reg, db, op).value)
  {
    hide ApplyOrg, ApplyOrder, ApplyRfq, ApplyQuote, TradeInsertAllowed, TradeRowOk, M.Registered, TradeReferenced;
    I.StatementFrame(reg, db, op);
    if op.InsertTrade? {
      InsertedTradeIsRegistered(reg, db, op.trade);
    }
  }

  lemma QuoteStep(reg: Registry, db: Db, op: Op)
    requires M.UniqueQuotes(db.quotes) && Apply(reg, db, op).Some?
    ensures M.UniqueQuotes(Apply(reg, db, op).value.quotes)
  {
    hide ApplyOrg, ApplyOrder, ApplyRfq, ApplyTrade, QuoteAllowed, QuoteUpdateAllowed, QuoteRowOk, QuoteReferenced;
    I.StatementFrame(reg, db, op);
  }

  lemma {:induction false} RunKeepsIdentities(reg: Registry, db: Db, ops: seq<Op>)
    requires Identified(reg, db)
    ensures Identified(reg, Run(reg, db, ops))
    decreases |ops|
  {
    hide Apply, OrgsRegistered, SnapshotsRegistered, M.UniqueQuotes;
    if ops != [] {
      if Apply(reg, db, ops[0]).Some? {
        OrgStep(reg, db, ops[0]);
        TradeStep(reg, db, ops[0]);
        QuoteStep(reg, db, ops[0]);
      }
      RunKeepsIdentities(reg, Step(reg, db, ops[0]), ops[1..]);
    }
  }

  /** Whoever is not versioned has been there from the start: every trade inserted later is a version 1 snapshot. */
  lemma {:induction false} NewTradesAreVersioned(reg: Registry, db: Db, ops: seq<Op>, id: Id)
    requires id in Run(reg, db, ops).trades && Run(reg, db, ops).trades[id].snapshotVersion != Some(1)
    ensures id in db.trades && db.trades[id].snapshotVersion == Run(reg, db, ops).trades[id].snapshotVersion
    decreases |ops|
  {
    hide Apply;
    if ops != [] {
      NewTradesAreVersioned(reg, Step(reg, db, ops[0]), ops[1..], id);
      if Apply(reg, db, ops[0]).Some? { VersionStep(reg, db, ops[0], id); }
    }
  }

  lemma VersionStep(reg: Registry, db: Db, op: Op, id: Id)
    requires Apply(reg, db, op).Some?
    requires var next := Apply(reg, db, op).value; id in next.trades && next.trades[id].snapshotVersion != Some(1)
    ensures id in db.trades && db.trades[id].snapshotVersion == Apply(reg, db, op).value.trades[id].snapshotVersion
  {
    hide ApplyOrg, ApplyOrder, ApplyRfq, ApplyQuote, TradeRowOk, M.ProductCase, CanonicalWindow, TradeReferenced;
    I.StatementFrame(reg, db, op);
  }

  /** From the migrated market on. */
  lemma MarketStaysIdentified(reg: Registry, db: M.Legacy, ops: seq<Op>)
    requires WellFormed(reg) && M.ParentSchema(db)
    requires M.PreflightPasses(reg, db) && M.ApprovalsCurrent(reg, db)
    ensures Identified(reg, Run(reg, I.Live(M.MigratedMarket(reg, db)), ops))
  {
    MigratedIdentities(reg, db);
    hide *;
    RunKeepsIdentities(reg, I.Live(M.MigratedMarket(reg, db)), ops);
  }

  lemma MigratedIdentities(reg: Registry, db: M.Legacy)
    requires WellFormed(reg) && M.ParentSchema(db)
    requires M.PreflightPasses(reg, db) && M.ApprovalsCurrent(reg, db)
    ensures Identified(reg, I.Live(M.MigratedMarket(reg, db)))
  {
    hide M.ParentSchema, M.OrdersPass, M.TradesPass, M.InventoryPasses, M.NegotiationsPass, M.MigratedTrade,
         M.MigratedOrg, M.ApprovalsCurrent, WellFormed, M.Certified, M.RfqRejected, M.QuoteRejected;
    var live := I.Live(M.MigratedMarket(reg, db));
    M.MigratedVersions(reg, db);
    forall id | id in live.orgs
      ensures var p := live.orgs[id].provenance;
              p in {Unknown, Real, Demo, Test} && (p == Demo ==> id in reg.demo) && (p == Test ==> id in reg.test)
    {
      MigratedProvenance(reg, db, id);
    }
  }

  lemma MigratedProvenance(reg: Registry, db: M.Legacy, id: Id)
    requires id in db.orgs
    ensures var p := M.MigratedOrg(reg, db, id).provenance;
            p in {Unknown, Real, Demo, Test} && (p == Demo ==> id in reg.demo) && (p == Test ==> id in reg.test)
  {}
}
