/** The market-integrity upgrade as a whole: preflight, approvals, backfills, narrowed columns, constraints. */
module MarketUpgrade {
  import opened Sql
  import opened MarketSchema
  import opened MarketMigration
  import opened MarketSoundness

  /** In the order of the source.  The constraints are evaluated on the rows that the backfills leave, and they
      never fail: whatever the preflight lets through either cannot be stored, exactly when a label of the
      catalog is too long, or ends in a market that satisfies every constraint and versions
      exactly the trades that deserve it. */
  method Upgrade(reg: Registry, db: Legacy) returns (outcome: Outcome)
    requires WellFormed(reg) && ParentSchema(db)
    ensures outcome.PreflightRejected? <==> !PreflightPasses(reg, db)
    ensures outcome.ApprovalDrift? <==> PreflightPasses(reg, db) && exists id | id in db.approvals ::
              || !db.approvals[id].databaseMatches || !db.approvals[id].environmentMatches
              || !db.approvals[id].snapshotCurrent || id in reg.demo || id in reg.test
    ensures outcome.ValueTooLong? <==> PreflightPasses(reg, db) && ApprovalsCurrent(reg, db) && !CatalogLabelsFit(db)
    ensures !outcome.ConstraintViolated?
    ensures outcome.Completed? <==> PreflightPasses(reg, db) && ApprovalsCurrent(reg, db) && CatalogLabelsFit(db)
    ensures outcome.Completed? ==>
      && outcome.market == MigratedMarket(reg, db)
      && ConstraintsHold(reg, outcome.market) && PreflightExtras(db)
      && forall id | id in outcome.market.trades ::
           outcome.market.trades[id].snapshotVersion
             == if Certified(reg, outcome.market.trades[id]) then Some(1) else None
  {
    DriftIsFound(reg, db);
    hide PreflightPasses, ApprovalsCurrent, CatalogLabelsFit, MigratedTrades, MigratedOrgs, Assemble, ConstraintsHold,
         ParentSchema, PreflightExtras, WindowsFit, WellFormed, Certified;
    if !PreflightPasses(reg, db) { return PreflightRejected; }
    if !ApprovalsCurrent(reg, db) { return ApprovalDrift; }
    PreflightIsExact(reg, db);
    PassedWindowsFit(reg, db);
    DistinctIdentities(reg);
    var orgs := BackfillOrgs(reg, db);
    if !WindowsFit(db) { return ValueTooLong; }
    var fits, trades := BackfillTrades(reg, db, orgs);
    if !fits { return ValueTooLong; }
    var market := Assemble(db, orgs, trades);
    AssembledTrades(db, orgs, trades);
    assert market == MigratedMarket(reg, db);
    if !ConstraintsHold(reg, market) { return ConstraintViolated; }
    outcome := Completed(market);
  }

  lemma DriftIsFound(reg: Registry, db: Legacy)
    requires ParentSchema(db)
    ensures !ApprovalsCurrent(reg, db) <==> exists id | id in db.approvals ::
              || !db.approvals[id].databaseMatches || !db.approvals[id].environmentMatches
              || !db.approvals[id].snapshotCurrent || id in reg.demo || id in reg.test
  {
    hide NumericColumnsOnGrid;
    assert forall id | id in db.approvals :: id in db.orgs;
  }

  lemma AssembledTrades(db: Legacy, orgs: map<Id, Org>, trades: map<Id, Trade>)
    ensures Assemble(db, orgs, trades).trades == trades
  {}

  lemma PassedWindowsFit(reg: Registry, db: Legacy)
    requires PreflightExtras(db)
    ensures WindowsFit(db)
  {
    MigratedWindows(reg, db);
  }

  lemma DistinctIdentities(reg: Registry)
    requires WellFormed(reg)
    ensures reg.demo !! reg.test
  {}
}
