# Verdaxis: market integrity, migrations and runtime guards

Verdaxis is an exchange for alternative fuels. This project models the parts of its backend that must not go
wrong quietly, and proves what they keep: the market tables under their constraints and triggers, the data
migrations that rewrote them, the deploy guard, four concurrency limits, the onboarding monitor and the
migration runner. Nothing was executed.

| file | what it models |
|---|---|
| `Sql.dfy` | three-valued logic, NULL, NUMERIC with NaN and infinities, scales |
| `MarketSchema.dfy`, `MarketChecks.dfy` | the market rows and every CHECK expression on them |
| `MarketMigration.dfy`, `MarketSoundness.dfy`, `MarketUpgrade.dfy` | the market-integrity preflight and backfills; the preflight is exact; the upgrade as a whole |
| `MarketGuards.dfy`, `MarketInvariants.dfy`, `MarketIdentities.dfy` | the row triggers as guards of 18 statements; what every run keeps |
| `MarketProgress.dfy` | what the guards let through: orders, trades, RFQs, approvals, deletes |
| `OrderBookMigration.dfy` | listings, direct orders, orders and offers become one order book and its trades |
| `AcceptancePriority.dfy` | ranks by age, then a sequence that continues them under slice locks |
| `MarketRadar.dfy`, `Text.dfy` | watchlists become one radar per user; ASCII strip, lower and split |
| `DeployGuard.dfy`, `DeployStateFile.dfy` | deploys, start guards and crashes interleaved; the state file's bytes |
| `RateLimit.dfy` | the fixed-window limiter in front of authentication |
| `PasswordWorkers.dfy` | bounded bcrypt work behind shielded tasks |
| `ReadAdmission.dfy` | admission of public market reads |
| `ActivityStream.dfy` | the private event stream with expiry and revalidation, and its bus subscriptions |
| `OnboardingAttention.dfy` | the alert monitor over runs whose deliveries may fail |
| `Checkpoints.dfy` | the migration policy file and the runner over a revision graph |

The market model is a database: maps from identifiers to rows with nullable columns. A CHECK passes unless it is
false, a WHERE and a trigger's IF act only on true, and IS DISTINCT FROM is total. The triggers are the ones in
force after the later migrations replaced them: organizations as in `oa_20260910`, trades as in
`catalog_20260926_biofuels` (same body as before, more product identities), fees as in `fee_20260912`, and
orders, quotes and RFQs as in `mi_20260720`. Transactions are serial, and a statement that a guard refuses
changes nothing.

## What the proofs found

- The preflight is exact for the constraints, but it does not look at the length of catalog labels: any product
  or delivery-point label that exceeds its new VARCHAR column by more than blanks passes it and then stops the
  upgrade (`LongLabelPassesPreflight`; `MarketUpgrade.Upgrade` and `LabelsFitIsACatalogFact` say exactly when, in
  terms of the catalog). On windows the preflight asks more than the columns do (`MigratedWindows`).
- Once an RFQ is accepted its parties and slice stay fixed, but a later update of the trade can change price and
  quantity (`TermsDriftOnlyByRepricing`, exactly then; `AcceptedTradeCanBeRepriced`, always possible). Before acceptance an RFQ's buyer can be moved to the
  seller of one of its own quotes (`OpenRfqCanMoveToItsQuoter`); nothing else can give a quote to its own RFQ's
  buyer (`QuoteStep`, `RunKeepsQuotesFromOthers`).
- Orders stay in step with their organization except in two cases, stated exactly: reviving a cancelled or
  expired order whose provenance is outdated, and an operator who rewrites provenance over live UNKNOWN orders
  (`TrackingStep`; both go through, `ResolvedOrderCanBeReopened` and `ApprovedOrgCanBeReclassified`).
- The trade insert trigger compares the slice with the catalog, never with the linked orders; that insert is the
  only statement that can break the agreement of trades and orders (`SliceStep`, `TradeCanBeInsertedOnAnyBid`), and only for the trade it
  inserts: a trade that once agrees goes on agreeing (`TradeKeepsItsSlice`).
- The deploy README says that stale authorization cannot permit a later start. That holds while at most two start
  guards of an environment overlap (`StaleAuthorizationStaysDead`) and fails with three
  (`ThreeGuardsReviveIt`); two is exactly the limit (`TwoGuardsAreTheLimit`). A deploy that overtakes a guard between its read and its probes can be for another SHA
  (`InterleavedDeployMayBeAnother`).
- The new order book breaks ORDER_LIFECYCLE for every confirmed or completed direct order with a quantity: a
  filled bid keeps its full remaining quantity (`BidLifecycle`).
- The rate limiter's bound is strict, fewer than limit * (2 + clears) requests in any window, and it is reached.
- Besides clashing identifiers and overflowing quantities, a direct order without a buyer stops the order-book
  migration: the old column is nullable, the new one is not.
- The snapshot CHECK lets a versioned trade with a NULL market product pass (`TradeSnapshotIsExact`); the insert
  trigger does not, so that in every reachable market all versioned trades name registered rows
  (`MarketIdentities.RunKeepsIdentities`).
- The stream's 15.1 s bound needs checks of at most 14.6 s, and no more (`LongerChecksOverrun`).

## Model

| member | source | states |
|---|---|---|
| MarketChecks.RequiredNumericIsExact | app/market_constraints.py:22-27 | The generated predicate for a required number is never unknown and is true exactly for finite values on their scale and within both bounds; NULL, NaN and infinities fail |
| MarketChecks.OptionalNumericIsExact | app/market_constraints.py:30-31 | The optional form admits NULL besides, and otherwise exactly the same values |
| MarketChecks.OrderLifecycleIsExact | app/market_constraints.py:55-61 | In two-valued terms: whatever the status of an order, the CHECK admits exactly the remaining quantity that status means |
| MarketChecks.TradeNumericIsExact | app/market_constraints.py:78-89 | The eight numeric columns of a trade pass, never unknown, exactly when the three required ones are in range and on scale and the five optional ones are NULL or so |
| MarketChecks.TradeDomainIsExact | app/market_constraints.py:63-77 | With its initiator recorded, a trade row is admitted exactly when it joins two parties, was started by the recorded one of them and, if versioned, is REAL-REAL or a pair of registered DEMO identities |
| MarketChecks.TradeLifecycleIsExact | app/market_constraints.py:96-108 | A trade is admitted exactly when it has the times of the stages its status has behind it and no others, final figures from delivery on only, and no more delivered than traded |
| MarketChecks.TradeSnapshotIsExact | app/market_constraints.py:109-121 | A versioned snapshot is admitted exactly when it is complete and canonical, except that a NULL market product passes |
| MarketChecks.CanonicalWindowsAreWritten | app/market_constraints.py:115-118 | The accepted windows are exactly the spellings of SPOT, a month, a quarter or a calendar year between 0000 and 9999 |
| MarketMigration.BackfillOrgs | alembic/versions/mi_20260720_market_integrity.py:521-594 | The four UPDATEs in order give each organization the provenance that identity, then approval, decides: TEST over DEMO over REAL over UNKNOWN |
| MarketMigration.BackfillTrades | alembic/versions/mi_20260720_market_integrity.py:655-732 | The three UPDATEs over all trades equal the row-by-row description, with excess blanks cut off, and fail exactly when something else than blanks exceeds a column; version 1 is written exactly to the trades whose slice equals registered product and delivery-point identities in a canonical window between two REAL or two DEMO parties |
| MarketMigration.VersionIsExact | alembic/versions/mi_20260720_market_integrity.py:84-131 | For every trade the third UPDATE writes version 1 if and only if some product identity equals its five product columns, some point identity its three, the window is canonical and the provenances are equal and REAL or DEMO |
| MarketUpgrade.Upgrade | alembic/versions/mi_20260720_market_integrity.py:488-860 | With the CHECKs and indexes evaluated on the backfilled rows, for every parent database: each refusal occurs exactly for its cause, no constraint ever fails, and completion, exactly when preflight, approvals and the catalog labels of linked orders pass, leaves the described market with every constraint satisfied and exactly the deserving trades versioned |
| MarketMigration.LabelsFitIsACatalogFact | alembic/versions/mi_20260720_market_integrity.py:655-716 | Everything copied to trades can be stored if and only if, for each trade, what its ask, or else its bid, shows in the catalog exceeds 120/64/64 and 120/120 characters by blanks at most |
| MarketSoundness.OrgClassification | alembic/versions/mi_20260720_market_integrity.py:528-594 | With current approvals a migrated organization is DEMO or TEST exactly by identity and REAL exactly when approved, with no overlap between them |
| MarketSoundness.PositivePriceIsAtLeastOneCent | alembic/versions/mi_20260720_market_integrity.py:392-412 | On a two-digit column, requiring a positive price decides the same rows as requiring at least one cent |
| MarketSoundness.OrderRow | alembic/versions/mi_20260720_market_integrity.py:324-347 | An order on the column grid passes its preflight query exactly when, with its organization's provenance added, it satisfies all three order CHECKs |
| MarketSoundness.BackfilledVersionIsASnapshot | alembic/versions/mi_20260720_market_integrity.py:717-732 | A trade that gets market_snapshot_version 1 carries a complete canonical snapshot and a REAL-REAL or DEMO-DEMO pair |
| MarketSoundness.MigratedTradeIsBackfilled | alembic/versions/mi_20260720_market_integrity.py:682-732 | A migrated trade has its initiating organization set, known provenance on both sides, and version 1 only with a complete snapshot between two REAL or two registered DEMO parties |
| MarketSoundness.MigratedSlice | alembic/versions/mi_20260720_market_integrity.py:696-716 | Column by column, a migrated trade shows the product, delivery point and window of its ask, or else its bid; without an order it shows nothing |
| MarketSoundness.MigratedVersionIsDeserved | alembic/versions/mi_20260720_market_integrity.py:696-732 | In terms of the catalog before the upgrade: a trade becomes a versioned snapshot exactly when its order has rows the registry knows word for word and a canonical window, between two reviewed and approved or two registered demo organizations |
| MarketSoundness.TradeRow | alembic/versions/mi_20260720_market_integrity.py:349-377 | A trade passes the preflight's trade query exactly when its migrated row satisfies every trade CHECK |
| MarketSoundness.LinkedOrdersAgree | alembic/versions/mi_20260720_market_integrity.py:379-390 | A trade is refused for its orders exactly when it links both and they differ in product, delivery point or window |
| MarketSoundness.NegotiationRow | alembic/versions/mi_20260720_market_integrity.py:441-453 | A negotiation passes its query exactly when it satisfies the negotiation domain, numeric and lifecycle CHECKs |
| MarketSoundness.NegotiationFollowsItsOrder | alembic/versions/mi_20260720_market_integrity.py:623-646 | After the upgrade a negotiation that links an order has that order's delivery point and its whole window; one that links none has no point and SPOT |
| MarketSoundness.ActivePairIsUnordered | alembic/versions/mi_20260720_market_integrity.py:455-466 | Two active negotiations collide exactly when they are about one product between the same two organizations, whichever started |
| MarketSoundness.MigratedWindows | alembic/versions/mi_20260720_market_integrity.py:624-793 | The preflight's length test accepts exactly the windows that the narrowed columns store whole; windows that could be stored cut of blanks are refused |
| MarketSoundness.PreflightIsExact | alembic/versions/mi_20260720_market_integrity.py:316-481 | For every pre-migration database on its column grids with current approvals, the preflight passes if and only if after the backfills every row satisfies every CHECK its orders have windows, no trade joins two different slices and no quote comes from the RFQ's own buyer |
| MarketSoundness.LongLabelPassesPreflight | alembic/versions/mi_20260720_market_integrity.py:660-716 | For every product and delivery point with any label that cannot be stored there is a market on exactly that catalog which passes the preflight and the approval check and does not meet that condition |
| MarketInvariants.StepKeepsInvariant | alembic/versions/mi_20260720_market_integrity.py:862-1113 | Each guarded statement keeps all rows valid, accepted RFQs consistent and versioned snapshots true |
| MarketInvariants.RunKeepsInvariant | alembic/versions/mi_20260720_market_integrity.py:862-1113 | Over any run: an accepted RFQ's quote stays its own and accepted, trade and RFQ agree on parties and slice, and a version-1 trade's recorded provenance equals the organizations' current one |
| MarketInvariants.RunKeepsTradesWhole | app/market_constraints.py:78-121 | Over every run each trade has quantity and price in range, a fee exactly together with a plan and then a rate of zero, and a complete canonical snapshot if it is versioned |
| MarketInvariants.AcceptedRfqIsTraded | alembic/versions/mi_20260720_market_integrity.py:1080-1106 | In every reachable state an accepted RFQ has an accepted quote of its own and a trade of its buyer with that quote's seller on its product, delivery point and window |
| MarketInvariants.AcceptanceIsExclusive | alembic/versions/mi_20260720_market_integrity.py:1080-1110 | No quote is accepted by two RFQs |
| MarketInvariants.AcceptedPartiesDiffer | alembic/versions/mi_20260720_market_integrity.py:1052-1110 | The seller of an accepted quote is never the RFQ's buyer, by the trade's own constraint |
| MarketInvariants.OpenRfqCanMoveToItsQuoter | alembic/versions/mi_20260720_market_integrity.py:1052-1110 | Before acceptance, moving the buyer to the seller of a quote is accepted in every state |
| MarketInvariants.QuoteStep | alembic/versions/mi_20260720_market_integrity.py:1052-1110 | An accepted statement keeps every quote from its own RFQ's buyer if and only if it is not an RFQ update that names the seller of one of that RFQ's quotes as buyer |
| MarketInvariants.RunKeepsQuotesFromOthers | alembic/versions/mi_20260720_market_integrity.py:1052-1110 | An RFQ's quotes come from others than its buyer throughout a run if and only if no statement that goes through hands this RFQ to one of its quoters |
| MarketInvariants.AcceptanceFixesTerms | alembic/versions/mi_20260720_market_integrity.py:1080-1106 | An accepting statement goes through only when price equals the quote's and the traded quantity is within the RFQ |
| MarketInvariants.TermsDriftOnlyByRepricing | alembic/versions/mi_20260720_market_integrity.py:1025-1041 | Afterwards that agreement is lost exactly when an update of the trade changes its price or exceeds the quantity |
| MarketInvariants.AcceptedTradeCanBeRepriced | alembic/versions/mi_20260720_market_integrity.py:1025-1041 | In every sound state the trade behind any accepted RFQ can be set to any price in range, and any other price than the quote's ends the agreement |
| MarketInvariants.RunKeepsTerms | alembic/versions/mi_20260720_market_integrity.py:1025-1110 | Throughout any run an RFQ is on agreed terms whenever it is accepted, if and only if no such update of its trade goes through |
| MarketInvariants.TrackingStep | alembic/versions/oa_20260910_auto_real_orgs.py:50-111 | An accepted statement keeps unresolved orders on their organization's provenance if and only if it neither revives a stale order nor reclassifies over live UNKNOWN orders |
| MarketInvariants.ApprovedOrgCanBeReclassified | alembic/versions/oa_20260910_auto_real_orgs.py:50-111 | An approved UNKNOWN organization can be set to REAL by hand whatever orders live, and if one is live and UNKNOWN tracking is lost |
| MarketInvariants.ResolvedOrderCanBeReopened | alembic/versions/mi_20260720_market_integrity.py:927-957 | In every sound state a cancelled or expired, unfilled and non-DEMO order can be reopened, and if its provenance is outdated tracking is lost |
| MarketInvariants.RunKeepsTracking | alembic/versions/oa_20260910_auto_real_orgs.py:50-111 | All unresolved orders follow their organizations throughout a run, through approvals that classify as REAL (`MarketProgress.ApprovalClassifies`), if and only if neither kind of statement goes through |
| MarketInvariants.OrderTrackingStep | alembic/versions/oa_20260910_auto_real_orgs.py:50-111 | The same equivalence for one order: only its own stale revival, or a rewrite of its organization's provenance while it is live, separates them |
| MarketInvariants.OrderKeepsTracking | alembic/versions/oa_20260910_auto_real_orgs.py:50-111 | One order tracks its organization throughout a run, whatever happens to others, if and only if neither kind goes through for it |
| MarketInvariants.SliceStep | alembic/versions/mi_20260720_market_integrity.py:937-1041 | An accepted statement keeps trades and their linked orders on the same product, delivery point and window if and only if it does not insert a trade against a different order |
| MarketInvariants.TradeCanBeInsertedOnAnyBid | alembic/versions/mi_20260720_market_integrity.py:959-1024 | A trade insert that is accepted stays accepted with any existing order as its bid, and if that order is of another slice the agreement is lost |
| MarketInvariants.RunKeepsSlices | alembic/versions/mi_20260720_market_integrity.py:937-1041 | All trades agree with their orders throughout a run, the new ones included, if and only if no such insert goes through |
| MarketInvariants.TradeKeepsItsSlice | alembic/versions/mi_20260720_market_integrity.py:937-1041 | Over every run, whatever else it does, a trade that agrees with its linked orders goes on agreeing with them as long as it is not deleted |
| MarketInvariants.TradeHistoryIsFrozen | alembic/versions/fee_20260912_seller_per_mt.py:76-105 | Over every run that does not delete it, a trade keeps its parties, links, provenance, slice, version and fee snapshot |
| MarketInvariants.ProvenanceMovesOnce | alembic/versions/oa_20260910_auto_real_orgs.py:78-111 | Over every run that does not delete it, an organization's provenance changes at most once, from UNKNOWN to REAL |
| MarketInvariants.MigrationEstablishesInvariant | alembic/versions/mi_20260720_market_integrity.py:488-860 | A database that passes the preflight and the approval check is migrated into a state that satisfies every invariant, with orders tracking their organizations and trades matching their orders |
| MarketInvariants.MarketStaysSound | alembic/versions/mi_20260720_market_integrity.py:488-1113 | End to end, for every accepted database and every run: all invariants hold, every migrated trade stays frozen and on its orders' slice until it is deleted, and for each order and RFQ tracking, separate quotes and agreed terms last exactly as long as no faulty statement for it goes through |
| MarketIdentities.InsertedTradeIsRegistered | alembic/versions/catalog_20260926_biofuels.py:152-215 | A trade that the insert trigger lets in names an active registered product and an active registered delivery point in a canonical window, between two REAL or two DEMO parties |
| MarketIdentities.RunKeepsIdentities | alembic/versions/mi_20260720_market_integrity.py:880-1113 | Over every run DEMO and TEST stay registered organizations, nothing becomes CANARY, every versioned trade names registered rows, and no seller has two quotes for one RFQ |
| MarketIdentities.NewTradesAreVersioned | alembic/versions/catalog_20260926_biofuels.py:152-172 | Over every run, a trade that is not a version 1 snapshot was there, with the same version, from the start |
| MarketIdentities.MarketStaysIdentified | alembic/versions/mi_20260720_market_integrity.py:488-1113 | All of that from the migrated market on |
| MarketProgress.ApprovalClassifies | alembic/versions/oa_20260910_auto_real_orgs.py:50-76 | Approving an UNKNOWN organization outside the registries is refused exactly when one of its orders is UNKNOWN and neither cancelled nor expired; otherwise it makes the organization APPROVED and REAL and changes nothing else |
| MarketProgress.OtherOrgUpdates | alembic/versions/oa_20260910_auto_real_orgs.py:98-113 | Any other update that leaves provenance alone is applied as written, and provenance can be set by hand only from UNKNOWN to REAL, approved and with an approval on record |
| MarketProgress.OrgsAreInserted | alembic/versions/oa_20260910_auto_real_orgs.py:84-96 | An organization can be inserted as UNKNOWN or REAL, as DEMO or TEST only under a registered identity, and never as CANARY |
| MarketProgress.OrderCanBePlaced | alembic/versions/mi_20260720_market_integrity.py:927-957 | In every sound state a new open order within the ranges can be placed exactly under its organization's current provenance |
| MarketProgress.OrderUpdateIsGuarded | alembic/versions/mi_20260720_market_integrity.py:935-957 | A valid new row of an order is accepted exactly when the seven guarded columns are the old ones and, if the statement names one of them, the organization's provenance still is the order's |
| MarketProgress.TradeUpdateIsGuarded | alembic/versions/fee_20260912_seller_per_mt.py:76-105 | A valid new row of a trade is accepted exactly when only stage, economics, initiating side and idempotency columns moved and, with a fee on record, the rate did not |
| MarketProgress.TradeCanRunItsCourse | app/market_constraints.py:96-108 | From every sound state a pending trade can be confirmed, delivered in any amount up to the traded one and paid, each step exactly as written |
| MarketProgress.AcceptanceGoesThrough | alembic/versions/mi_20260720_market_integrity.py:1052-1110 | From every sound state an RFQ on registered active rows can be accepted on any quote of another REAL (or DEMO) organization: trade, quote and RFQ are written as given and nothing else changes |
| MarketProgress.QuoteCanBePlaced | alembic/versions/mi_20260720_market_integrity.py:1052-1060 | A quote in range is refused exactly to the RFQ's buyer and to a seller who has one there already |
| MarketProgress.QuoteUpdateIsGuarded | alembic/versions/mi_20260720_market_integrity.py:1052-1072 | A quote that an accepted RFQ names can be updated only to itself; any other to every valid quote that is not the buyer's own and has no twin |
| MarketProgress.OrgDeleteIsExact | alembic/versions/mi_20260720_market_integrity.py:649-681 | An organization can be deleted exactly when no row and no approval is left dangling; so for orders, trades, RFQs and quotes (`OrderDeleteIsExact` and its siblings) |
| OrderBookMigration.TradesAddUp | alembic/versions/a1b2c3d4e5f6_unified_orderbook_migration.py:205-218 | Summing live trades per ask finds exactly the standing legacy orders of that listing; trades from offers only ever link bids |
| OrderBookMigration.OrderTakesItsAmount | alembic/versions/a1b2c3d4e5f6_unified_orderbook_migration.py:137-235 | One more standing order lowers the final remaining quantity of its listing by what it requested, or by all that was listed if it requested nothing; any other order lowers nothing |
| OrderBookMigration.TradeCarriesItsOrder | alembic/versions/a1b2c3d4e5f6_unified_orderbook_migration.py:137-178 | Column by column, the trade of a legacy order: identifiers, parties, price, quantity, commission and the status its order had |
| OrderBookMigration.DirectOrderBecomesABid | alembic/versions/a1b2c3d4e5f6_unified_orderbook_migration.py:107-134 | A direct order ends as a bid of its buyer for the whole quantity, open, filled or cancelled by its status, at its final price or zero |
| OrderBookMigration.Tables.InsertOrders | alembic/versions/a1b2c3d4e5f6_unified_orderbook_migration.py:82-134 | The two INSERTs leave one ask for each listing and one bid for each direct order, or stop, exactly when a direct order has no buyer or an identifier is taken |
| OrderBookMigration.Tables.InsertTrades | alembic/versions/a1b2c3d4e5f6_unified_orderbook_migration.py:137-194 | Both INSERTs in order; the trade of a legacy order has the requested quantity or, without one, the listed quantity |
| OrderBookMigration.Tables.UpdateBook | alembic/versions/a1b2c3d4e5f6_unified_orderbook_migration.py:205-230 | The three UPDATEs rewrite every ask from the trades, or stop exactly when a remaining quantity does not fit its column |
| OrderBookMigration.Tables.Upgrade | alembic/versions/a1b2c3d4e5f6_unified_orderbook_migration.py:82-230 | The statements together leave exactly the described book, trades and commission links if and only if every direct order has a buyer, no identifier clashes and every remaining quantity fits; otherwise everything is rolled back with the cause |
| OrderBookMigration.AskConserves | alembic/versions/a1b2c3d4e5f6_unified_orderbook_migration.py:205-218 | For each ask, remaining quantity plus its live trades equals the listed quantity |
| OrderBookMigration.MarketConserves | alembic/versions/a1b2c3d4e5f6_unified_orderbook_migration.py:82-218 | Over all asks and all live trades on asks, listed quantity is neither created nor lost |
| OrderBookMigration.AskLifecycle | app/market_constraints.py:55-61 | A migrated ask satisfies ORDER_LIFECYCLE if and only if its standing orders do not sum below zero and an active listing is not overbooked |
| OrderBookMigration.AsksMeetLifecycle | app/market_constraints.py:55-61 | With no negative quantity and no overbooking every migrated ask satisfies it |
| OrderBookMigration.BidLifecycle | alembic/versions/a1b2c3d4e5f6_unified_orderbook_migration.py:107-134 | A migrated bid satisfies it if and only if it was neither confirmed nor completed, or had no quantity |
| OrderBookMigration.TradesLinkTheirOrders | alembic/versions/a1b2c3d4e5f6_unified_orderbook_migration.py:137-194 | Every migrated trade links one order of the new book, whose owner is on the right side, at the right price or quantity |
| OrderBookMigration.OnlyAcceptedOffersTrade | alembic/versions/a1b2c3d4e5f6_unified_orderbook_migration.py:174-194 | Trades from offers are the accepted offers, each once and in order |
| OrderBookMigration.CommissionFollowsItsTrade | alembic/versions/a1b2c3d4e5f6_unified_orderbook_migration.py:196-202 | A commission of a legacy order ends on the trade with that order's buyer, supplier and commission amount |
| AcceptancePriority.RanksFollowAge | alembic/versions/obp_20261003_acceptance_priority.py:34-45 | Ranks are ordered exactly as (created_at, id) with missing times last, are distinct, and lie between 1 and n |
| AcceptancePriority.EveryRankIsTaken | alembic/versions/obp_20261003_acceptance_priority.py:34-45 | Every number from 1 to n is some order's rank |
| AcceptancePriority.OrderTable.Upgrade | alembic/versions/obp_20261003_acceptance_priority.py:25-58 | A busy table refuses and changes nothing; otherwise every order gets its rank and the sequence continues at n + 1, also for an empty table |
| AcceptancePriority.RunKeepsInvariant | app/services/market_locks.py:136-154 | Over any interleaving of locking, drawing, committing and aborting transactions, no two orders ever share an ordinal |
| AcceptancePriority.QueueIsFair | app/services/market_locks.py:136-154 | Within a slice, an order in the queue stays ahead of every order that becomes visible later unless a requeue of its own commits, also one already in flight; exactly then it loses its ordinal, and only to a later one |
| AcceptancePriority.LaterDrawsRankBehind | app/services/market_locks.py:136-154 | From any reachable state, transactions in flight included, every row drawn later ranks above everything drawn so far, committed or pending |
| AcceptancePriority.AdmissionGoesThrough | app/services/market_locks.py:136-154 | A new order that finds its slice unlocked enters with the next number; if its transaction aborts, the number is used up and nothing else remains |
| AcceptancePriority.RequeueGoesThrough | app/services/market_locks.py:136-154 | So does a requeue, to the end of the order's own slice |
| AcceptancePriority.UpgradeThenAdmissions | alembic/versions/obp_20261003_acceptance_priority.py:46-65 | After the upgrade, every order admitted or requeued in any run ranks after all orders ranked by age, and at any point of the run after everything drawn by then |
| MarketRadar.DeriveReadsNormalForms | alembic/versions/wl_2026_04_market_radar.py:22-45 | The derived product never depends on case or surrounding blanks, and deriving from normalized text is the same |
| MarketRadar.DeriveIsExact | alembic/versions/wl_2026_04_market_radar.py:22-45 | The code is that of the alcohol and origin the name gives or, only when the name gives none, those of type and grade; otherwise there is none |
| MarketRadar.RadarTables.BuildLists | alembic/versions/wl_2026_04_market_radar.py:161-183 | Every user who owned a list has exactly one RADAR_DEFAULT list, nobody else has one, and older lists are archived unless ownerless |
| MarketRadar.RadarTables.FillTargets | alembic/versions/wl_2026_04_market_radar.py:185-214 | The dedupe loop inserts each slice of a radar once, and exactly those some entry asks for |
| MarketRadar.RadarTables.Upgrade | alembic/versions/wl_2026_04_market_radar.py:161-214 | Together: the targets are exactly the image of the old entries with a delivery point and a derivable product |
| DeployGuard.RunKeepsInvariant | scripts/deploy.sh:605-715 | Over any interleaving of deploys, guards, failures and crashes, each lock has at most the holder its stage says, and a live deploy's state file is what it last wrote |
| DeployGuard.StaleIsReached | scripts/deploy.sh:605-715 | A deploy that crashes after authorizing its restart leaves, from an empty world, its authorization and both locks free |
| DeployGuard.AllowedStartIsAHeldWindow | scripts/verify_deploy_start_guard.py:86-97 | With a state file present a start is allowed exactly when a live deploy holds both locks or another guard is inside its own window probe |
| DeployGuard.LiveDeployIsTheAuthorizedOne | scripts/verify_deploy_start_guard.py:142-157 | That deploy is authorized for this environment and SHA exactly when the state file still reads so |
| DeployGuard.UninterruptedAllowanceIsExact | scripts/verify_deploy_start_guard.py:99-157 | When no deploy step falls between the guard's read and its verdict, the deploy behind an allowed start is authorized for exactly its environment and SHA |
| DeployGuard.AuthorizedRestartIsAllowed | scripts/verify_deploy_start_guard.py:99-157 | In every sound world with a live authorized deploy, an undisturbed guard of its environment and SHA allows the start and that deploy still holds both locks |
| DeployGuard.UndisturbedVerdict | scripts/verify_deploy_start_guard.py:86-157 | In every world, an undisturbed guard allows the start exactly when there is no state file, or it is the authorization for this guard's environment and SHA and both locks are held by somebody; it leaves every file as it was |
| DeployGuard.StartVerdict | scripts/verify_deploy_start_guard.py:99-157 | The same from the command line: besides, the environment must be production or staging and the SHA 40 lower-case hexadecimal digits |
| DeployGuard.KilledGuardStartsNothing | scripts/verify_deploy_start_guard.py:86-97 | A guard killed at any point allows nothing, drops the lock it was probing and changes neither the state file nor anybody else |
| DeployGuard.UndisturbedDeploy | scripts/deploy.sh:605-717 | Whatever state file an earlier deploy left, an undisturbed deploy that finds both locks free ends with no state file and free locks; one that finds the main lock held changes no file |
| DeployGuard.FailureLeavesBlocked | scripts/deploy.sh:436-455 | A started deploy that fails leaves the blocked state and no lock of its own, from every stage |
| DeployGuard.InterleavedDeployMayBeAnother | scripts/verify_deploy_start_guard.py:136-157 | When one does, a run from an empty world exists in which the live deploy is for any other SHA |
| DeployGuard.StaleAuthorizationStaysDead | scripts/verify_deploy_start_guard.py:86-97 | From every sound state with no live deploy and no guard under way, no interleaving of at most two overlapping guards allows a start on a present state file |
| DeployGuard.ThreeGuardsReviveIt | scripts/verify_deploy_start_guard.py:86-97 | For every valid environment and SHA: after a real run to a crash in the restart window, exactly three guards that ask for this environment and SHA bring one of them to an allowed start |
| DeployGuard.TwoGuardsAreTheLimit | scripts/verify_deploy_start_guard.py:86-97 | For every n: from every reachable dead state all runs with at most n overlapping guards deny, if and only if n is at most two |
| DeployStateFile.RenderIsInjective | scripts/verify_deploy_start_guard.py:142-148 | The rendered bytes are equal exactly when phase, environment and SHA are |
| DeployStateFile.ReadExactState | scripts/verify_deploy_start_guard.py:60-83 | An unchanged file of at most 256 bytes is returned whole under any short reads; anything returned has the announced size and only bytes that were at their offsets |
| RateLimit.PreauthLimiter.Check | app/middleware/preauth_rate_limit.py:45-56 | One check moves the dictionary to its specified next state and answers by the specified counter |
| RateLimit.PreauthLimiter.Admit | app/middleware/preauth_rate_limit.py:59-70 | The first matching prefix alone decides; without a match nothing changes |
| RateLimit.SlidingWindowBound | app/middleware/preauth_rate_limit.py:45-56 | In any half-open interval of one window length a key is allowed fewer than limit * (2 + c) times, c being the clears inside it |
| RateLimit.SlidingWindowBoundIsTight | app/middleware/preauth_rate_limit.py:45-56 | For every key, limit, window and c, some chronological trace lets limit * (2 + c) - 1 requests through within one window length with exactly c clears |
| RateLimit.NeverMoreThanMaximum | app/middleware/preauth_rate_limit.py:42-56 | The dictionary never exceeds its maximum |
| RateLimit.KeysAreIndependent | app/middleware/preauth_rate_limit.py:45-56 | Until a clear, each key is answered as by a counter of its own |
| RateLimit.WindowAnswers | app/middleware/preauth_rate_limit.py:45-56 | A window starts with its first request and lets exactly the first `limit` requests through; refusals neither count nor extend it, and the first request after it starts the next one |
| PasswordWorkers.RunningJobsAreBounded | app/core/security.py:62-83 | At most four bcrypt jobs run, counting those whose callers were cancelled |
| PasswordWorkers.TokensAreConserved | app/core/security.py:62-83 | A caller cancelled while waiting never held a token; each ended admission returned its token exactly once and every other still holds it |
| PasswordWorkers.AllTokensReturn | app/core/security.py:68-83 | When no admitted work is left all tokens are back and nobody waits |
| PasswordWorkers.NobodyIsOvertaken | app/core/security.py:62-83 | Over every run, a request that waits behind another gets no token while the other still waits |
| PasswordWorkers.ArrivalIsServed | app/core/security.py:62-68 | A request that comes while fewer than four hold tokens is admitted at once; any other joins the end of the queue |
| PasswordWorkers.CancelledCallers | app/core/security.py:68-83 | A caller cancelled while waiting leaves the queue without a token; one cancelled while its job runs leaves the job and its token, which comes back when the job ends |
| PasswordWorkers.PendingWorkCanFinish | app/core/security.py:62-83 | From every reachable state the admitted work can end so that every pending request finishes |
| ReadAdmission.SelectionIsExact | app/middleware/public_market_read_admission.py:59-72 | For any table of absolute paths, a path is selected exactly when it is the prefix and a listed path, or the prefix and one port |
| ReadAdmission.SelectedPathsAreExact | app/middleware/public_market_read_admission.py:10-72 | The same of the real table behind the configured prefix without its trailing slashes |
| ReadAdmission.ReadsLeaveRoomForWrites | app/main.py:200-208 | Under every interleaving selected reads stay within their capacity and, at one connection each, never hold the whole pool |
| ReadAdmission.WritesAreServed | app/main.py:200-208 | In every reachable state where only admitted reads hold connections, any other request enters without a permit and gets a connection |
| ReadAdmission.ReadsAreServed | app/middleware/public_market_read_admission.py:101-109 | In every reachable state a selected read below the capacity enters with one permit, and a refused one takes neither permit nor connection |
| ReadAdmission.PermitsAreConserved | app/middleware/public_market_read_admission.py:101-114 | Over every interleaving the limiter's count, which knows no requests, equals the number of admitted reads still to run their finally clause and stays within the capacity; each admission takes one permit and gives it back exactly once, by then and not before, whether it returned, raised or was cancelled |
| ReadAdmission.RefusedExactlyWhenFull | app/middleware/public_market_read_admission.py:101-109 | In every reachable state a selected read is refused exactly when as many admitted reads as there are permits are inside or unwinding |
| ReadAdmission.AllPermitsReturn | app/middleware/public_market_read_admission.py:105-114 | From every reachable state, ending the admitted reads in any of the three ways brings every permit back and changes no other request |
| ActivityStream.AuthorizationDeadlines | app/routers/activity.py:108-163 | Over every run with checks of at most d seconds: nothing is sent before a successful check, no message at or after expiry + 0.1 + d, nor 15.1 s (d + 0.5 if longer) after the start of the last successful check |
| ActivityStream.MessageIsSent | app/routers/activity.py:124-163 | With or without a principal: a round that finds the client connected and authorized and a message queued, or arriving within 0.1 s, or within 0.5 s and before every deadline, sends it as its only entry besides a due check, no later than check and arrival, and stays open unless the client leaves at that point |
| ActivityStream.EveryMessageIsSent | app/routers/activity.py:124-163 | Over every run the messages sent are as many as such rounds |
| ActivityStream.StreamEnds | app/routers/activity.py:124-145 | Any round that does not come to its queues closes the stream: silently when the client left or the check was cut off, with expiry or revocation otherwise |
| ActivityStream.StreamIsQuiet | app/routers/activity.py:146-162 | A round without a message leaves the stream as it was, except for a keepalive once one is due, and the next is then 30 s away |
| ActivityStream.ChecksAreSpaced | app/routers/activity.py:123-162 | Over every run successful checks are at least 15 s apart and keepalives at least 30 s |
| ActivityStream.RevocationTakesHold | app/routers/activity.py:132-144 | If no check that starts from some moment on succeeds, no message is sent 15.1 s after it or later |
| ActivityStream.LongerChecksOverrun | app/routers/activity.py:132-160 | For every d above 14.6 s a round exists in which a message is sent 15.1 s or more after its check began |
| ActivityStream.ExpiryBoundIsTight | app/routers/activity.py:146-160 | The bound on expiry cannot be lowered by any margin |
| ActivityStream.EventBus.Subscribe | app/services/event_bus.py:46-53 | A channel with 200 subscribers refuses and nothing changes; otherwise exactly one new queue joins exactly that channel |
| ActivityStream.SubscribeAll | app/routers/activity.py:117-122 | Subscriptions are made in order, up to the first channel that is already full when its turn comes |
| ActivityStream.Generate | app/routers/activity.py:108-166 | On every exit path, whatever other streams and publishers do meanwhile, each subscription made is returned exactly once and none of its queues is left; others' queues stay unless others remove them, and with nobody else acting every channel is as before; what was sent is the run of the rounds that `MessageIsSent`, `StreamEnds` and `StreamIsQuiet` describe |
| OnboardingAttention.Reconcile | app/cli/onboarding_attention.py:51-76 | The loop sends the due messages in order and returns the reconciled state, or, when delivery number k fails, has sent the first k and returns none |
| OnboardingAttention.StateFile.ScheduledRun | app/cli/onboarding_attention.py:130-134 | The recorded state is replaced only after every delivery succeeded |
| OnboardingAttention.SeenKey | app/cli/onboarding_attention.py:57-76 | With unique keys a pass sends at most one message about each candidate, decided by that candidate and its old entry alone |
| OnboardingAttention.RerunIsQuiet | app/cli/onboarding_attention.py:57-76 | Reconciling the same classification again sends and changes nothing |
| OnboardingAttention.BaselineIsQuiet | app/cli/onboarding_attention.py:79-88 | A run on the classification that a silent baseline was taken from sends nothing and changes nothing |
| OnboardingAttention.MessagesAreWellFormed | app/cli/onboarding_attention.py:51-88 | From an empty or silent start, over completed runs, each key's messages are groups of alerts closed by one recovery, with no stage repeated in a row; a silent entry never yields a recovery |
| OnboardingAttention.ParseIsWellFormed | app/cli/onboarding_attention.py:57-76 | The message automaton accepts exactly the sequences of that grammar |
| OnboardingAttention.NoAlertIsLost | app/cli/onboarding_attention.py:109-134 | After any number of failed runs the next completed one sends everything still due, and every candidate in need has been reported at its stage or was in the silent baseline at that stage |
| Checkpoints.ParsePolicy | scripts/apply_migration_checkpoint.py:88-108 | The policy is accepted exactly when every line is blank, a comment or a new literal pair and one pair exists; it is then exactly those pairs, and otherwise the first bad line decides the error |
| Checkpoints.CommentsChangeNothing | scripts/apply_migration_checkpoint.py:88-108 | A blank or comment line, indented or not, added anywhere leaves the policy accepted or refused as it was, with the same transitions |
| Checkpoints.AllowsIsExact | scripts/apply_migration_checkpoint.py:88-101 | A line allows a transition exactly when it is no comment and consists of two literal identifiers around one tab, blanks aside |
| Checkpoints.LiteralIsExact | scripts/apply_migration_checkpoint.py:30-31 | The literal identifiers, character by character: up to 128 ASCII letters, digits and underscores, the first no underscore, and not base, head or heads in any case |
| Checkpoints.WrittenLinesReadBack | scripts/apply_migration_checkpoint.py:79-101 | A written pair of literal identifiers is read back as itself |
| Checkpoints.AncestorIsLineage | scripts/apply_migration_checkpoint.py:136-154 | The ancestry a request is checked for holds exactly when a chain of parents leads from the current revision to the target |
| Checkpoints.ValidateIsExact | scripts/apply_migration_checkpoint.py:111-154 | A request is accepted exactly when SHAs, literals, allowlist, live head and ancestry all agree; an abbreviation Alembic would resolve is not enough for a move |
| Checkpoints.Database.Execute | scripts/apply_migration_checkpoint.py:283-317 | It succeeds exactly when the request is authorized and the upgrade, if one is needed, ends at the target; every refusal leaves the heads as they were, and any other ending is reported |
| Checkpoints.RunsDescend | scripts/apply_migration_checkpoint.py:283-317 | Over any sequence of requests there is one head, it moves only along allowlisted edges to proper descendants, and no more often than there are revisions ahead of it |

## Left out

- The matching engine, trade commands, quarantine service, event dispatcher and refresh rotation are not part of this model.
- The status, initiator and side columns that the market upgrade narrows without any effect on values its CHECKs admit.
- The market-event outbox and stream tables, sentinel preflight (`mi_20260720` lines 277-313), indexes that are not unique, and all downgrade paths.
- Approval evidence: whether a reviewed organization's database, environment and JSON snapshot still match is three booleans per approval.
- Market rows: identifiers never change, catalog rows are not deleted, and columns no CHECK or trigger reads are omitted; the foreign key to inventory and the idempotency unique indexes are not modelled.
- NUMERIC scales are the two the source uses, two and three digits; the order-book migration excludes NaN and works in whole cents.
- MarketInvariants.MarketStaysSound: starts from the described migrated market; whether the upgrade can store it (label widths) is the contract of MarketUpgrade.Upgrade.
- DeployGuard: ownership and inode checks of the files, the missing runtime directory (same as an absent state), and the case where a state read is disturbed; the last two end like a killed guard, which starts nothing.
- DeployGuard.StaleAuthorizationStaysDead: counts guards that have begun and not ended; guards refused for their arguments never count.
- DeployStateFile.ReadExactState: bytes are characters, since the compared text is ASCII.
- RateLimit: one process; the clock is nondecreasing within a trace; the client address is taken as given.
- PasswordWorkers: a freed token goes to the longest waiter in the same step, which is an assumption about anyio's limiter; event-loop shutdown, and the result or exception of bcrypt itself.
- ReadAdmission: what the application does inside a request, beyond holding at most one connection, which is back before its finally clause runs.
- ActivityStream: wall and monotonic clocks advance together, timers are exact, and the monotonic clock is not negative; message contents, and how a queue comes to overflow are not modelled; others act between rounds, and they may drop overflowed queues.
- ActivityStream.Generate: ends a stream that is still open when its rounds run out as a cancellation would; it needs at least one channel, as its only caller passes.
- OrderBookMigration: columns that are only copied (fuel, region, port, vessel, dates, certifications), and with them failures of their widths, such as a port identifier over 50 characters; generated identifiers are new.
- OrderBookMigration.TradesLinkTheirOrders: says nothing about quantities of ask trades against the listing, which overbooking can exceed.
- AcceptancePriority: overflow of the 64-bit sequence; every draw happens under the slice lock, as its caller contract demands.
- MarketRadar: names are stripped and lowered as ASCII; target identifiers and the constant snapshot columns are omitted.
- OnboardingAttention: classification is an input of each run, message texts and the file format are omitted; the grammar is for completed runs, since a failed run repeats what it had sent.
- Checkpoints: Alembic's resolution of identifiers is an arbitrary table that maps known revisions to themselves; git, settings and database connections are inputs; the graph is the same for all requests of a run.
- Checkpoints.RunsDescend: assumes upgrades that reach their target or fail atomically; Checkpoints.Database.Execute covers any other ending.
