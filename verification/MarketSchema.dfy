/** Rows of the market tables.  The `...Core` records hold the columns that exist before
    the market-integrity migration; the records around them add the columns it introduces.
    Text columns with a closed vocabulary are enumerations with one constructor for any other text. */
module MarketSchema {
  import opened Sql

  type Id = nat
  type Instant = int

  datatype Provenance = Unknown | Real | Demo | Test | Canary | OtherProvenance(raw: string)
  datatype Verification = Approved | VerifiedSpelling | OtherVerification(raw: string)
  datatype Side = Bid | Ask | OtherSide(raw: string)
  datatype OrderStatus =
    | Open | PartiallyFilled | Filled | OrderCancelled | OrderExpired | OtherOrderStatus(raw: string)
  datatype TradeStatus =
    | PendingConfirmation | Confirmed | Delivered | Paid | TradeCancelled | TradeDeclined
    | OtherTradeStatus(raw: string)
  datatype Party = Buyer | Seller | OtherParty(raw: string)
  datatype RfqStatus = RfqOpen | Quoted | RfqAccepted | RfqExpired | RfqCancelled | OtherRfqStatus(raw: string)
  datatype QuoteStatus =
    | QuotePending | QuoteAccepted | QuoteDeclined | QuoteWithdrawn | OtherQuoteStatus(raw: string)
  datatype NegotiationStatus =
    | NegotiationOpen | Countered | Agreed | NegotiationDeclined | NegotiationExpired
    | OtherNegotiationStatus(raw: string)
  datatype Plan = Free | Standard | Enterprise | OtherPlan(raw: string)

  datatype Idempotency = Idempotency(key: Option<string>, operation: Option<string>, requestHash: Option<string>)

  const NO_IDEMPOTENCY := Idempotency(None, None, None)

  datatype Org = Org(verification: Verification, provenance: Provenance)

  datatype OrderCore = OrderCore(
    org: Id, side: Option<Side>, status: Option<OrderStatus>,
    product: Id, point: Option<Id>, window: Option<string>, inventory: Option<Id>,
    quantity: Option<Numeric>, remaining: Option<Numeric>, price: Option<Numeric>,
    carbon: Option<Numeric>, energy: Option<Numeric>, expiresAt: Option<Instant>)

  datatype Order = Order(core: OrderCore, provenance: Provenance, idempotency: Idempotency)

  datatype TradeCore = TradeCore(
    bidOrder: Option<Id>, askOrder: Option<Id>, buyer: Id, seller: Id,
    initiatedBy: Option<Party>, status: Option<TradeStatus>,
    quantity: Option<Numeric>, price: Option<Numeric>,
    finalQuantity: Option<Numeric>, finalPrice: Option<Numeric>, finalTotal: Option<Numeric>,
    commissionRate: Option<Numeric>, commissionAmount: Option<Numeric>,
    confirmedAt: Option<Instant>, deliveredAt: Option<Instant>, paidAt: Option<Instant>)

  /** What was traded: identity and labels of the product and delivery point, and the window. */
  datatype MarketSlice = MarketSlice(
    product: Option<Id>, productName: Option<string>, fuelType: Option<string>,
    fuelGrade: Option<string>, marketProduct: Option<string>,
    point: Option<Id>, pointName: Option<string>, pointRegion: Option<string>,
    window: Option<string>)

  const NO_SLICE := MarketSlice(None, None, None, None, None, None, None, None, None)

  datatype Trade = Trade(
    core: TradeCore, buyerProvenance: Provenance, sellerProvenance: Provenance,
    initiatorOrg: Option<Id>, slice: MarketSlice, snapshotVersion: Option<int>,
    idempotency: Idempotency, feePerMt: Option<Numeric>, plan: Option<Plan>)

  datatype RfqCore = RfqCore(
    buyer: Id, product: Id, point: Option<Id>, window: string,
    quantity: Option<Numeric>, target: Option<Numeric>, status: Option<RfqStatus>)

  datatype Rfq = Rfq(core: RfqCore, acceptedQuote: Option<Id>, trade: Option<Id>)

  datatype Quote = Quote(rfq: Id, seller: Id, price: Option<Numeric>, status: Option<QuoteStatus>)

  datatype NegotiationCore = NegotiationCore(
    bidOrder: Option<Id>, askOrder: Option<Id>, initiator: Id, counterparty: Id, product: Id,
    initiatorSide: Option<Party>, status: Option<NegotiationStatus>,
    quantity: Option<Numeric>, currentPrice: Option<Numeric>, trade: Option<Id>)

  datatype Negotiation = Negotiation(core: NegotiationCore, point: Option<Id>, window: string)

  datatype Inventory = Inventory(
    current: Option<Numeric>, incoming: Option<Numeric>, reserved: Option<Numeric>,
    price: Option<Numeric>, energy: Option<Numeric>, carbon: Option<Numeric>)

  datatype Product = Product(name: string, fuelType: string, fuelGrade: string, active: Option<bool>)

  datatype DeliveryPoint = DeliveryPoint(name: string, region: string, active: Option<bool>)

  /** The literals compiled into the migrations and their triggers. */
  datatype ProductIdentity = ProductIdentity(
    id: Id, name: string, fuelType: string, fuelGrade: string, marketProduct: string)

  datatype PointIdentity = PointIdentity(id: Id, name: string, region: string)

  datatype Registry = Registry(
    demo: set<Id>, test: set<Id>,
    products: seq<ProductIdentity>, points: seq<PointIdentity>, marketProducts: set<string>)

  /** trim(text) = '' */
  predicate Blank(text: string) { forall i | 0 <= i < |text| :: text[i] == ' ' }

  /** The demo and test identities are disjoint and every product identity has usable labels. */
  predicate WellFormed(reg: Registry) {
    && reg.demo !! reg.test
    && forall i | 0 <= i < |reg.products| ::
         var p := reg.products[i];
         !Blank(p.name) && !Blank(p.fuelType) && !Blank(p.fuelGrade) && p.marketProduct in reg.marketProducts
  }
}
