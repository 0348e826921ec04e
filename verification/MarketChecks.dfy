/** The CHECK constraints on the market tables, as three-valued expressions over a row. */
module MarketChecks {
  import opened Sql
  import opened MarketSchema

  function RequiredNumeric(a: Option<Numeric>, minimum: real, maximum: real, scale: Scale): Truth {
    Present(a)
    .And(Ge(a, Lit(minimum)))
    .And(Le(a, Lit(maximum)))
    .And(Same(Times(a, scale), Trunc(Times(a, scale))))
  }

  function OptionalNumeric(a: Option<Numeric>, minimum: real, maximum: real, scale: Scale): Truth {
    Absent(a).Or(RequiredNumeric(a, minimum, maximum, scale))
  }

  /** A finite number between the bounds with no digits beyond the scale. */
  predicate Bounded(a: Option<Numeric>, minimum: real, maximum: real, scale: Scale) {
    a.Some? && a.value.Fin? && minimum <= a.value.x <= maximum && Whole(Scaled(a.value.x, scale))
  }

  /** The check is never unknown, and it rejects NULL, NaN, both infinities,
      every value out of range and every value that rounding would have changed. */
  lemma RequiredNumericIsExact(a: Option<Numeric>, minimum: real, maximum: real, scale: Scale)
    ensures RequiredNumeric(a, minimum, maximum, scale) == Of(Bounded(a, minimum, maximum, scale))
  {
    if a.Some? && a.value.Fin? {
      TruncateFixesWholeNumbers(Scaled(a.value.x, scale));
    }
  }

  lemma OptionalNumericIsExact(a: Option<Numeric>, minimum: real, maximum: real, scale: Scale)
    ensures OptionalNumeric(a, minimum, maximum, scale)
         == Of(a.None? || Bounded(a, minimum, maximum, scale))
  {
    RequiredNumericIsExact(a, minimum, maximum, scale);
  }

  const PROVENANCES: set<Provenance> := {Unknown, Real, Demo, Test, Canary}

  function ProvenanceDomain(p: Provenance): Truth { Of(p in PROVENANCES) }

  function IdempotencyDomain(i: Idempotency): Truth {
    Absent(i.key).And(Absent(i.operation)).And(Absent(i.requestHash))
    .Or(Present(i.key).And(Present(i.operation)).And(Present(i.requestHash)))
  }

  predicate AllOrNone(i: Idempotency) {
    (i.key.Some? <==> i.operation.Some?) && (i.operation.Some? <==> i.requestHash.Some?)
  }

  lemma IdempotencyIsAllOrNone(i: Idempotency)
    ensures IdempotencyDomain(i) == Of(AllOrNone(i))
  {}

  // ---------- orders ----------

  const ORDER_STATUSES: set<OrderStatus> := {Open, PartiallyFilled, Filled, OrderCancelled, OrderExpired}

  function OrderDomain(o: Order): Truth {
    Present(o.core.side).And(Among(o.core.side, {Bid, Ask}))
    .And(Present(o.core.status)).And(Among(o.core.status, ORDER_STATUSES))
    .And(ProvenanceDomain(o.provenance))
    .And(Of(o.provenance != Demo)
         .Or(Among(o.core.status, {Open, PartiallyFilled}).Not())
         .Or(Present(o.core.expiresAt)))
    .And(IdempotencyDomain(o.idempotency))
  }

  function OrderNumeric(o: OrderCore): Truth {
    RequiredNumeric(o.quantity, 0.01, 100000.0, CENTS)
    .And(RequiredNumeric(o.remaining, 0.0, 100000.0, CENTS))
    .And(RequiredNumeric(o.price, 0.01, 1000000.0, CENTS))
    .And(OptionalNumeric(o.carbon, 0.0, 10000.0, CENTS))
    .And(OptionalNumeric(o.energy, 0.0, 10000.0, CENTS))
  }

  function OrderProgress(status: Option<OrderStatus>, quantity: Option<Numeric>, remaining: Option<Numeric>): Truth {
    Equals(status, Open).And(Same(remaining, quantity))
    .Or(Equals(status, PartiallyFilled).And(Gt(remaining, Lit(0.0))).And(Lt(remaining, quantity)))
    .Or(Equals(status, Filled).And(Same(remaining, Lit(0.0))))
    .Or(Among(status, {OrderCancelled, OrderExpired}))
  }

  function OrderLifecycle(status: Option<OrderStatus>, quantity: Option<Numeric>, remaining: Option<Numeric>): Truth {
    Le(remaining, quantity).And(OrderProgress(status, quantity, remaining))
  }

  /** In two-valued terms. */
  lemma OrderDomainIsExact(o: Order)
    ensures OrderDomain(o).Admitted() <==>
      && o.core.side in {Some(Bid), Some(Ask)}
      && o.core.status.Some? && !o.core.status.value.OtherOrderStatus?
      && !o.provenance.OtherProvenance?
      && (o.provenance == Demo && o.core.status.value in {Open, PartiallyFilled} ==> o.core.expiresAt.Some?)
      && AllOrNone(o.idempotency)
  {
    IdempotencyIsAllOrNone(o.idempotency);
  }

  /** Under the numeric CHECK: what is left of an order is what its status says. */
  lemma OrderLifecycleIsExact(o: OrderCore)
    requires OrderNumeric(o).Admitted() && o.status.Some?
    ensures OrderLifecycle(o.status, o.quantity, o.remaining).Admitted() <==>
      var all, left := o.quantity.value.x, o.remaining.value.x;
      match o.status.value
      case Open => left == all
      case PartiallyFilled => 0.0 < left < all
      case Filled => left == 0.0
      case OrderCancelled | OrderExpired => left <= all
      case OtherOrderStatus(_) => false
  {
    RequiredNumericIsExact(o.quantity, 0.01, 100000.0, CENTS);
    RequiredNumericIsExact(o.remaining, 0.0, 100000.0, CENTS);
  }

  predicate OrderChecks(o: Order) {
    && OrderDomain(o).Admitted()
    && OrderNumeric(o.core).Admitted()
    && OrderLifecycle(o.core.status, o.core.quantity, o.core.remaining).Admitted()
  }

  // ---------- trades ----------

  const TRADE_STATUSES: set<TradeStatus> :=
    {PendingConfirmation, Confirmed, Delivered, Paid, TradeCancelled, TradeDeclined}

  function TradeDomain(reg: Registry, t: Trade): Truth {
    Present(t.core.status).And(Among(t.core.status, TRADE_STATUSES))
    .And(Present(t.core.initiatedBy)).And(Among(t.core.initiatedBy, {Buyer, Seller}))
    .And(ProvenanceDomain(t.buyerProvenance)).And(ProvenanceDomain(t.sellerProvenance))
    .And(Of(t.core.buyer != t.core.seller))
    .And(Equals(t.core.initiatedBy, Buyer).And(Equals(t.initiatorOrg, t.core.buyer))
         .Or(Equals(t.core.initiatedBy, Seller).And(Equals(t.initiatorOrg, t.core.seller))))
    .And(IdempotencyDomain(t.idempotency))
    .And(Absent(t.snapshotVersion).Or(Of(TradablePair(reg, t))))
  }

  /** REAL trades with REAL; DEMO trades with DEMO and only between registered seed identities. */
  predicate TradablePair(reg: Registry, t: Trade) {
    || (t.buyerProvenance == Real && t.sellerProvenance == Real)
    || (t.buyerProvenance == Demo && t.sellerProvenance == Demo
        && t.core.buyer in reg.demo && t.core.seller in reg.demo)
  }

  function TradeNumeric(t: Trade): Truth {
    RequiredNumeric(t.core.quantity, 0.01, 100000.0, CENTS)
    .And(RequiredNumeric(t.core.price, 0.01, 1000000.0, CENTS))
    .And(OptionalNumeric(t.core.finalQuantity, 0.01, 100000.0, CENTS))
    .And(OptionalNumeric(t.core.finalPrice, 0.01, 1000000.0, CENTS))
    .And(OptionalNumeric(t.core.finalTotal, 0.0, 100000000000.0, CENTS))
    .And(RequiredNumeric(t.core.commissionRate, 0.0, 100.0, MILLS))
    .And(OptionalNumeric(t.feePerMt, 0.0, 100000.0, CENTS))
    .And(OptionalNumeric(t.core.commissionAmount, 0.0, 100000000000.0, CENTS))
  }

  predicate NullOrBounded(a: Option<Numeric>, minimum: real, maximum: real, scale: Scale) {
    a.None? || Bounded(a, minimum, maximum, scale)
  }

  lemma TradeNumericIsExact(t: Trade)
    ensures TradeNumeric(t) == Of(
      && Bounded(t.core.quantity, 0.01, 100000.0, CENTS) && Bounded(t.core.price, 0.01, 1000000.0, CENTS)
      && NullOrBounded(t.core.finalQuantity, 0.01, 100000.0, CENTS)
      && NullOrBounded(t.core.finalPrice, 0.01, 1000000.0, CENTS)
      && NullOrBounded(t.core.finalTotal, 0.0, 100000000000.0, CENTS)
      && Bounded(t.core.commissionRate, 0.0, 100.0, MILLS)
      && NullOrBounded(t.feePerMt, 0.0, 100000.0, CENTS)
      && NullOrBounded(t.core.commissionAmount, 0.0, 100000000000.0, CENTS))
  {
    RequiredNumericIsExact(t.core.quantity, 0.01, 100000.0, CENTS);
    RequiredNumericIsExact(t.core.price, 0.01, 1000000.0, CENTS);
    RequiredNumericIsExact(t.core.commissionRate, 0.0, 100.0, MILLS);
    OptionalNumericIsExact(t.core.finalQuantity, 0.01, 100000.0, CENTS);
    OptionalNumericIsExact(t.core.finalPrice, 0.01, 1000000.0, CENTS);
    OptionalNumericIsExact(t.core.finalTotal, 0.0, 100000000000.0, CENTS);
    OptionalNumericIsExact(t.feePerMt, 0.0, 100000.0, CENTS);
    OptionalNumericIsExact(t.core.commissionAmount, 0.0, 100000000000.0, CENTS);
    hide RequiredNumeric, OptionalNumeric, Bounded;
  }

  function Unsettled(t: TradeCore): Truth {
    Absent(t.finalQuantity).And(Absent(t.finalPrice)).And(Absent(t.finalTotal))
  }

  function Settled(t: TradeCore): Truth {
    Present(t.finalQuantity).And(Present(t.finalPrice)).And(Present(t.finalTotal))
  }

  function TradeStage(t: TradeCore): Truth {
    Equals(t.status, PendingConfirmation)
      .And(Absent(t.confirmedAt)).And(Absent(t.deliveredAt)).And(Absent(t.paidAt)).And(Unsettled(t))
    .Or(Equals(t.status, Confirmed)
      .And(Present(t.confirmedAt)).And(Absent(t.deliveredAt)).And(Absent(t.paidAt)).And(Unsettled(t)))
    .Or(Equals(t.status, Delivered)
      .And(Present(t.confirmedAt)).And(Present(t.deliveredAt)).And(Absent(t.paidAt)).And(Settled(t)))
    .Or(Equals(t.status, Paid)
      .And(Present(t.confirmedAt)).And(Present(t.deliveredAt)).And(Present(t.paidAt)).And(Settled(t)))
    .Or(Among(t.status, {TradeCancelled, TradeDeclined})
      .And(Absent(t.deliveredAt)).And(Absent(t.paidAt)).And(Unsettled(t)))
  }

  function TradeLifecycle(t: TradeCore): Truth {
    Absent(t.finalQuantity).Or(Le(t.finalQuantity, t.quantity)).And(TradeStage(t))
  }

  predicate IsDigit(c: char) { '0' <= c <= '9' }

  /** SPOT, YYYY-MM, YYYY-Qn or YYYY-CAL */
  predicate CanonicalWindow(w: string) {
    || w == "SPOT"
    || (&& |w| >= 7
        && IsDigit(w[0]) && IsDigit(w[1]) && IsDigit(w[2]) && IsDigit(w[3]) && w[4] == '-'
        && (|| (|w| == 7 && ((w[5] == '0' && '1' <= w[6] <= '9') || (w[5] == '1' && '0' <= w[6] <= '2')))
            || (|w| == 7 && w[5] == 'Q' && '1' <= w[6] <= '4')
            || (|w| == 8 && w[5..] == "CAL")))
  }

  datatype Window = Spot | Month(year: nat, month: nat) | Quarter(year: nat, quarter: nat) | Calendar(year: nat)

  predicate InCalendar(w: Window) {
    match w
    case Spot => true
    case Month(year, month) => year < 10000 && 1 <= month <= 12
    case Quarter(year, quarter) => year < 10000 && 1 <= quarter <= 4
    case Calendar(year) => year < 10000
  }

  function Digit(n: nat): char { '0' + (n % 10) as char }

  function YearText(year: nat): string {
    [Digit(year / 1000), Digit(year / 100), Digit(year / 10), Digit(year), '-']
  }

  function Written(w: Window): string {
    match w
    case Spot => "SPOT"
    case Month(year, month) => YearText(year) + [Digit(month / 10), Digit(month)]
    case Quarter(year, quarter) => YearText(year) + ['Q', Digit(quarter)]
    case Calendar(year) => YearText(year) + "CAL"
  }

  function Value(c: char): nat
    requires IsDigit(c)
  {
    (c - '0') as nat
  }

  function ReadYear(w: string): nat
    requires |w| >= 4 && forall i | 0 <= i < 4 :: IsDigit(w[i])
  {
    1000 * Value(w[0]) + 100 * Value(w[1]) + 10 * Value(w[2]) + Value(w[3])
  }

  lemma DigitReadsBack(k: nat, c: char)
    requires IsDigit(c)
    ensures Digit(10 * k + Value(c)) == c
  {
    assert (10 * k + Value(c)) % 10 == Value(c);
  }

  lemma Quotients(a: nat, b: nat, c: nat, d: nat)
    requires a < 10 && b < 10 && c < 10 && d < 10
    ensures var n := 1000 * a + 100 * b + 10 * c + d;
            n < 10000 && n / 1000 == a && n / 100 == 10 * a + b && n / 10 == 10 * (10 * a + b) + c
  {}

  lemma YearReadsBack(w: string)
    requires |w| >= 4 && forall i | 0 <= i < 4 :: IsDigit(w[i])
    ensures ReadYear(w) < 10000 && YearText(ReadYear(w)) == [w[0], w[1], w[2], w[3], '-']
  {
    var a, b, c, d := Value(w[0]), Value(w[1]), Value(w[2]), Value(w[3]);
    Quotients(a, b, c, d);
    DigitReadsBack(0, w[0]);
    DigitReadsBack(a, w[1]);
    DigitReadsBack(10 * a + b, w[2]);
    DigitReadsBack(10 * (10 * a + b) + c, w[3]);
    hide Digit, Value;
  }

  function ReadWindow(w: string): (window: Window)
    requires CanonicalWindow(w)
  {
    if w == "SPOT" then Spot
    else if w[5] == 'Q' then Quarter(ReadYear(w), Value(w[6]))
    else if w[5] == 'C' then Calendar(ReadYear(w))
    else Month(ReadYear(w), 10 * Value(w[5]) + Value(w[6]))
  }

  lemma WindowReadsBack(w: string)
    requires CanonicalWindow(w)
    ensures InCalendar(ReadWindow(w)) && Written(ReadWindow(w)) == w
  {
    if w != "SPOT" {
      YearReadsBack(w);
      assert w == [w[0], w[1], w[2], w[3], '-'] + w[5..];
      if |w| == 7 {
        var c, d := w[5], w[6];
        assert w[5..] == [c, d];
        DigitReadsBack(0, d);
        if c != 'Q' {
          DigitReadsBack(0, c);
          DigitReadsBack(Value(c), d);
          assert (10 * Value(c) + Value(d)) / 10 == Value(c);
        }
      }
      hide YearText, ReadYear, Digit;
    }
  }

  lemma WrittenIsCanonical(w: Window)
    requires InCalendar(w)
    ensures CanonicalWindow(Written(w))
  {}

  /** The three patterns and SPOT are exactly the spellings of a month, a quarter, a calendar year and spot. */
  lemma CanonicalWindowsAreWritten(w: string)
    ensures CanonicalWindow(w) <==> exists window :: InCalendar(window) && Written(window) == w
  {
    if CanonicalWindow(w) { WindowReadsBack(w); }
    if window :| InCalendar(window) && Written(window) == w { WrittenIsCanonical(window); }
  }

  function WindowCanonical(w: Option<string>): Truth {
    if w.None? then IsNull else Of(CanonicalWindow(w.value))
  }

  function NonBlank(s: Option<string>): Truth {
    if s.None? then IsNull else Of(!Blank(s.value))
  }

  function TradeSnapshot(reg: Registry, t: Trade): Truth {
    Absent(t.snapshotVersion)
    .Or(Equals(t.snapshotVersion, 1)
        .And(Present(t.slice.product))
        .And(Present(t.slice.productName)).And(NonBlank(t.slice.productName))
        .And(Present(t.slice.fuelType)).And(NonBlank(t.slice.fuelType))
        .And(Present(t.slice.fuelGrade)).And(NonBlank(t.slice.fuelGrade))
        .And(Among(t.slice.marketProduct, reg.marketProducts))
        .And(Present(t.slice.window)).And(WindowCanonical(t.slice.window))
        .And(Present(t.slice.point)).And(Present(t.slice.pointName)).And(Present(t.slice.pointRegion)))
  }

  function CommissionSnapshot(t: Trade): Truth {
    Absent(t.feePerMt).And(Absent(t.plan))
    .Or(Present(t.feePerMt).And(Same(t.core.commissionRate, Lit(0.0)))
        .And(Present(t.plan)).And(Among(t.plan, {Free, Standard, Enterprise})))
  }

  /** In two-valued terms, for a row whose initiator is there. */
  lemma TradeDomainIsExact(reg: Registry, t: Trade)
    requires t.initiatorOrg.Some?
    ensures TradeDomain(reg, t).Admitted() <==>
      && t.core.status.Some? && !t.core.status.value.OtherTradeStatus?
      && !t.buyerProvenance.OtherProvenance? && !t.sellerProvenance.OtherProvenance?
      && t.core.buyer != t.core.seller
      && (t.core.initiatedBy, t.initiatorOrg.value) in {(Some(Buyer), t.core.buyer), (Some(Seller), t.core.seller)}
      && AllOrNone(t.idempotency)
      && (t.snapshotVersion.Some? ==>
            && t.buyerProvenance == t.sellerProvenance && t.buyerProvenance in {Real, Demo}
            && (t.buyerProvenance == Demo ==> {t.core.buyer, t.core.seller} <= reg.demo))
  {
    IdempotencyIsAllOrNone(t.idempotency);
  }

  /** The stages a trade has behind it: confirmed, delivered, paid. */
  function Reached(status: TradeStatus): nat {
    match status
    case PendingConfirmation => 0
    case Confirmed => 1
    case Delivered => 2
    case Paid => 3
    case _ => 0
  }

  /** Each status has exactly the times of the stages behind it and the final figures from delivery on; a
      cancelled or declined trade was at most confirmed; and no more is delivered than was traded. */
  lemma TradeLifecycleIsExact(t: TradeCore)
    requires t.status.Some? && t.quantity.Some?
    ensures TradeLifecycle(t).Admitted() <==>
      var closed, reached := t.status.value in {TradeCancelled, TradeDeclined}, Reached(t.status.value);
      && !t.status.value.OtherTradeStatus?
      && (closed || (t.confirmedAt.Some? <==> reached >= 1))
      && (t.deliveredAt.Some? <==> reached >= 2)
      && (t.paidAt.Some? <==> reached >= 3)
      && (t.finalQuantity.Some? <==> reached >= 2)
      && (t.finalPrice.Some? <==> reached >= 2)
      && (t.finalTotal.Some? <==> reached >= 2)
      && (t.finalQuantity.Some? ==> LessEq(t.finalQuantity.value, t.quantity.value))
  {}

  /** A versioned snapshot is complete but for one column: a NULL market product makes the test unknown, which a
      CHECK lets through. */
  lemma TradeSnapshotIsExact(reg: Registry, t: Trade)
    ensures TradeSnapshot(reg, t).Admitted() <==> (t.snapshotVersion.Some? ==>
      var s := t.slice;
      && t.snapshotVersion == Some(1)
      && s.product.Some? && s.point.Some? && s.pointName.Some? && s.pointRegion.Some?
      && s.productName.Some? && !Blank(s.productName.value)
      && s.fuelType.Some? && !Blank(s.fuelType.value)
      && s.fuelGrade.Some? && !Blank(s.fuelGrade.value)
      && (s.marketProduct.Some? ==> s.marketProduct.value in reg.marketProducts)
      && s.window.Some? && CanonicalWindow(s.window.value))
  {
    hide Blank, CanonicalWindow;
  }

  /** A recorded fee goes with one of the three plans and, wherever there is a rate, a rate of zero. */
  lemma CommissionSnapshotIsExact(t: Trade)
    ensures CommissionSnapshot(t).Admitted() <==>
      && (t.feePerMt.Some? <==> t.plan.Some?)
      && (t.feePerMt.Some? ==> !t.plan.value.OtherPlan? && t.core.commissionRate in {None, Lit(0.0)})
  {}

  predicate TradeChecks(reg: Registry, t: Trade) {
    && TradeDomain(reg, t).Admitted()
    && TradeNumeric(t).Admitted()
    && TradeLifecycle(t.core).Admitted()
    && TradeSnapshot(reg, t).Admitted()
    && CommissionSnapshot(t).Admitted()
    && t.initiatorOrg.Some?  // NOT NULL
  }

  // ---------- inventory, RFQs, quotes, negotiations, rounds ----------

  function InventoryNumeric(i: Inventory): Truth {
    RequiredNumeric(i.current, 0.0, 100000.0, CENTS)
    .And(RequiredNumeric(i.incoming, 0.0, 100000.0, CENTS))
    .And(RequiredNumeric(i.reserved, 0.0, 100000.0, CENTS))
    .And(OptionalNumeric(i.price, 0.01, 1000000.0, CENTS))
    .And(OptionalNumeric(i.energy, 0.0, 10000.0, CENTS))
    .And(OptionalNumeric(i.carbon, 0.0, 10000.0, CENTS))
  }

  const RFQ_STATUSES: set<RfqStatus> := {RfqOpen, Quoted, RfqAccepted, RfqExpired, RfqCancelled}

  function RfqDomain(r: RfqCore): Truth {
    Present(r.status).And(Among(r.status, RFQ_STATUSES))
  }

  function RfqNumeric(r: RfqCore): Truth {
    RequiredNumeric(r.quantity, 0.01, 100000.0, CENTS)
    .And(OptionalNumeric(r.target, 0.01, 1000000.0, CENTS))
  }

  function RfqLifecycle(r: Rfq): Truth {
    Equals(r.core.status, RfqAccepted).And(Present(r.acceptedQuote)).And(Present(r.trade))
    .Or(Equals(r.core.status, RfqAccepted).Not().And(Absent(r.acceptedQuote)).And(Absent(r.trade)))
  }

  predicate RfqChecks(r: Rfq) {
    RfqDomain(r.core).Admitted() && RfqNumeric(r.core).Admitted() && RfqLifecycle(r).Admitted()
  }

  const QUOTE_STATUSES: set<QuoteStatus> := {QuotePending, QuoteAccepted, QuoteDeclined, QuoteWithdrawn}

  function QuoteDomain(q: Quote): Truth {
    Present(q.status).And(Among(q.status, QUOTE_STATUSES))
  }

  function QuoteNumeric(q: Quote): Truth { RequiredNumeric(q.price, 0.01, 1000000.0, CENTS) }

  predicate QuoteChecks(q: Quote) { QuoteDomain(q).Admitted() && QuoteNumeric(q).Admitted() }

  const NEGOTIATION_STATUSES: set<NegotiationStatus> :=
    {NegotiationOpen, Countered, Agreed, NegotiationDeclined, NegotiationExpired}

  function NegotiationDomain(n: NegotiationCore): Truth {
    Present(n.status).And(Among(n.status, NEGOTIATION_STATUSES))
    .And(Present(n.initiatorSide)).And(Among(n.initiatorSide, {Buyer, Seller}))
    .And(Of(n.initiator != n.counterparty))
  }

  function NegotiationNumeric(n: NegotiationCore): Truth {
    RequiredNumeric(n.quantity, 0.01, 100000.0, CENTS)
    .And(RequiredNumeric(n.currentPrice, 0.01, 1000000.0, CENTS))
  }

  function NegotiationLifecycle(n: NegotiationCore): Truth {
    Equals(n.status, Agreed).And(Present(n.trade))
    .Or(Equals(n.status, Agreed).Not().And(Absent(n.trade)))
  }

  predicate NegotiationChecks(n: NegotiationCore) {
    && NegotiationDomain(n).Admitted() && NegotiationNumeric(n).Admitted()
    && NegotiationLifecycle(n).Admitted()
  }

  predicate RoundChecks(price: Option<Numeric>) {
    RequiredNumeric(price, 0.01, 1000000.0, CENTS).Admitted()
  }
}
