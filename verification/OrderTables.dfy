/**
 * The order rows a webhook writes, their constraints, and what each event does to them
 * (packages/db/src/queries/orders.ts, packages/db/src/schema/market.ts and the handlers of
 * apps/api/src/routes/stripe-webhook.ts), one transaction at a time.
 */
module OrderTables {
  import opened Wrappers
  import opened Orders
  import opened Uuids

  type OrderId = string
  type PaymentIntent = string
  type SessionId = string
  type ListingId = string
  type EventId = string

  datatype Order = Order(
    status: OrderStatus,
    checkoutId: Option<SessionId>,
    paymentIntent: Option<PaymentIntent>,
    taxCents: int,
    tracked: bool,
    listing: Option<ListingId>,
    history: seq<OrderEvent>)

  datatype AuditAction = OrderPaid | PaymentRefused | OrderRefunded | RefundRefused | OrderChargeback

  /** An order's own id; or, of a refused payment, the order id in the spelling the event had. */
  datatype AuditTarget = TheOrder(id: OrderId) | AsWritten(text: string)

  datatype AuditEntry = AuditEntry(action: AuditAction, target: AuditTarget)

  /** The tables; `byIntent` is the unique index the lookups by payment intent go through. */
  datatype Db = Db(
    claims: set<EventId>,
    orders: map<OrderId, Order>,
    byIntent: map<PaymentIntent, OrderId>,
    sold: set<ListingId>,
    audit: seq<AuditEntry>)

  const EMPTY := Db({}, map[], map[], {}, [])

  /** The parts of each event the handlers read; what an event leaves out, or gives another type, is `None`. */
  datatype Payload =
    | CheckoutCompleted(
        paid: bool, orderId: Option<string>, intent: Option<PaymentIntent>, sessionId: Option<SessionId>,
          tax: Option<real>)
    | ChargeRefunded(intent: Option<PaymentIntent>, amount: Option<real>, amountRefunded: Option<real>)
    | ChargeDisputed(intent: Option<PaymentIntent>, reason: Option<string>)
    | OtherEvent

  datatype Event = Event(id: EventId, payload: Payload)

  // ------------------------------------------------------------------ //
  // What the database accepts
  // ------------------------------------------------------------------ //

  /** PostgreSQL text holds no null character. */
  predicate Storable(s: string) {
    '\0' !in s
  }

  /** `orders_tax_non_negative`, and what an integer column holds. */
  predicate TaxFits(tax: Option<int>) {
    tax.Some? ==> 0 <= tax.value <= 0x7FFF_FFFF
  }

  /** `order_events_reason_length`. */
  predicate ReasonFits(reason: string) {
    Storable(reason) && |reason| <= 280
  }

  /** `orders_shipped_has_tracking`. */
  predicate TrackingFits(status: OrderStatus, tracked: bool) {
    status in {Shipped, Delivered, Completed} ==> tracked
  }

  predicate IsOpen(status: OrderStatus) {
    status != Cancelled && status != Refunded
  }

  /** `orders_checkout_key`: another order already holds this session. */
  predicate SessionTaken(db: Db, session: SessionId, id: OrderId) {
    exists other :: other in db.orders && other != id && db.orders[other].checkoutId == Some(session)
  }

  /** `orders_one_open_per_listing`. */
  predicate ListingTaken(db: Db, listing: ListingId) {
    exists other :: other in db.orders && db.orders[other].listing == Some(listing) && IsOpen(db.orders[other].status)
  }

  // ------------------------------------------------------------------ //
  // One event and one row
  // ------------------------------------------------------------------ //

  /** The one place an order is moved: the row and its history together, or neither. */
  function Move(order: Order, to: OrderStatus, actor: OrderActor): Result<Order, IllegalTransition> {
    match Transition(order.status, to, actor)
    case Err(e) => Err(e)
    case Ok(next) =>
      Ok(order.(status := next, history := order.history + [OrderEvent(order.status, next, actor)]))
  }

  /** Whether the handler gets as far as looking for an order. */
  predicate Concerns(e: Payload) {
    match e
    case CheckoutCompleted(paid, orderId, intent, sessionId, _) =>
      paid && orderId.Some? && intent.Some? && sessionId.Some?
    case ChargeRefunded(intent, amount, refunded) =>
      intent.Some? && amount.Some? && refunded.Some? && refunded.value >= amount.value
    case ChargeDisputed(intent, _) => intent.Some?
    case OtherEvent => false
  }

  /** No lookup, one the database rejects, no such order, or the order. */
  datatype Lookup = Ignored | BadKey | Missing | At(id: OrderId)

  function FindByIntent(db: Db, intent: PaymentIntent): (found: Lookup)
    ensures found.At? ==> found.id in db.orders
  {
    if !Storable(intent) then BadKey
    else if intent !in db.byIntent || db.byIntent[intent] !in db.orders then Missing
    else At(db.byIntent[intent])
  }

  function Find(db: Db, e: Payload): (found: Lookup)
    ensures found.At? ==> Concerns(e) && found.id in db.orders
  {
    if !Concerns(e) then Ignored
    else match e
      case CheckoutCompleted(_, orderId, _, _, _) =>
        (match ParseUuid(orderId.value)
         case None => BadKey
         case Some(id) => if id in db.orders then At(id) else Missing)
      case ChargeRefunded(intent, _, _) => FindByIntent(db, intent.value)
      case ChargeDisputed(intent, _) => FindByIntent(db, intent.value)
  }

  /** Nothing to do; a move that is not one, which may be noted; a write; a value the database rejects. */
  datatype Decision = Leave | Refuse(note: Option<Refusal>) | Write(row: Order, action: AuditAction) | Fail

  datatype Refusal = Refusal(action: AuditAction, written: Option<string>)

  /** The tax, when it is a whole number. */
  function TaxOf(e: Payload): Option<int>
    requires e.CheckoutCompleted?
  {
    if e.tax.Some? && e.tax.value == e.tax.value.Floor as real then Some(e.tax.value.Floor) else None
  }

  function DisputeReason(e: Payload): string
    requires e.ChargeDisputed?
  {
    if e.reason.Some? then "chargeback:" + e.reason.value else "chargeback opened"
  }

  /** What the handler does with the row it has locked. */
  function Decide(order: Order, e: Payload): Decision
    requires Concerns(e)
  {
    match e
    case CheckoutCompleted(_, orderId, intent, sessionId, _) =>
      if order.status == Paid then Leave
      else (match Move(order, Paid, Stripe)
            case Err(_) => Refuse(Some(Refusal(PaymentRefused, orderId)))
            case Ok(moved) =>
              if !Storable(intent.value) || !Storable(sessionId.value) || !TaxFits(TaxOf(e)) then Fail
              else Write(moved.(paymentIntent := intent, checkoutId := sessionId,
                                taxCents := if TaxOf(e).Some? then TaxOf(e).value else moved.taxCents), OrderPaid))
    case ChargeRefunded(_, _, _) =>
      if order.status == Refunded then Leave
      else (match Move(order, Refunded, Stripe)
            case Err(_) => Refuse(Some(Refusal(RefundRefused, None)))
            case Ok(moved) => Write(moved, OrderRefunded))
    case ChargeDisputed(_, _) =>
      if order.status == Disputed || order.status == Refunded then Leave
      else (match Move(order, Disputed, Stripe)
            case Err(_) => Refuse(None)
            case Ok(moved) => if ReasonFits(DisputeReason(e)) then Write(moved, OrderChargeback) else Fail)
  }

  /** A payment whose intent or session another order holds breaks a unique index. */
  predicate Clashes(db: Db, id: OrderId, d: Decision) {
    && d.Write? && d.action == OrderPaid && d.row.paymentIntent.Some? && d.row.checkoutId.Some?
    && (|| (d.row.paymentIntent.value in db.byIntent && db.byIntent[d.row.paymentIntent.value] != id)
        || SessionTaken(db, d.row.checkoutId.value, id))
  }

  function RefusalEntry(note: Refusal, id: OrderId): AuditEntry {
    AuditEntry(note.action, if note.written.Some? then AsWritten(note.written.value) else TheOrder(id))
  }

  function Apply(db: Db, id: OrderId, d: Decision): Db {
    match d
    case Leave => db
    case Fail => db
    case Refuse(note) => if note.Some? then db.(audit := db.audit + [RefusalEntry(note.value, id)]) else db
    case Write(row, action) =>
      var paid := action == OrderPaid;
      db.(
        orders := db.orders[id := row],
        byIntent := if paid && row.paymentIntent.Some? then db.byIntent[row.paymentIntent.value := id] else db.byIntent,
        sold := if paid && row.listing.Some? then db.sold + {row.listing.value} else db.sold,
        audit := db.audit + [AuditEntry(action, TheOrder(id))])
  }

  /** One event handled with nobody else about; `None` is a thrown error. */
  function Handle(db: Db, e: Payload): Option<Db> {
    match Find(db, e)
    case Ignored => Some(db)
    case BadKey => None
    case Missing => Some(db)
    case At(id) =>
      var d := Decide(db.orders[id], e);
      if d == Fail || Clashes(db, id, d) then None else Some(Apply(db, id, d))
  }

  // ------------------------------------------------------------------ //
  // What every order keeps
  // ------------------------------------------------------------------ //

  /** The row agrees with its history, carries a payment intent exactly when it was paid, and passes the checks. */
  ghost predicate OrderOk(order: Order) {
    && History(order.history) && order.status == StatusAfter(order.history)
    && (order.paymentIntent.Some? <==> Payments(order.history) == 1)
    && TrackingFits(order.status, order.tracked) && TaxFits(Some(order.taxCents))
  }

  ghost predicate IndexOk(db: Db) {
    && (forall id :: id in db.orders && db.orders[id].paymentIntent.Some? ==>
          db.orders[id].paymentIntent.value in db.byIntent && db.byIntent[db.orders[id].paymentIntent.value] == id)
    && (forall intent :: intent in db.byIntent ==>
          db.byIntent[intent] in db.orders && db.orders[db.byIntent[intent]].paymentIntent == Some(intent)
            && Storable(intent))
  }

  ghost predicate SessionsUnique(orders: map<OrderId, Order>) {
    forall a, b :: a in orders && b in orders && a != b && orders[a].checkoutId.Some? ==>
      orders[a].checkoutId != orders[b].checkoutId
  }

  /** No listing has two open orders. */
  ghost predicate OneOpenEach(orders: map<OrderId, Order>) {
    forall a, b ::
      a in orders && b in orders && a != b && orders[a].listing.Some? && orders[a].listing == orders[b].listing ==>
        !IsOpen(orders[a].status) || !IsOpen(orders[b].status)
  }

  ghost predicate Inv(db: Db) {
    && IndexOk(db) && SessionsUnique(db.orders) && OneOpenEach(db.orders)
    && forall id :: id in db.orders ==> OrderOk(db.orders[id])
  }

  lemma MoveKeeps(order: Order, to: OrderStatus, actor: OrderActor)
    requires OrderOk(order) && Move(order, to, actor).Ok?
    ensures var moved := Move(order, to, actor).value;
            && History(moved.history) && moved.status == to == StatusAfter(moved.history)
            && CanTransition(order.status, to, actor) && IsOpen(order.status)
            && Payments(moved.history)
              == Payments(order.history) + (if order.status == Created && to == Paid then 1 else 0)
            && moved == order.(status := moved.status, history := moved.history)
  {
    HistoryGrows(order.history, to, actor);
    MoveFacts(order.status, to, actor);
    var moved := Move(order, to, actor).value;
    assert moved.history[..|moved.history| - 1] == order.history;
    hide MOVES, History, CanTransition;
  }

  /** A row rewritten in place, keeping its unique columns and its listing and not reopened, keeps everything. */
  lemma RewriteKeepsInv(db: Db, id: OrderId, row: Order)
    requires Inv(db) && id in db.orders && OrderOk(row)
    requires row.paymentIntent == db.orders[id].paymentIntent && row.listing == db.orders[id].listing
    requires IsOpen(row.status) ==> IsOpen(db.orders[id].status)
    requires row.checkoutId.Some? ==> !SessionTaken(db, row.checkoutId.value, id)
    ensures Inv(db.(orders := db.orders[id := row]))
  {
    hide OrderOk, IsOpen, SessionsUnique, OneOpenEach, SessionTaken, Storable;
    SessionsStayUnique(db, id, row);
    ListingsStayOpenOnce(db.orders, id, row);
  }

  /**
   * What can be written after a move that is not a payment: tracking with a shipment, never without one
   * where it is needed.
   */
  lemma UnpaidRowIsOk(order: Order, to: OrderStatus, actor: OrderActor, tracked: bool)
    requires OrderOk(order) && to != Paid && Move(order, to, actor).Ok? && TrackingFits(to, tracked)
    ensures OrderOk(Move(order, to, actor).value.(tracked := tracked))
    ensures IsOpen(order.status)
  {
    MoveKeeps(order, to, actor);
    hide Move, History, StatusAfter, Payments;
  }

  lemma PaidRowIsOk(order: Order, intent: PaymentIntent, session: SessionId, tax: int)
    requires OrderOk(order) && Move(order, Paid, Stripe).Ok? && TaxFits(Some(tax))
    ensures order.paymentIntent == None && order.status == Created
    ensures OrderOk(Move(order, Paid, Stripe).value.(paymentIntent := Some(intent), checkoutId := Some(session),
              taxCents := tax))
  {
    MoveKeeps(order, Paid, Stripe);
    PaidOnce(order.history);
    MoveFacts(order.status, Paid, Stripe);
    hide Move, History, StatusAfter, Payments, CanTransition;
  }

  /** The index gains one entry, for an order that had none and an intent that was free. */
  lemma IndexGrows(before: Db, after: Db, id: OrderId, row: Order, intent: PaymentIntent)
    requires IndexOk(before) && id in before.orders && before.orders[id].paymentIntent == None
    requires intent in before.byIntent ==> before.byIntent[intent] == id
    requires after.orders == before.orders[id := row] && row.paymentIntent == Some(intent) && Storable(intent)
    requires after.byIntent == before.byIntent[intent := id]
    ensures IndexOk(after)
  {
    hide Storable;
  }

  lemma SessionsStayUnique(db: Db, id: OrderId, row: Order)
    requires SessionsUnique(db.orders) && (row.checkoutId.Some? ==> !SessionTaken(db, row.checkoutId.value, id))
    ensures SessionsUnique(db.orders[id := row])
  {
  }

  lemma ListingsStayOpenOnce(orders: map<OrderId, Order>, id: OrderId, row: Order)
    requires OneOpenEach(orders) && id in orders && row.listing == orders[id].listing
    requires IsOpen(row.status) ==> IsOpen(orders[id].status)
    ensures OneOpenEach(orders[id := row])
  {
    hide IsOpen;
  }

  lemma PaymentKeepsInv(db: Db, id: OrderId, row: Order)
    requires Inv(db) && id in db.orders && OrderOk(row) && row.paymentIntent.Some? && row.checkoutId.Some?
    requires db.orders[id].paymentIntent == None && row.listing == db.orders[id].listing && IsOpen(db.orders[id].status)
    requires Storable(row.paymentIntent.value) && !Clashes(db, id, Write(row, OrderPaid))
    ensures Inv(Apply(db, id, Write(row, OrderPaid)))
  {
    hide OrderOk, IsOpen, Storable, IndexOk, SessionsUnique, OneOpenEach, SessionTaken;
    var after := Apply(db, id, Write(row, OrderPaid));
    IndexGrows(db, after, id, row, row.paymentIntent.value);
    SessionsStayUnique(db, id, row);
    ListingsStayOpenOnce(db.orders, id, row);
  }

  lemma HandleKeepsInv(db: Db, e: Payload)
    requires Inv(db) && Handle(db, e).Some?
    ensures Inv(Handle(db, e).value) && Handle(db, e).value.claims == db.claims
  {
    hide ParseUuid, Storable, Move, Inv, Clashes, Apply;
    match Find(db, e)
    case Ignored =>
    case BadKey =>
    case Missing =>
    case At(id) => DecisionKeepsInv(db, id, e);
  }

  lemma DecisionKeepsInv(db: Db, id: OrderId, e: Payload)
    requires Inv(db) && Concerns(e) && id in db.orders
    requires var d := Decide(db.orders[id], e); d != Fail && !Clashes(db, id, d)
    ensures Inv(Apply(db, id, Decide(db.orders[id], e)))
    ensures Apply(db, id, Decide(db.orders[id], e)).claims == db.claims
  {
    hide IndexOk, SessionsUnique, OneOpenEach, OrderOk, Clashes, Storable, MOVES;
    var order := db.orders[id];
    var d := Decide(order, e);
    assert OrderOk(order);
    if d.Write? {
      WrittenRowIsOk(order, e);
      hide Decide;
      if d.action == OrderPaid { PaymentKeepsInv(db, id, d.row); } else { UnpaidWriteKeepsInv(db, id, d); }
    } else {
      hide Decide;
      AuditKeepsInv(db, Apply(db, id, d).audit);
    }
  }

  lemma AuditKeepsInv(db: Db, audit: seq<AuditEntry>)
    requires Inv(db)
    ensures Inv(db.(audit := audit))
  {
    hide OrderOk, SessionsUnique, OneOpenEach, Storable;
  }

  /** What the handler writes keeps the row in order and its listing; only a payment touches the unique columns. */
  lemma WrittenRowIsOk(order: Order, e: Payload)
    requires OrderOk(order) && Concerns(e) && Decide(order, e).Write?
    ensures var d := Decide(order, e);
            && OrderOk(d.row) && d.row.listing == order.listing && IsOpen(order.status)
            && (d.action == OrderPaid ==>
                  && order.paymentIntent == None && d.row.paymentIntent.Some? && d.row.checkoutId.Some?
                  && order.status == Created && Storable(d.row.paymentIntent.value))
            && (d.action != OrderPaid ==>
              d.row.paymentIntent == order.paymentIntent && d.row.checkoutId == order.checkoutId)
  {
    hide Storable, ReasonFits, Transition;
    var d := Decide(order, e);
    if e.CheckoutCompleted? {
      hide OrderOk, TaxOf;
      OrderTaxFits(order);
      PaidRowIsOk(order, d.row.paymentIntent.value, d.row.checkoutId.value, d.row.taxCents);
    } else {
      var to := if e.ChargeRefunded? then Refunded else Disputed;
      UnpaidRowIsOk(order, to, Stripe, order.tracked);
      assert d.row == Move(order, to, Stripe).value.(tracked := order.tracked);
    }
  }

  lemma OrderTaxFits(order: Order)
    requires OrderOk(order)
    ensures TaxFits(Some(order.taxCents))
  {
  }

  lemma UnpaidWriteKeepsInv(db: Db, id: OrderId, d: Decision)
    requires Inv(db) && id in db.orders && d.Write? && d.action != OrderPaid && OrderOk(d.row)
    requires d.row.paymentIntent == db.orders[id].paymentIntent && d.row.listing == db.orders[id].listing
    requires d.row.checkoutId == db.orders[id].checkoutId && IsOpen(db.orders[id].status)
    ensures Inv(Apply(db, id, d))
  {
    hide OrderOk, IsOpen;
    RewriteKeepsInv(db, id, d.row);
  }

  // ------------------------------------------------------------------ //
  // Which event moves which order, and which event throws
  // ------------------------------------------------------------------ //

  /** What an event says about one order, in terms of the order's own row. */
  predicate PaysFor(e: Payload, id: OrderId) {
    && e.CheckoutCompleted? && e.paid && e.intent.Some? && e.sessionId.Some?
    && e.orderId.Some? && ParseUuid(e.orderId.value) == Some(id)
  }

  predicate RefundsInFull(e: Payload, order: Order) {
    && e.ChargeRefunded? && e.intent.Some? && e.intent == order.paymentIntent
    && e.amount.Some? && e.amountRefunded.Some? && e.amountRefunded.value >= e.amount.value
  }

  predicate ChargesBack(e: Payload, order: Order) {
    e.ChargeDisputed? && e.intent.Some? && e.intent == order.paymentIntent
  }

  predicate CanBeRefunded(status: OrderStatus) {
    status in {Paid, Shipped, Delivered, Completed, Disputed}
  }

  predicate CanBeDisputed(status: OrderStatus) {
    status in {Paid, Shipped, Delivered, Completed}
  }

  lemma StripeMoves(order: Order)
    ensures Move(order, Paid, Stripe).Ok? <==> order.status == Created
    ensures Move(order, Refunded, Stripe).Ok? <==> CanBeRefunded(order.status)
    ensures Move(order, Disputed, Stripe).Ok? <==> CanBeDisputed(order.status)
    ensures forall to :: Move(order, to, Stripe).Ok? ==> Move(order, to, Stripe).value.status == to
    ensures forall to :: Move(order, to, Stripe).Ok? ==>
              Move(order, to, Stripe).value.paymentIntent == order.paymentIntent
  {
    StripePays(order.status);
    StripeRefunds(order.status);
    StripeDisputes(order.status);
    hide MOVES;
  }

  lemma StripePays(from: OrderStatus)
    ensures CanTransition(from, Paid, Stripe) <==> from == Created
  {
  }

  lemma StripeRefunds(from: OrderStatus)
    ensures CanTransition(from, Refunded, Stripe) <==> CanBeRefunded(from)
  {
  }

  lemma StripeDisputes(from: OrderStatus)
    ensures CanTransition(from, Disputed, Stripe) <==> CanBeDisputed(from)
  {
  }

  /** A lookup by intent finds exactly the order that carries it. */
  lemma FindsItsOrder(db: Db, intent: PaymentIntent, id: OrderId)
    requires Inv(db)
    ensures id in db.orders && db.orders[id].paymentIntent == Some(intent) ==> Storable(intent)
    ensures FindByIntent(db, intent) == At(id) <==> id in db.orders && db.orders[id].paymentIntent == Some(intent)
  {
    hide OrderOk, SessionsUnique, OneOpenEach;
  }

  /** What one handled event does to the status of each order. */
  lemma HandlerMovesIff(db: Db, e: Payload, id: OrderId)
    requires Inv(db) && Handle(db, e).Some? && id in db.orders
    ensures id in Handle(db, e).value.orders
    ensures var order := db.orders[id];
            Handle(db, e).value.orders[id].status
            == if order.status == Created && PaysFor(e, id) then Paid
               else if CanBeRefunded(order.status) && RefundsInFull(e, order) then Refunded
               else if CanBeDisputed(order.status) && ChargesBack(e, order) then Disputed
               else order.status
    ensures Handle(db, e).value.orders[id].paymentIntent
            == if db.orders[id].status == Created && PaysFor(e, id) then e.intent else db.orders[id].paymentIntent
  {
    hide Move, ParseUuid, Storable, FindByIntent, Clashes, Inv;
    if Concerns(e) && !e.CheckoutCompleted? { FindsItsOrder(db, e.intent.value, id); }
    match Find(db, e)
    case Ignored =>
    case BadKey =>
    case Missing =>
    case At(other) => StripeMoves(db.orders[other]);
  }

  predicate WholeTax(e: Payload) {
    e.CheckoutCompleted? && e.tax.Some? && e.tax.value == e.tax.value.Floor as real
  }

  /** The event is about this order: it names it, or carries the intent that paid it. */
  predicate IsAbout(e: Payload, id: OrderId, order: Order) {
    PaysFor(e, id) || RefundsInFull(e, order) || ChargesBack(e, order)
  }

  lemma MoveWrites(order: Order, to: OrderStatus)
    requires Move(order, to, Stripe).Ok?
    ensures Move(order, to, Stripe).value
            == order.(status := to, history := order.history + [OrderEvent(order.status, to, Stripe)])
  {
    hide MOVES;
  }

  lemma DecidesPayment(order: Order, e: Payload)
    requires e.CheckoutCompleted? && Concerns(e)
    ensures var d := Decide(order, e);
            d == if order.status == Paid then Leave
                 else if order.status != Created then Refuse(Some(Refusal(PaymentRefused, e.orderId)))
                 else if d == Fail then Fail
                 else Write(Order(Paid, e.sessionId, e.intent,
                                  if WholeTax(e) then e.tax.value.Floor else order.taxCents,
                                  order.tracked, order.listing, order.history + [OrderEvent(Created, Paid, Stripe)]),
                            OrderPaid)
  {
    StripeMoves(order);
    hide Move, Storable, TaxFits;
    if order.status == Created { MoveWrites(order, Paid); }
  }

  lemma DecidesRefund(order: Order, e: Payload)
    requires e.ChargeRefunded? && Concerns(e)
    ensures Decide(order, e)
            == if order.status == Refunded then Leave
               else if !CanBeRefunded(order.status) then Refuse(Some(Refusal(RefundRefused, None)))
               else Write(order.(status := Refunded,
                                 history := order.history + [OrderEvent(order.status, Refunded, Stripe)]),
                          OrderRefunded)
  {
    StripeMoves(order);
    hide Move;
    if CanBeRefunded(order.status) { MoveWrites(order, Refunded); }
  }

  lemma DecidesDispute(order: Order, e: Payload)
    requires e.ChargeDisputed? && Concerns(e)
    ensures var d := Decide(order, e);
            d == if order.status == Disputed || order.status == Refunded then Leave
                 else if !CanBeDisputed(order.status) then Refuse(None)
                 else if d == Fail then Fail
                 else Write(order.(status := Disputed,
                                   history := order.history + [OrderEvent(order.status, Disputed, Stripe)]),
                            OrderChargeback)
  {
    StripeMoves(order);
    hide Move, ReasonFits;
    if CanBeDisputed(order.status) { MoveWrites(order, Disputed); }
  }

  /** An event finds the order it is about, and no other. */
  lemma FindsIffAbout(db: Db, e: Payload, id: OrderId)
    requires Inv(db)
    ensures Find(db, e) == At(id) <==> id in db.orders && IsAbout(e, id, db.orders[id])
  {
    hide Inv, ParseUuid, Storable, FindByIntent;
    if Concerns(e) && !e.CheckoutCompleted? { FindsItsOrder(db, e.intent.value, id); }
  }

  /**
   * Everything one handled event writes about the order it is about, and that it writes nothing about
   * any other: the row, the listing it sells, and what it notes.
   */
  lemma HandlerWrites(db: Db, e: Payload, id: OrderId)
    requires Inv(db) && Handle(db, e).Some? && id in db.orders && IsAbout(e, id, db.orders[id])
    ensures var order, after := db.orders[id], Handle(db, e).value;
            && after.orders == db.orders[id :=
                 if PaysFor(e, id) && order.status == Created then
                   Order(Paid, e.sessionId, e.intent, if WholeTax(e) then e.tax.value.Floor else order.taxCents,
                         order.tracked, order.listing, order.history + [OrderEvent(Created, Paid, Stripe)])
                 else if RefundsInFull(e, order) && CanBeRefunded(order.status) then
                   order.(status := Refunded, history := order.history + [OrderEvent(order.status, Refunded, Stripe)])
                 else if ChargesBack(e, order) && CanBeDisputed(order.status) then
                   order.(status := Disputed, history := order.history + [OrderEvent(order.status, Disputed, Stripe)])
                 else order]
            && after.sold == db.sold + (if PaysFor(e, id) && order.status == Created && order.listing.Some?
                                        then {order.listing.value} else {})
            && after.audit == db.audit + (
                 if PaysFor(e, id) then
                   if order.status == Created then [AuditEntry(OrderPaid, TheOrder(id))]
                   else if order.status == Paid then []
                   else [AuditEntry(PaymentRefused, AsWritten(e.orderId.value))]
                 else if RefundsInFull(e, order) then
                   if CanBeRefunded(order.status) then [AuditEntry(OrderRefunded, TheOrder(id))]
                   else if order.status == Refunded then []
                   else [AuditEntry(RefundRefused, TheOrder(id))]
                 else if CanBeDisputed(order.status) then [AuditEntry(OrderChargeback, TheOrder(id))]
                 else [])
            && after.claims == db.claims
  {
    HandledAbout(db, e, id);
    var order := db.orders[id];
    UnchangedParts(db, id);
    hide Inv, Find, Handle, Decide, ParseUuid;
    if e.CheckoutCompleted? {
      DecidesPayment(order, e);
    } else if e.ChargeRefunded? {
      DecidesRefund(order, e);
    } else {
      DecidesDispute(order, e);
    }
  }

  lemma UnchangedParts(db: Db, id: OrderId)
    requires id in db.orders
    ensures db.orders[id := db.orders[id]] == db.orders && db.audit + [] == db.audit && db.sold + {} == db.sold
  {
  }

  lemma HandledAbout(db: Db, e: Payload, id: OrderId)
    requires Inv(db) && Handle(db, e).Some? && id in db.orders && IsAbout(e, id, db.orders[id])
    ensures Concerns(e) && Decide(db.orders[id], e) != Fail
    ensures Handle(db, e).value == Apply(db, id, Decide(db.orders[id], e))
  {
    FindsIffAbout(db, e, id);
    hide Inv, IsAbout, Decide, Apply, Clashes, ParseUuid;
  }

  /** An event about no order here changes nothing. */
  lemma HandlerLeavesAlone(db: Db, e: Payload)
    requires Inv(db) && Handle(db, e).Some? && forall id :: id in db.orders ==> !IsAbout(e, id, db.orders[id])
    ensures Handle(db, e).value == db
  {
    var found := Find(db, e);
    if found.At? { FindsIffAbout(db, e, found.id); }
    hide Inv, Find, IsAbout;
  }

  /** Another order holds the intent or the session a payment brings. */
  predicate HeldByAnother(db: Db, e: Payload, id: OrderId)
    requires e.CheckoutCompleted? && Concerns(e)
  {
    exists other :: other in db.orders && other != id
                    && (db.orders[other].paymentIntent == e.intent || db.orders[other].checkoutId == e.sessionId)
  }

  /**
   * A payment throws for a malformed order id; and, when it finds an order still open to it, for values
   * the columns or their unique indexes reject.
   */
  predicate PaymentThrows(db: Db, e: Payload)
    requires e.CheckoutCompleted? && Concerns(e)
  {
    match ParseUuid(e.orderId.value)
    case None => true
    case Some(id) =>
      && id in db.orders && db.orders[id].status == Created
      && (|| '\0' in e.intent.value || '\0' in e.sessionId.value || HeldByAnother(db, e, id)
          || (WholeTax(e) && (e.tax.value < 0.0 || e.tax.value > 2147483647.0)))
  }

  /**
   * A chargeback throws for an intent that is no text, or a reason too long for the history of an order
   * it would move.
   */
  predicate DisputeThrows(db: Db, e: Payload)
    requires e.ChargeDisputed? && Concerns(e)
  {
    || '\0' in e.intent.value
    || (e.reason.Some? && ('\0' in e.reason.value || |e.reason.value| > 269)
        && exists id ::
             id in db.orders && db.orders[id].paymentIntent == e.intent && CanBeDisputed(db.orders[id].status))
  }

  /** Exactly which deliveries throw, for what the event and the rows say. */
  lemma ThrowsIff(db: Db, e: Payload)
    requires Inv(db)
    ensures Handle(db, e).None?
            <==> && Concerns(e)
                 && match e
                    case CheckoutCompleted(_, _, _, _, _) => PaymentThrows(db, e)
                    case ChargeRefunded(intent, _, _) => '\0' in intent.value
                    case ChargeDisputed(_, _) => DisputeThrows(db, e)
                    case OtherEvent => false
  {
    hide Move, ParseUuid, Inv, PaymentThrows, DisputeThrows;
    if Concerns(e) {
      match e
      case CheckoutCompleted(_, orderId, _, _, _) => PaymentThrowsIff(db, e);
      case ChargeRefunded(intent, _, _) => BadKeyIff(db, intent.value);
      case ChargeDisputed(_, _) => DisputeThrowsIff(db, e);
      case OtherEvent =>
    }
  }

  lemma TaxFitsIff(e: Payload)
    requires e.CheckoutCompleted?
    ensures TaxFits(TaxOf(e)) <==> !(WholeTax(e) && (e.tax.value < 0.0 || e.tax.value > 2147483647.0))
  {
  }

  lemma ReasonFitsIff(e: Payload)
    requires e.ChargeDisputed?
    ensures ReasonFits(DisputeReason(e)) <==> !(e.reason.Some? && ('\0' in e.reason.value || |e.reason.value| > 269))
  {
    if e.reason.Some? {
      var prefix, text := "chargeback:", DisputeReason(e);
      assert '\0' !in prefix && |prefix| == 11 && text == prefix + e.reason.value;
    }
  }

  lemma PaymentThrowsIff(db: Db, e: Payload)
    requires Inv(db) && e.CheckoutCompleted? && Concerns(e)
    ensures Handle(db, e).None? <==> PaymentThrows(db, e)
  {
    TaxFitsIff(e);
    hide Move, TaxFits, TaxOf, WholeTax, ParseUuid;
    var id := ParseUuid(e.orderId.value);
    if id.Some? && id.value in db.orders {
      var order := db.orders[id.value];
      StripeMoves(order);
      if order.status == Created { ClashIff(db, e, id.value); }
    }
  }

  lemma ClashIff(db: Db, e: Payload, id: OrderId)
    requires Inv(db) && e.CheckoutCompleted? && Concerns(e) && id in db.orders && db.orders[id].status == Created
    ensures Decide(db.orders[id], e).Write? ==>
              (Clashes(db, id, Decide(db.orders[id], e)) <==> HeldByAnother(db, e, id))
  {
    hide Move, Storable, TaxFits, TaxOf, OrderOk, OneOpenEach;
    var d := Decide(db.orders[id], e);
    if d.Write? {
      if HeldByAnother(db, e, id) {
        var other :| other in db.orders && other != id
                     && (db.orders[other].paymentIntent == e.intent || db.orders[other].checkoutId == e.sessionId);
        assert db.orders[other].paymentIntent == e.intent ==> db.byIntent[e.intent.value] == other;
      }
    }
  }

  lemma DisputeThrowsIff(db: Db, e: Payload)
    requires Inv(db) && e.ChargeDisputed? && Concerns(e)
    ensures Handle(db, e).None? <==> DisputeThrows(db, e)
  {
    ReasonFitsIff(e);
    hide Move, ReasonFits, DisputeReason, Inv, FindByIntent;
    forall id
      ensures FindByIntent(db, e.intent.value) == At(id) <==> id in db.orders && db.orders[id].paymentIntent == e.intent
    {
      FindsItsOrder(db, e.intent.value, id);
    }
    BadKeyIff(db, e.intent.value);
    match FindByIntent(db, e.intent.value)
    case Ignored =>
    case BadKey =>
    case Missing =>
    case At(id) => StripeMoves(db.orders[id]);
  }

  lemma BadKeyIff(db: Db, intent: PaymentIntent)
    ensures FindByIntent(db, intent) == BadKey <==> !Storable(intent)
    ensures FindByIntent(db, intent) != Ignored
  {
  }
}
