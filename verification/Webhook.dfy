/**
 * The Stripe webhook (apps/api/src/routes/stripe-webhook.ts, packages/db/src/queries/webhooks.ts) one
 * delivery at a time, among everything else that happens to orders: what holds of every run, however
 * often events are delivered and in whatever order.
 */
module Webhook {
  import opened Wrappers
  import opened Orders
  import opened OrderTables
  import opened Uuids

  // ------------------------------------------------------------------ //
  // One delivery with nobody else about
  // ------------------------------------------------------------------ //

  function Claiming(db: Db, id: EventId): Db {
    db.(claims := db.claims + {id})
  }

  /** Not seen before, and its handler does not throw. */
  predicate Commits(db: Db, event: Event) {
    event.id !in db.claims && Handle(Claiming(db, event.id), event.payload).Some?
  }

  function Deliver(db: Db, event: Event): Db {
    if Commits(db, event) then Handle(Claiming(db, event.id), event.payload).value else db
  }

  class StripeWebhook {
    var db: Db

    constructor (db: Db)
      ensures this.db == db
    {
      this.db := db;
    }

    /**
     * One POST, undisturbed; `fails` is a crash or a lost connection before the commit. Answered 200
     * exactly when its event is claimed, by this delivery or an earlier one.
     */
    method Receive(event: Event, fails: bool) returns (ok: bool, duplicate: bool)
      modifies this
      ensures db == if fails then old(db) else Deliver(old(db), event)
      ensures ok <==> event.id in db.claims
      ensures duplicate <==> event.id in old(db).claims
    {
      hide Handle;
      if event.id in db.claims { return true, true; }
      var tx := Claiming(db, event.id);
      ClaimsDoNotMatter(db, event.id, event.payload);
      HandlersKeepClaims(tx, event.payload);
      var handled := Handle(tx, event.payload);
      if handled == None || fails { return false, false; }
      db := handled.value;
      return true, false;
    }
  }

  lemma HandlersKeepClaims(db: Db, e: Payload)
    ensures Handle(db, e).Some? ==> Handle(db, e).value.claims == db.claims
  {
    hide Decide, Clashes, Find;
  }

  /** No handler reads the claims. */
  lemma ClaimsDoNotMatter(db: Db, id: EventId, e: Payload)
    ensures Find(Claiming(db, id), e) == Find(db, e)
    ensures Handle(Claiming(db, id), e).Some? <==> Handle(db, e).Some?
    ensures Handle(db, e).Some? ==> Handle(Claiming(db, id), e).value == Claiming(Handle(db, e).value, id)
  {
    hide Decide, Storable, ParseUuid;
  }

  // ------------------------------------------------------------------ //
  // What else happens to orders, and runs of it all
  // ------------------------------------------------------------------ //

  /** A delivery; an order opened; a checkout session attached to one; a party, an admin or our own clock moving one. */
  datatype Action =
    | Delivery(event: Event)
    | Open(id: OrderId, listing: Option<ListingId>)
    | Attach(id: OrderId, session: SessionId)
    | PartyMove(id: OrderId, to: OrderStatus, actor: OrderActor)

  function NewOrder(listing: Option<ListingId>): Order {
    Order(Created, None, None, 0, false, listing, [])
  }

  /** A move by anyone but Stripe; only shipping writes the tracking columns. */
  function PartyMoved(order: Order, to: OrderStatus, actor: OrderActor): Option<Order> {
    if actor == Stripe || !TrackingFits(to, order.tracked || to == Shipped) then None
    else match Move(order, to, actor)
      case Err(_) => None
      case Ok(moved) => Some(moved.(tracked := order.tracked || to == Shipped))
  }

  /** What the database refuses changes nothing. */
  function Act(db: Db, action: Action): Db {
    match action
    case Delivery(event) => Deliver(db, event)
    case Open(id, listing) =>
      if id in db.orders || (listing.Some? && ListingTaken(db, listing.value)) then db
      else db.(orders := db.orders[id := NewOrder(listing)])
    case Attach(id, session) =>
      if id !in db.orders || !Storable(session) || SessionTaken(db, session, id) then db
      else db.(orders := db.orders[id := db.orders[id].(checkoutId := Some(session))])
    case PartyMove(id, to, actor) =>
      if id !in db.orders || PartyMoved(db.orders[id], to, actor) == None then db
      else db.(orders := db.orders[id := PartyMoved(db.orders[id], to, actor).value])
  }

  function Run(actions: seq<Action>): Db {
    if |actions| == 0 then EMPTY else Act(Run(actions[..|actions| - 1]), actions[|actions| - 1])
  }

  lemma RunGrows(actions: seq<Action>, action: Action)
    ensures Run(actions + [action]) == Act(Run(actions), action)
  {
    assert (actions + [action])[..|actions|] == actions;
  }

  // ------------------------------------------------------------------ //
  // What every run keeps
  // ------------------------------------------------------------------ //

  lemma ClaimKeepsInv(db: Db, id: EventId)
    requires Inv(db)
    ensures Inv(Claiming(db, id))
  {
    hide OrderOk, SessionsUnique, OneOpenEach, Storable;
  }

  lemma OpenKeepsInv(db: Db, id: OrderId, listing: Option<ListingId>)
    requires Inv(db) && id !in db.orders && (listing.Some? ==> !ListingTaken(db, listing.value))
    ensures Inv(db.(orders := db.orders[id := NewOrder(listing)]))
  {
    assert OrderOk(NewOrder(listing));
    hide OrderOk, Storable;
    var orders := db.orders[id := NewOrder(listing)];
    assert SessionsUnique(orders) by { hide OneOpenEach; }
    assert OneOpenEach(orders) by { hide SessionsUnique; }
  }

  lemma AttachKeepsInv(db: Db, id: OrderId, session: SessionId)
    requires Inv(db) && id in db.orders && !SessionTaken(db, session, id)
    ensures Inv(db.(orders := db.orders[id := db.orders[id].(checkoutId := Some(session))]))
  {
    var row := db.orders[id].(checkoutId := Some(session));
    assert OrderOk(db.orders[id]);
    assert OrderOk(row);
    hide OrderOk, IndexOk, SessionsUnique, OneOpenEach, SessionTaken;
    RewriteKeepsInv(db, id, row);
  }

  lemma OnlyStripePays(from: OrderStatus, to: OrderStatus, actor: OrderActor)
    requires CanTransition(from, to, actor) && actor != Stripe
    ensures to != Paid && to != Refunded
  {
  }

  lemma PartyMoveKeepsInv(db: Db, id: OrderId, to: OrderStatus, actor: OrderActor)
    requires Inv(db) && id in db.orders && PartyMoved(db.orders[id], to, actor).Some?
    ensures Inv(db.(orders := db.orders[id := PartyMoved(db.orders[id], to, actor).value]))
  {
    var order := db.orders[id];
    assert OrderOk(order);
    OnlyStripePays(order.status, to, actor);
    UnpaidRowIsOk(order, to, actor, order.tracked || to == Shipped);
    hide OrderOk, IndexOk, SessionsUnique, OneOpenEach, MOVES;
    OwnSession(db, id);
    RewriteKeepsInv(db, id, PartyMoved(order, to, actor).value);
  }

  /** Nobody else holds the session an order has. */
  lemma OwnSession(db: Db, id: OrderId)
    requires SessionsUnique(db.orders) && id in db.orders
    ensures db.orders[id].checkoutId.Some? ==> !SessionTaken(db, db.orders[id].checkoutId.value, id)
  {
  }

  lemma ActKeepsInv(db: Db, action: Action)
    requires Inv(db)
    ensures Inv(Act(db, action))
  {
    hide Inv, Handle, PartyMoved, SessionTaken, ListingTaken, Storable;
    match action
    case Delivery(event) =>
      if Commits(db, event) {
        ClaimKeepsInv(db, event.id);
        HandleKeepsInv(Claiming(db, event.id), event.payload);
      }
    case Open(id, listing) =>
      if Act(db, action) != db { OpenKeepsInv(db, id, listing); }
    case Attach(id, session) =>
      if Act(db, action) != db { AttachKeepsInv(db, id, session); }
    case PartyMove(id, to, actor) =>
      if Act(db, action) != db { PartyMoveKeepsInv(db, id, to, actor); }
  }

  lemma {:induction false} RunKeepsInv(actions: seq<Action>)
    ensures Inv(Run(actions))
    decreases |actions|
  {
    if |actions| == 0 {
    } else {
      hide Inv, Act;
      RunKeepsInv(actions[..|actions| - 1]);
      ActKeepsInv(Run(actions[..|actions| - 1]), actions[|actions| - 1]);
    }
  }

  /**
   * In every run: an order beyond `created` and `cancelled` was paid exactly once and carries the
   * intent that paid it; no two orders share an intent or a checkout session; no listing has two open
   * orders; a completed order was shipped with tracking; and only Stripe wrote `paid` or `refunded`.
   */
  lemma EveryOrderWasPaidOnce(actions: seq<Action>, id: OrderId)
    requires id in Run(actions).orders
    ensures var order := Run(actions).orders[id];
            && History(order.history) && order.status == StatusAfter(order.history)
            && (MoneyHasMoved(order.status) ==> Payments(order.history) == 1 && order.paymentIntent.Some?)
            && (order.status == Completed ==> order.tracked)
            && (forall other :: other in Run(actions).orders && other != id ==>
                  && (order.paymentIntent.Some? ==> Run(actions).orders[other].paymentIntent != order.paymentIntent)
                  && (order.checkoutId.Some? ==> Run(actions).orders[other].checkoutId != order.checkoutId)
                  && (order.listing.Some? && Run(actions).orders[other].listing == order.listing ==>
                        !IsOpen(order.status) || !IsOpen(Run(actions).orders[other].status)))
            && (forall k :: 0 <= k < |order.history| ==>
                  && (order.history[k].to in {Paid, Refunded} ==> order.history[k].actor == Stripe)
                  && (order.history[k].to == Completed ==> order.history[k].actor in {System, Admin}))
  {
    hide Run, IsOpen, Storable;
    RunKeepsInv(actions);
    var order := Run(actions).orders[id];
    assert OrderOk(order);
    PaidOnce(order.history);
    forall k | 0 <= k < |order.history|
      ensures order.history[k].to in {Paid, Refunded} ==> order.history[k].actor == Stripe
      ensures order.history[k].to == Completed ==> order.history[k].actor in {System, Admin}
    {
      WhoMovedIt(order.history, k);
    }
    hide History, Payments, StatusAfter;
  }

  // ------------------------------------------------------------------ //
  // How an order may change, whoever acts
  // ------------------------------------------------------------------ //

  /** The same status or one legal move on, and a payment intent once set stays. */
  ghost predicate RowFollows(before: Order, after: Order) {
    && (before.status == after.status || exists actor :: CanTransition(before.status, after.status, actor))
    && (before.paymentIntent.Some? ==> after.paymentIntent == before.paymentIntent)
  }

  ghost predicate Grows(before: Db, after: Db) {
    && before.claims <= after.claims
    && (forall id :: id in before.orders ==> id in after.orders && RowFollows(before.orders[id], after.orders[id]))
    && (forall intent :: intent in before.byIntent ==>
          intent in after.byIntent && after.byIntent[intent] == before.byIntent[intent])
  }

  lemma MovedFollows(order: Order, to: OrderStatus, actor: OrderActor)
    requires OrderOk(order) && Move(order, to, actor).Ok?
    ensures RowFollows(order, Move(order, to, actor).value)
  {
    MoveKeeps(order, to, actor);
    hide MOVES, OrderOk;
  }

  /** What a handler writes follows the row it read. */
  lemma WrittenFollows(order: Order, e: Payload)
    requires OrderOk(order) && Concerns(e) && Decide(order, e).Write?
    ensures RowFollows(order, Decide(order, e).row)
  {
    var to := if e.CheckoutCompleted? then Paid else if e.ChargeRefunded? then Refunded else Disputed;
    WrittenRowIsOk(order, e);
    MovedFollows(order, to, Stripe);
    hide OrderOk, Storable, TaxOf, ReasonFits, MOVES;
  }

  lemma DecidedGrows(db: Db, id: OrderId, e: Payload)
    requires Inv(db) && Concerns(e) && id in db.orders && !Clashes(db, id, Decide(db.orders[id], e))
    ensures Grows(db, Apply(db, id, Decide(db.orders[id], e)))
  {
    hide IndexOk, SessionsUnique, OneOpenEach, OrderOk, RowFollows, Decide, Storable, CanBeRefunded, Clashes, Apply;
    OrdersAreOk(db, id);
    var order := db.orders[id];
    if Decide(order, e).Write? {
      WrittenFollows(order, e);
      WrittenRowIsOk(order, e);
    }
    ApplyGrows(db, id, Decide(order, e));
  }

  lemma ApplyGrows(db: Db, id: OrderId, d: Decision)
    requires id in db.orders && !Clashes(db, id, d)
    requires d.Write? ==> RowFollows(db.orders[id], d.row)
    requires d.Write? && d.action == OrderPaid ==> d.row.paymentIntent.Some? && d.row.checkoutId.Some?
    ensures Grows(db, Apply(db, id, d))
  {
    hide RowFollows, SessionTaken;
    RowsFollowThemselves(db);
  }

  lemma RowsFollowThemselves(db: Db)
    ensures Grows(db, db)
    ensures forall id :: id in db.orders ==> RowFollows(db.orders[id], db.orders[id])
  {
    hide CanTransition;
  }

  lemma ActGrows(db: Db, action: Action)
    requires Inv(db)
    ensures Grows(db, Act(db, action))
  {
    hide Handle, Inv, SessionTaken, ListingTaken, Storable, RowFollows;
    RowsFollowThemselves(db);
    match action
    case Delivery(event) => DeliverGrows(db, event);
    case Open(id, listing) =>
    case Attach(id, session) =>
      if id in db.orders { AttachedFollows(db.orders[id], session); }
    case PartyMove(id, to, actor) =>
      if id in db.orders && PartyMoved(db.orders[id], to, actor).Some? {
        OrdersAreOk(db, id);
        PartyMovedFollows(db.orders[id], to, actor);
        hide PartyMoved;
      }
  }

  lemma OrdersAreOk(db: Db, id: OrderId)
    requires Inv(db) && id in db.orders
    ensures OrderOk(db.orders[id])
  {
  }

  lemma AttachedFollows(order: Order, session: SessionId)
    ensures RowFollows(order, order.(checkoutId := Some(session)))
  {
  }

  lemma PartyMovedFollows(order: Order, to: OrderStatus, actor: OrderActor)
    requires OrderOk(order) && PartyMoved(order, to, actor).Some?
    ensures RowFollows(order, PartyMoved(order, to, actor).value)
    ensures CanTransition(order.status, to, actor) && actor != Stripe
    ensures PartyMoved(order, to, actor).value.status == to
    ensures PartyMoved(order, to, actor).value.paymentIntent == order.paymentIntent
    ensures PartyMoved(order, to, actor).value.checkoutId == order.checkoutId
  {
    MoveKeeps(order, to, actor);
    MovedFollows(order, to, actor);
    hide MOVES, OrderOk;
  }

  lemma DeliverGrows(db: Db, event: Event)
    requires Inv(db)
    ensures Grows(db, Deliver(db, event))
  {
    hide Inv, Decide, Apply, Clashes, RowFollows, Storable, ParseUuid;
    RowsFollowThemselves(db);
    ClaimsDoNotMatter(db, event.id, event.payload);
    HandlersKeepClaims(db, event.payload);
    match Find(db, event.payload)
    case Ignored =>
    case BadKey =>
    case Missing =>
    case At(id) =>
      if Handle(db, event.payload).Some? { DecidedGrows(db, id, event.payload); }
  }

  // ------------------------------------------------------------------ //
  // Refunds, in every run
  // ------------------------------------------------------------------ //

  /** A payment of this order, by this intent, that commits at step k. */
  ghost predicate PaymentCommits(actions: seq<Action>, k: nat, id: OrderId, intent: PaymentIntent) {
    && k < |actions| && actions[k].Delivery? && Commits(Run(actions[..k]), actions[k].event)
    && id in Run(actions[..k]).orders && Run(actions[..k]).orders[id].status == Created
    && PaysFor(actions[k].event.payload, id) && actions[k].event.payload.intent == Some(intent)
  }

  /** A full refund of this order's intent that commits at step k, and finds the order refundable. */
  ghost predicate RefundCommits(actions: seq<Action>, k: nat, id: OrderId) {
    && k < |actions| && actions[k].Delivery? && Commits(Run(actions[..k]), actions[k].event)
    && id in Run(actions[..k]).orders && CanBeRefunded(Run(actions[..k]).orders[id].status)
    && RefundsInFull(actions[k].event.payload, Run(actions[..k]).orders[id])
  }

  ghost predicate SomePaymentCommits(actions: seq<Action>, id: OrderId, intent: PaymentIntent) {
    exists k :: PaymentCommits(actions, k, id, intent)
  }

  ghost predicate SomeRefundCommits(actions: seq<Action>, id: OrderId) {
    exists k :: RefundCommits(actions, k, id)
  }

  lemma PaymentCommitsGrows(actions: seq<Action>, id: OrderId, intent: PaymentIntent)
    requires |actions| > 0
    ensures var n := |actions| - 1;
            SomePaymentCommits(actions, id, intent)
            <==> SomePaymentCommits(actions[..n], id, intent) || PaymentCommits(actions, n, id, intent)
  {
    var n := |actions| - 1;
    hide Run, Commits, PaysFor;
    forall k: nat | k < n
      ensures PaymentCommits(actions, k, id, intent) <==> PaymentCommits(actions[..n], k, id, intent)
    {
      assert actions[..n][..k] == actions[..k];
    }
    if k :| PaymentCommits(actions[..n], k, id, intent) { assert PaymentCommits(actions, k, id, intent); }
    if k :| PaymentCommits(actions, k, id, intent) && k != n { assert PaymentCommits(actions[..n], k, id, intent); }
  }

  lemma RefundCommitsGrows(actions: seq<Action>, id: OrderId)
    requires |actions| > 0
    ensures var n := |actions| - 1;
            SomeRefundCommits(actions, id) <==> SomeRefundCommits(actions[..n], id) || RefundCommits(actions, n, id)
  {
    var n := |actions| - 1;
    hide Run, Commits, RefundsInFull, CanBeRefunded;
    forall k: nat | k < n ensures RefundCommits(actions, k, id) <==> RefundCommits(actions[..n], k, id) {
      assert actions[..n][..k] == actions[..k];
    }
    if k :| RefundCommits(actions[..n], k, id) { assert RefundCommits(actions, k, id); }
    if k :| RefundCommits(actions, k, id) && k != n { assert RefundCommits(actions[..n], k, id); }
  }

  /** What one action does to one order's status and intent, as far as payments and refunds go. */
  lemma ActMoves(db: Db, action: Action, id: OrderId)
    requires Inv(db) && id in db.orders
    ensures var order := db.orders[id];
            var commits := action.Delivery? && Commits(db, action.event);
            && id in Act(db, action).orders
            && (Act(db, action).orders[id].status == Refunded
                <==> order.status == Refunded
                     || (commits && CanBeRefunded(order.status) && RefundsInFull(action.event.payload, order)))
            && Act(db, action).orders[id].paymentIntent
               == if commits && order.status == Created && PaysFor(action.event.payload, id)
                  then action.event.payload.intent
                  else order.paymentIntent
  {
    hide Handle, Inv, SessionTaken, ListingTaken, Storable, ParseUuid, PaysFor, RefundsInFull, ChargesBack;
    match action
    case Delivery(event) =>
      if Commits(db, event) {
        ClaimKeepsInv(db, event.id);
        HandlerMovesIff(Claiming(db, event.id), event.payload, id);
      }
    case Open(_, _) =>
    case Attach(_, _) =>
    case PartyMove(other, to, actor) =>
      if other == id && PartyMoved(db.orders[id], to, actor).Some? {
        OrdersAreOk(db, id);
        PartyMovedFollows(db.orders[id], to, actor);
        OnlyStripePays(db.orders[id].status, to, actor);
        MoveFacts(db.orders[id].status, to, actor);
      }
      hide PartyMoved, CanTransition;
  }

  lemma BornUnpaid(db: Db, action: Action, id: OrderId)
    requires id !in db.orders && id in Act(db, action).orders
    ensures Act(db, action).orders[id].status == Created && Act(db, action).orders[id].paymentIntent == None
  {
    hide Decide, Storable, ParseUuid, SessionTaken, ListingTaken, PartyMoved, Clashes;
    if action.Delivery? { ClaimsDoNotMatter(db, action.event.id, action.event.payload); }
  }

  /** An order carries an intent exactly when a payment by that intent committed while it was `created`. */
  lemma {:induction false} PaidIff(actions: seq<Action>, id: OrderId, intent: PaymentIntent)
    ensures id in Run(actions).orders && Run(actions).orders[id].paymentIntent == Some(intent)
            <==> SomePaymentCommits(actions, id, intent)
    decreases |actions|
  {
    if |actions| == 0 {
    } else {
      var n := |actions| - 1;
      var before := Run(actions[..n]);
      PaidIff(actions[..n], id, intent);
      PaymentCommitsGrows(actions, id, intent);
      RunKeepsInv(actions[..n]);
      if id in before.orders {
        ActMoves(before, actions[n], id);
        OrdersAreOk(before, id);
        PaidOnlyOnce(before.orders[id]);
      } else if id in Run(actions).orders {
        BornUnpaid(before, actions[n], id);
      }
      hide Act, Inv, Commits, PaysFor, SomePaymentCommits, RefundsInFull, CanBeRefunded;
    }
  }

  lemma PaidOnlyOnce(order: Order)
    requires OrderOk(order)
    ensures order.status == Created ==> order.paymentIntent == None
  {
    PaidOnce(order.history);
  }

  /**
   * In every run, an order ends refunded exactly when some full refund of its intent committed while
   * it was in one of the five states a refund is taken in. The payment of that intent had committed
   * before it did: a refund that comes sooner is acknowledged and lost.
   */
  lemma {:induction false} RefundedIff(actions: seq<Action>, id: OrderId)
    ensures id in Run(actions).orders && Run(actions).orders[id].status == Refunded <==> SomeRefundCommits(actions, id)
    decreases |actions|
  {
    if |actions| == 0 {
    } else {
      var n := |actions| - 1;
      var before := Run(actions[..n]);
      RefundedIff(actions[..n], id);
      RefundCommitsGrows(actions, id);
      RunKeepsInv(actions[..n]);
      if id in before.orders {
        ActMoves(before, actions[n], id);
      } else if id in Run(actions).orders {
        BornUnpaid(before, actions[n], id);
      }
      hide Act, Inv, Commits, PaysFor, SomeRefundCommits, RefundsInFull, CanBeRefunded;
      if id in before.orders && before.orders[id].status == Refunded { ActGrows(before, actions[n]); }
    }
  }

  lemma RefundFollowsPayment(actions: seq<Action>, k: nat, id: OrderId)
    requires RefundCommits(actions, k, id)
    ensures actions[k].event.payload.intent.Some?
    ensures exists j: nat :: j < k && PaymentCommits(actions, j, id, actions[k].event.payload.intent.value)
  {
    hide Run, Commits, CanBeRefunded;
    var intent := actions[k].event.payload.intent.value;
    PaidIff(actions[..k], id, intent);
    var j: nat :| PaymentCommits(actions[..k], j, id, intent);
    assert actions[..k][..j] == actions[..j];
    assert PaymentCommits(actions, j, id, intent);
  }

  /** An order opens exactly when it is new and no other for its listing is still neither cancelled nor refunded. */
  lemma OpensIff(db: Db, id: OrderId, listing: Option<ListingId>)
    requires id !in db.orders
    ensures id in Act(db, Open(id, listing)).orders
            <==> listing == None
                 || forall other :: other in db.orders && db.orders[other].listing == listing ==>
                      db.orders[other].status in {Cancelled, Refunded}
    ensures id in Act(db, Open(id, listing)).orders ==>
              Act(db, Open(id, listing))
              == db.(orders := db.orders[id := Order(Created, None, None, 0, false, listing, [])])
  {
    if listing.Some? && ListingTaken(db, listing.value) {
      var other :| other in db.orders && db.orders[other].listing == Some(listing.value)
                   && IsOpen(db.orders[other].status);
      assert db.orders[other].listing == listing && db.orders[other].status !in {Cancelled, Refunded};
    }
  }

  // ------------------------------------------------------------------ //
  // What is sold, in every run
  // ------------------------------------------------------------------ //

  /** An order for this listing that carries the intent of a payment. */
  ghost predicate PaidFor(orders: map<OrderId, Order>, listing: ListingId) {
    exists id :: id in orders && orders[id].listing == Some(listing) && orders[id].paymentIntent.Some?
  }

  ghost predicate SoldOk(db: Db) {
    forall listing :: listing in db.sold <==> PaidFor(db.orders, listing)
  }

  /** A row added or rewritten without a new intent or listing sells nothing. */
  lemma RewriteSells(before: Db, after: Db, id: OrderId, row: Order)
    requires SoldOk(before) && after.sold == before.sold && after.orders == before.orders[id := row]
    requires if id in before.orders
             then row.listing == before.orders[id].listing && row.paymentIntent == before.orders[id].paymentIntent
             else row.paymentIntent == None
    ensures SoldOk(after)
  {
    forall listing ensures listing in after.sold <==> PaidFor(after.orders, listing) {
      if PaidFor(before.orders, listing) {
        var other :| other in before.orders && before.orders[other].listing == Some(listing)
                     && before.orders[other].paymentIntent.Some?;
        assert after.orders[other].listing == Some(listing);
      }
    }
  }

  lemma PaymentSells(before: Db, after: Db, id: OrderId, row: Order)
    requires SoldOk(before) && id in before.orders && row.listing == before.orders[id].listing
    requires before.orders[id].paymentIntent == None && row.paymentIntent.Some?
    requires after.orders == before.orders[id := row]
    requires after.sold == before.sold + (if row.listing.Some? then {row.listing.value} else {})
    ensures SoldOk(after)
  {
    forall listing ensures listing in after.sold <==> PaidFor(after.orders, listing) {
      if PaidFor(before.orders, listing) {
        var other :| other in before.orders && before.orders[other].listing == Some(listing)
                     && before.orders[other].paymentIntent.Some?;
        assert after.orders[other].listing == Some(listing);
      }
      if row.listing == Some(listing) { assert after.orders[id].listing == Some(listing); }
    }
  }

  lemma HandlerSells(db: Db, e: Payload)
    requires Inv(db) && SoldOk(db) && Handle(db, e).Some?
    ensures SoldOk(Handle(db, e).value)
  {
    hide SoldOk, PaidFor, Handle, PaysFor, RefundsInFull, ChargesBack, CanBeRefunded, CanBeDisputed, WholeTax, Inv;
    if id :| id in db.orders && IsAbout(e, id, db.orders[id]) {
      HandlerWrites(db, e, id);
      OrdersAreOk(db, id);
      PaidOnlyOnce(db.orders[id]);
      HandlerMovesIff(db, e, id);
      if PaysFor(e, id) { IntentOfPayment(e, id); }
      hide IsAbout, OrderOk;
      var after := Handle(db, e).value;
      if PaysFor(e, id) && db.orders[id].status == Created {
        PaymentSells(db, after, id, after.orders[id]);
      } else {
        RewriteSells(db, after, id, after.orders[id]);
      }
    } else {
      HandlerLeavesAlone(db, e);
    }
  }

  lemma IntentOfPayment(e: Payload, id: OrderId)
    requires PaysFor(e, id)
    ensures e.CheckoutCompleted? && e.intent.Some?
  {
  }

  lemma ActSells(db: Db, action: Action)
    requires Inv(db) && SoldOk(db)
    ensures SoldOk(Act(db, action))
  {
    hide Handle, Inv, SessionTaken, ListingTaken, Storable, SoldOk, PaidFor;
    match action
    case Delivery(event) =>
      if Commits(db, event) {
        ClaimKeepsInv(db, event.id);
        ClaimingSells(db, event.id);
        HandlerSells(Claiming(db, event.id), event.payload);
      }
    case Open(id, listing) =>
      if Act(db, action) != db { RewriteSells(db, Act(db, action), id, NewOrder(listing)); }
    case Attach(id, session) =>
      if Act(db, action) != db { RewriteSells(db, Act(db, action), id, db.orders[id].(checkoutId := Some(session))); }
    case PartyMove(id, to, actor) =>
      if Act(db, action) != db { RewriteSells(db, Act(db, action), id, PartyMoved(db.orders[id], to, actor).value); }
  }

  lemma ClaimingSells(db: Db, id: EventId)
    requires SoldOk(db)
    ensures SoldOk(Claiming(db, id))
  {
  }

  /** In every run a listing is sold exactly when some order for it has been paid for. */
  lemma SoldIff(actions: seq<Action>, listing: ListingId)
    ensures listing in Run(actions).sold
            <==> exists id :: && id in Run(actions).orders && Run(actions).orders[id].listing == Some(listing)
                              && Run(actions).orders[id].paymentIntent.Some?
  {
    RunSells(actions);
    assert PaidFor(Run(actions).orders, listing) <==> listing in Run(actions).sold;
  }

  lemma {:induction false} RunSells(actions: seq<Action>)
    ensures SoldOk(Run(actions))
    decreases |actions|
  {
    if |actions| == 0 {
    } else {
      hide SoldOk, Act;
      RunKeepsInv(actions[..|actions| - 1]);
      RunSells(actions[..|actions| - 1]);
      ActSells(Run(actions[..|actions| - 1]), actions[|actions| - 1]);
    }
  }

  // ------------------------------------------------------------------ //
  // The order of two events matters
  // ------------------------------------------------------------------ //

  function Zeros(n: nat): string {
    if n == 0 then "" else Zeros(n - 1) + "00"
  }

  lemma {:induction false} ZerosAreHex(n: nat)
    ensures |Zeros(n)| == 2 * n && forall k :: 0 <= k < 2 * n ==> Zeros(n)[k] == '0'
  {
    if n == 0 {
    } else {
      ZerosAreHex(n - 1);
    }
  }

  lemma {:induction false} ZerosParse(s: string, n: nat)
    requires |s| == 2 * n && forall k :: 0 <= k < 2 * n ==> s[k] == '0'
    ensures HexPairs(s, n) == Some(s)
    decreases n
  {
    if n == 0 {
    } else {
      ZerosParse(s[2..], n - 1);
      assert s == [s[0], s[1]] + s[2..];
    }
  }

  const ORDER: OrderId := Zeros(16)

  const OPENED := NewOrder(None)
  const PAID := OPENED.(
    status := Paid, checkoutId := Some("cs"), paymentIntent := Some("pi"),
      history := [OrderEvent(Created, Paid, Stripe)])
  const REFUNDED := PAID.(
    status := Refunded, history := [OrderEvent(Created, Paid, Stripe), OrderEvent(Paid, Refunded, Stripe)])

  const PAYMENT := Event("evt_1", CheckoutCompleted(true, Some(ORDER), Some("pi"), Some("cs"), None))
  const REFUND := Event("evt_2", ChargeRefunded(Some("pi"), Some(500.0), Some(500.0)))

  lemma OrderIsAUuid()
    ensures ParseUuid(ORDER) == Some(ORDER)
  {
    ZerosAreHex(16);
    ZerosParse(ORDER, 16);
  }

  lemma MovesOfThese()
    ensures Decide(OPENED, PAYMENT.payload) == Write(PAID, OrderPaid)
    ensures Decide(PAID, REFUND.payload) == Write(REFUNDED, OrderRefunded)
  {
    assert Transition(Created, Paid, Stripe) == Ok(Paid) && Transition(Paid, Refunded, Stripe) == Ok(Refunded);
    assert [] + [OrderEvent(Created, Paid, Stripe)] == [OrderEvent(Created, Paid, Stripe)];
    assert PAID.history + [OrderEvent(Paid, Refunded, Stripe)] == REFUNDED.history;
    hide Transition, ParseUuid;
  }

  lemma PaymentOf(db: Db)
    requires db.orders == map[ORDER := OPENED] && db.byIntent == map[] && PAYMENT.id !in db.claims
    ensures Find(db, PAYMENT.payload) == At(ORDER) && !Clashes(db, ORDER, Write(PAID, OrderPaid))
    ensures var after := Act(db, Delivery(PAYMENT));
            after.orders == map[ORDER := PAID] && after.byIntent == map["pi" := ORDER]
              && after.claims == db.claims + {PAYMENT.id}
  {
    MovesOfThese();
    OrderIsAUuid();
    ClaimsDoNotMatter(db, PAYMENT.id, PAYMENT.payload);
    hide Decide, ParseUuid, Zeros;
  }

  lemma RefundOf(db: Db)
    requires REFUND.id !in db.claims
    ensures db.byIntent == map[] ==>
              Act(db, Delivery(REFUND)) == Claiming(db, REFUND.id) && Find(db, REFUND.payload) == Missing
    ensures db.byIntent == map["pi" := ORDER] && db.orders == map[ORDER := PAID] ==>
              Act(db, Delivery(REFUND)).orders == map[ORDER := REFUNDED]
  {
    MovesOfThese();
    ClaimsDoNotMatter(db, REFUND.id, REFUND.payload);
    assert map[ORDER := PAID][ORDER := REFUNDED] == map[ORDER := REFUNDED];
    hide Decide, ParseUuid, Zeros;
  }

  lemma RunThree(a: Action, b: Action, c: Action)
    ensures Run([a, b, c]) == Act(Act(Act(EMPTY, a), b), c)
  {
    hide Act;
    assert [a, b, c] == [] + [a] + [b] + [c];
    RunGrows([], a);
    RunGrows([] + [a], b);
    RunGrows([] + [a] + [b], c);
  }

  /** Distinct events do not commute: a refund that overtakes its payment is acknowledged and lost. */
  lemma OvertakingRefundIsLost()
    ensures Run([Open(ORDER, None), Delivery(PAYMENT), Delivery(REFUND)]).orders == map[ORDER := REFUNDED]
    ensures Run([Open(ORDER, None), Delivery(REFUND), Delivery(PAYMENT)]).orders == map[ORDER := PAID]
    ensures {PAYMENT.id, REFUND.id} <= Run([Open(ORDER, None), Delivery(REFUND), Delivery(PAYMENT)]).claims
  {
    RunThree(Open(ORDER, None), Delivery(PAYMENT), Delivery(REFUND));
    RunThree(Open(ORDER, None), Delivery(REFUND), Delivery(PAYMENT));
    var open := Act(EMPTY, Open(ORDER, None));
    assert open == EMPTY.(orders := map[ORDER := OPENED]);
    hide Act, Run;
    PaymentOf(open);
    RefundOf(Act(open, Delivery(PAYMENT)));
    RefundOf(open);
    PaymentOf(Act(open, Delivery(REFUND)));
  }
}
