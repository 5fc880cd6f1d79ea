/**
 * What may happen to an order, who may make it happen (packages/core/src/orders.ts), and what that
 * makes true of every order's whole history.
 */
module Orders {
  import opened Wrappers

  datatype OrderStatus = Created | Paid | Shipped | Delivered | Completed | Cancelled | Refunded | Disputed

  datatype OrderActor = Buyer | Seller | Admin | Stripe | System

  datatype IllegalReason = NotATransition | NotThisActor

  datatype IllegalTransition = IllegalTransition(
    from: OrderStatus, to: OrderStatus, actor: OrderActor, reason: IllegalReason)

  /** The table: from this state, into that state, by whom. */
  const MOVES: map<(OrderStatus, OrderStatus), set<OrderActor>> := map[
    (Created, Paid) := {Stripe},
    (Created, Cancelled) := {Buyer, Seller, Admin, System},
    (Paid, Shipped) := {Seller},
    (Paid, Refunded) := {Stripe},
    (Paid, Disputed) := {Buyer, Admin, Stripe},
    (Paid, Cancelled) := {Admin},
    (Shipped, Delivered) := {System, Admin},
    (Shipped, Refunded) := {Stripe},
    (Shipped, Disputed) := {Buyer, Admin, Stripe},
    (Delivered, Completed) := {System, Admin},
    (Delivered, Refunded) := {Stripe},
    (Delivered, Disputed) := {Buyer, Admin, Stripe},
    (Completed, Disputed) := {Buyer, Admin, Stripe},
    (Completed, Refunded) := {Stripe},
    (Disputed, Refunded) := {Stripe},
    (Disputed, Completed) := {Admin}
  ]

  predicate CanTransition(from: OrderStatus, to: OrderStatus, actor: OrderActor) {
    (from, to) in MOVES && actor in MOVES[(from, to)]
  }

  function Transition(from: OrderStatus, to: OrderStatus, actor: OrderActor): Result<OrderStatus, IllegalTransition> {
    if (from, to) !in MOVES then Err(IllegalTransition(from, to, actor, NotATransition))
    else if actor !in MOVES[(from, to)] then Err(IllegalTransition(from, to, actor, NotThisActor))
    else Ok(to)
  }

  lemma BuyerMoves(from: OrderStatus, to: OrderStatus)
    ensures CanTransition(from, to, Buyer) <==>
            (from == Created && to == Cancelled) || (from in {Paid, Shipped, Delivered, Completed} && to == Disputed)
  {
  }

  lemma SellerMoves(from: OrderStatus, to: OrderStatus)
    ensures CanTransition(from, to, Seller) <==>
            (from == Created && to == Cancelled) || (from == Paid && to == Shipped)
  {
  }

  lemma AdminMoves(from: OrderStatus, to: OrderStatus)
    ensures CanTransition(from, to, Admin) <==>
            || (from in {Created, Paid} && to == Cancelled) || (from == Shipped && to == Delivered)
            || (from in {Delivered, Disputed} && to == Completed)
            || (from in {Paid, Shipped, Delivered, Completed} && to == Disputed)
  {
  }

  lemma StripeMovesOnly(from: OrderStatus, to: OrderStatus)
    ensures CanTransition(from, to, Stripe) <==>
            || (from == Created && to == Paid)
            || (from in {Paid, Shipped, Delivered, Completed, Disputed} && to == Refunded)
            || (from in {Paid, Shipped, Delivered, Completed} && to == Disputed)
  {
  }

  lemma SystemMoves(from: OrderStatus, to: OrderStatus)
    ensures CanTransition(from, to, System) <==>
            || (from == Created && to == Cancelled) || (from == Shipped && to == Delivered)
            || (from == Delivered && to == Completed)
  {
  }

  /** What each actor may do: the table, read by actor. A move nobody may make is refused as no move at all. */
  lemma WhoMayDoWhat(from: OrderStatus, to: OrderStatus, actor: OrderActor)
    ensures Transition(from, to, actor).Ok?
            <==> match actor
                 case Buyer =>
                   (from == Created && to == Cancelled)
                   || (from in {Paid, Shipped, Delivered, Completed} && to == Disputed)
                 case Seller => (from == Created && to == Cancelled) || (from == Paid && to == Shipped)
                 case Admin =>
                   (from in {Created, Paid} && to == Cancelled) || (from == Shipped && to == Delivered)
                   || (from in {Delivered, Disputed} && to == Completed)
                   || (from in {Paid, Shipped, Delivered, Completed} && to == Disputed)
                 case Stripe =>
                   (from == Created && to == Paid)
                   || (from in {Paid, Shipped, Delivered, Completed, Disputed} && to == Refunded)
                   || (from in {Paid, Shipped, Delivered, Completed} && to == Disputed)
                 case System =>
                   (from == Created && to == Cancelled) || (from == Shipped && to == Delivered)
                   || (from == Delivered && to == Completed)
    ensures Transition(from, to, actor).Ok? ==> Transition(from, to, actor) == Ok(to)
    ensures Transition(from, to, actor).Err? ==>
              (Transition(from, to, actor).error.reason == NotATransition
               <==> forall other: OrderActor :: Transition(from, to, other).Err?)
  {
    BuyerMoves(from, to);
    SellerMoves(from, to);
    AdminMoves(from, to);
    StripeMovesOnly(from, to);
    SystemMoves(from, to);
    SomebodyMay(from, to);
    hide MOVES;
    if (from, to) in MOVES {
      var other :| other in MOVES[(from, to)];
      assert Transition(from, to, other).Ok?;
    }
  }

  lemma SomebodyMay(from: OrderStatus, to: OrderStatus)
    ensures (from, to) in MOVES ==> MOVES[(from, to)] != {}
  {
  }

  predicate MoneyHasMoved(status: OrderStatus) {
    status != Created && status != Cancelled
  }

  // ------------------------------------------------------------------ //
  // Histories
  // ------------------------------------------------------------------ //

  /** One row of `order_events`. */
  datatype OrderEvent = OrderEvent(from: OrderStatus, to: OrderStatus, actor: OrderActor)

  function StatusAfter(history: seq<OrderEvent>): OrderStatus {
    if |history| == 0 then Created else history[|history| - 1].to
  }

  /** Each event starts where the one before ended, and was allowed to whoever made it. */
  ghost predicate History(history: seq<OrderEvent>) {
    forall k :: 0 <= k < |history| ==> EventFollows(history, k)
  }

  predicate EventFollows(history: seq<OrderEvent>, k: nat)
    requires k < |history|
  {
    history[k].from == StatusAfter(history[..k]) && CanTransition(history[k].from, history[k].to, history[k].actor)
  }

  lemma HistoryGrows(history: seq<OrderEvent>, to: OrderStatus, actor: OrderActor)
    requires History(history) && CanTransition(StatusAfter(history), to, actor)
    ensures History(history + [OrderEvent(StatusAfter(history), to, actor)])
    ensures StatusAfter(history + [OrderEvent(StatusAfter(history), to, actor)]) == to
  {
    var longer := history + [OrderEvent(StatusAfter(history), to, actor)];
    forall k | 0 <= k < |longer| ensures EventFollows(longer, k) {
      assert longer[..k] == if k == |history| then history else history[..k];
      if k < |history| { assert EventFollows(history, k); }
    }
  }

  lemma PrefixIsHistory(history: seq<OrderEvent>, n: nat)
    requires History(history) && n <= |history|
    ensures History(history[..n])
  {
    forall k | 0 <= k < n ensures EventFollows(history[..n], k) {
      assert history[..n][..k] == history[..k];
      assert EventFollows(history, k);
    }
  }

  /** The last step of a history, with what came before. */
  lemma LastStep(history: seq<OrderEvent>)
    requires History(history) && |history| > 0
    ensures var n := |history| - 1;
            && History(history[..n]) && history[n].from == StatusAfter(history[..n])
            && CanTransition(history[n].from, history[n].to, history[n].actor)
  {
    PrefixIsHistory(history, |history| - 1);
    assert EventFollows(history, |history| - 1);
  }

  predicate IsPayment(e: OrderEvent) {
    e.from == Created && e.to == Paid
  }

  function Payments(history: seq<OrderEvent>): nat {
    if |history| == 0 then 0
    else Payments(history[..|history| - 1]) + (if IsPayment(history[|history| - 1]) then 1 else 0)
  }

  ghost predicate Entered(history: seq<OrderEvent>, status: OrderStatus) {
    exists k :: 0 <= k < |history| && history[k].to == status
  }

  lemma EnteredGrows(history: seq<OrderEvent>, status: OrderStatus)
    requires |history| > 0
    ensures Entered(history, status)
            <==> Entered(history[..|history| - 1], status) || history[|history| - 1].to == status
  {
    var n := |history| - 1;
    if k :| 0 <= k < n && history[..n][k].to == status { assert history[k].to == status; }
    if k :| 0 <= k < |history| && history[k].to == status && k < n { assert history[..n][k].to == status; }
  }

  lemma MoveFacts(from: OrderStatus, to: OrderStatus, actor: OrderActor)
    requires CanTransition(from, to, actor)
    ensures from != Cancelled && from != Refunded && to != Created
    ensures from == Created ==> to == Paid || to == Cancelled
    ensures to == Paid ==> from == Created
    ensures to == Cancelled ==> from == Created || from == Paid
  {
  }

  /** An order has been paid for, once, exactly when it is beyond `created` and was not cancelled straight from it. */
  lemma {:induction false} PaidOnce(history: seq<OrderEvent>)
    requires History(history)
    ensures Payments(history) <= 1
    ensures |history| > 0 ==> StatusAfter(history) != Created
    ensures Payments(history) == 1 <==>
              MoneyHasMoved(StatusAfter(history))
              || (|history| > 0 && history[|history| - 1].from == Paid && history[|history| - 1].to == Cancelled)
    decreases |history|
  {
    hide History, CanTransition, EventFollows;
    if |history| == 0 {
    } else {
      var last := history[|history| - 1];
      LastStep(history);
      PaidOnce(history[..|history| - 1]);
      MoveFacts(last.from, last.to, last.actor);
    }
  }

  /**
   * Who made each kind of step: payment and refund only Stripe, completion never a party to the sale,
   * delivery never the seller.
   */
  lemma WhoMovedIt(history: seq<OrderEvent>, k: nat)
    requires History(history) && k < |history|
    ensures history[k].to == Paid ==> history[k].actor == Stripe && IsPayment(history[k])
    ensures history[k].to == Refunded ==> history[k].actor == Stripe
    ensures history[k].to == Completed ==> history[k].actor == System || history[k].actor == Admin
    ensures history[k].to == Delivered ==> history[k].actor == System || history[k].actor == Admin
    ensures history[k].to == Shipped ==> history[k].actor == Seller
    ensures history[k].actor == Buyer ==> history[k].to == Cancelled || history[k].to == Disputed
  {
    assert EventFollows(history, k);
  }

  // ------------------------------------------------------------------ //
  // How long a history can be
  // ------------------------------------------------------------------ //

  predicate ResolvesDispute(e: OrderEvent) {
    e.from == Disputed && e.to == Completed
  }

  function Rank(status: OrderStatus): nat {
    match status
    case Created => 0
    case Paid => 1
    case Shipped => 2
    case Delivered => 3
    case Completed => 4
    case Disputed => 5
    case Cancelled => 6
    case Refunded => 6
  }

  lemma MovesClimb(from: OrderStatus, to: OrderStatus, actor: OrderActor)
    requires CanTransition(from, to, actor) && !(from == Disputed && to == Completed)
    ensures Rank(from) < Rank(to)
  {
  }

  /** Without a dispute resolved for the seller an order takes at most six steps. */
  lemma {:induction false} AtMostSixSteps(history: seq<OrderEvent>)
    requires History(history) && forall k :: 0 <= k < |history| ==> !ResolvesDispute(history[k])
    ensures |history| <= Rank(StatusAfter(history)) <= 6
    decreases |history|
  {
    if |history| == 0 {
    } else {
      LastStep(history);
      var n := |history| - 1;
      AtMostSixSteps(history[..n]);
      MovesClimb(history[n].from, history[n].to, history[n].actor);
    }
  }

  function BackAndForth(n: nat): seq<OrderEvent> {
    if n == 0 then
      [OrderEvent(Created, Paid, Stripe), OrderEvent(Paid, Shipped, Seller),
       OrderEvent(Shipped, Delivered, System), OrderEvent(Delivered, Completed, System)]
    else BackAndForth(n - 1) + [OrderEvent(Completed, Disputed, Buyer), OrderEvent(Disputed, Completed, Admin)]
  }

  /** With such resolutions there is no bound: dispute and resolution can alternate for ever. */
  lemma {:induction false} NoBoundWithResolutions(n: nat)
    ensures History(BackAndForth(n)) && StatusAfter(BackAndForth(n)) == Completed && |BackAndForth(n)| == 4 + 2 * n
  {
    if n == 0 {
      var h: seq<OrderEvent> := [];
      HistoryGrows(h, Paid, Stripe);
      var h1 := h + [OrderEvent(Created, Paid, Stripe)];
      HistoryGrows(h1, Shipped, Seller);
      var h2 := h1 + [OrderEvent(Paid, Shipped, Seller)];
      HistoryGrows(h2, Delivered, System);
      var h3 := h2 + [OrderEvent(Shipped, Delivered, System)];
      HistoryGrows(h3, Completed, System);
      assert BackAndForth(0) == h3 + [OrderEvent(Delivered, Completed, System)];
    } else {
      NoBoundWithResolutions(n - 1);
      var h := BackAndForth(n - 1);
      HistoryGrows(h, Disputed, Buyer);
      var h1 := h + [OrderEvent(Completed, Disputed, Buyer)];
      HistoryGrows(h1, Completed, Admin);
      assert BackAndForth(n) == h1 + [OrderEvent(Disputed, Completed, Admin)];
    }
  }

  // ------------------------------------------------------------------ //
  // Completed without having arrived
  // ------------------------------------------------------------------ //

  /** Disputed before it was delivered: the detour that skips the parcel. */
  predicate DisputedEarly(e: OrderEvent) {
    e.to == Disputed && (e.from == Paid || e.from == Shipped)
  }

  ghost predicate EverDisputedEarly(history: seq<OrderEvent>) {
    exists k :: 0 <= k < |history| && DisputedEarly(history[k])
  }

  lemma DisputedEarlyGrows(history: seq<OrderEvent>)
    requires |history| > 0
    ensures EverDisputedEarly(history)
            <==> EverDisputedEarly(history[..|history| - 1]) || DisputedEarly(history[|history| - 1])
  {
    var n := |history| - 1;
    if k :| 0 <= k < n && DisputedEarly(history[..n][k]) { assert DisputedEarly(history[k]); }
    if k :| 0 <= k < |history| && DisputedEarly(history[k]) && k < n { assert DisputedEarly(history[..n][k]); }
  }

  lemma {:induction false} DeliveryOnTheWay(history: seq<OrderEvent>)
    requires History(history)
    ensures StatusAfter(history) in {Delivered, Completed, Disputed} ==>
              (Entered(history, Delivered) <==> !EverDisputedEarly(history))
    ensures StatusAfter(history) in {Created, Paid, Shipped} ==>
              !Entered(history, Delivered) && !EverDisputedEarly(history)
    ensures StatusAfter(history) == Delivered ==> Entered(history, Delivered)
    decreases |history|
  {
    if |history| == 0 {
    } else {
      LastStep(history);
      DeliveryOnTheWay(history[..|history| - 1]);
      EnteredGrows(history, Delivered);
      DisputedEarlyGrows(history);
    }
  }

  /**
   * A completed order was delivered exactly when it was never disputed before delivery; an admin can
   * complete one that was.
   */
  lemma CompletedWasDeliveredIff(history: seq<OrderEvent>)
    requires History(history) && StatusAfter(history) == Completed
    ensures Entered(history, Delivered) <==> !EverDisputedEarly(history)
  {
    DeliveryOnTheWay(history);
  }
}
