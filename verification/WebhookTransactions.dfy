/**
 * Webhook deliveries as the transactions they are (apps/api/src/routes/stripe-webhook.ts:46-57,
 * 101-118): any number open at once, each taking the steps claim, look up, lock, decide and write,
 * commit, with the waits that the unique indexes and the row locks impose.
 */
module WebhookTransactions {
  import opened Wrappers
  import opened Orders
  import opened OrderTables
  import opened Uuids
  import opened Webhook

  type TxId = nat

  /**
   * How far a delivery has come. A lookup that finds no order leaves nothing more to write; an illegal
   * move rolls its savepoint back, and with it the row lock.
   */
  datatype Phase =
    | Claimed
    | Missed
    | Found(id: OrderId)
    | Locked(id: OrderId, row: Order)
    | Decided(id: OrderId, decision: Decision)
    | Refused(id: OrderId, note: Option<Refusal>)

  datatype Tx = Tx(event: Event, phase: Phase)

  /**
   * The committed tables and the open transactions; what has committed, in that order, and which events
   * found no order.
   */
  datatype State = State(db: Db, txs: map<TxId, Tx>, commits: seq<Action>, misses: set<EventId>)

  const START := State(EMPTY, map[], [], {})

  /** The parties' own requests are one step each: they lock first and decide after. */
  datatype Step =
    | Claim(t: TxId, event: Event)
    | Look(t: TxId)
    | Lock(t: TxId)
    | Settle(t: TxId)
    | Commit(t: TxId)
    | Rollback(t: TxId)
    | Party(action: Action)

  predicate HoldsLock(tx: Tx, id: OrderId) {
    (tx.phase.Locked? || tx.phase.Decided?) && tx.phase.id == id
  }

  predicate Unlocked(txs: map<TxId, Tx>, id: OrderId) {
    forall t :: t in txs ==> !HoldsLock(txs[t], id)
  }

  predicate IsPaymentWrite(d: Decision) {
    d.Write? && d.action == OrderPaid
  }

  /** An uncommitted row with this intent, or this session, in its unique index: whoever wants either waits. */
  predicate WroteIntent(tx: Tx, intent: Option<PaymentIntent>) {
    tx.phase.Decided? && IsPaymentWrite(tx.phase.decision) && tx.phase.decision.row.paymentIntent == intent
  }

  predicate WroteSession(tx: Tx, session: Option<SessionId>) {
    tx.phase.Decided? && IsPaymentWrite(tx.phase.decision) && tx.phase.decision.row.checkoutId == session
  }

  predicate KeysFree(txs: map<TxId, Tx>, d: Decision) {
    IsPaymentWrite(d) ==>
      forall t :: t in txs ==> !WroteIntent(txs[t], d.row.paymentIntent) && !WroteSession(txs[t], d.row.checkoutId)
  }

  predicate SessionFree(txs: map<TxId, Tx>, session: SessionId) {
    forall t :: t in txs ==> !WroteSession(txs[t], Some(session))
  }

  /** Nobody else is on this event, committed or not: the index on the event id makes a second claim wait. */
  predicate Claimable(s: State, id: EventId) {
    id !in s.db.claims && forall t :: t in s.txs ==> s.txs[t].event.id != id
  }

  predicate Settles(s: State, tx: Tx) {
    && tx.phase.Locked? && Concerns(tx.event.payload)
    && var d := Decide(tx.phase.row, tx.event.payload);
       d != Fail && !Clashes(s.db, tx.phase.id, d) && KeysFree(s.txs, d)
  }

  predicate PartyCan(s: State, action: Action) {
    && !action.Delivery? && Act(s.db, action) != s.db
    && (action.Attach? ==> Unlocked(s.txs, action.id) && SessionFree(s.txs, action.session))
    && (action.PartyMove? ==> Unlocked(s.txs, action.id))
  }

  /** The steps not blocked by another transaction, nor ended by an error: those leave only the rollback. */
  predicate Can(s: State, step: Step) {
    match step
    case Claim(t, event) => t !in s.txs && Claimable(s, event.id)
    case Look(t) => t in s.txs && s.txs[t].phase.Claimed? && Find(s.db, s.txs[t].event.payload) != BadKey
    case Lock(t) =>
      t in s.txs && s.txs[t].phase.Found? && s.txs[t].phase.id in s.db.orders && Unlocked(s.txs, s.txs[t].phase.id)
    case Settle(t) => t in s.txs && Settles(s, s.txs[t])
    case Commit(t) => t in s.txs && (s.txs[t].phase.Missed? || s.txs[t].phase.Decided? || s.txs[t].phase.Refused?)
    case Rollback(t) => t in s.txs
    case Party(action) => PartyCan(s, action)
  }

  function Looked(db: Db, tx: Tx): Tx {
    match Find(db, tx.event.payload)
    case Ignored => tx.(phase := Missed)
    case BadKey => tx
    case Missing => tx.(phase := Missed)
    case At(id) => tx.(phase := Found(id))
  }

  function Settled(tx: Tx): Tx
    requires tx.phase.Locked? && Concerns(tx.event.payload)
  {
    var d := Decide(tx.phase.row, tx.event.payload);
    tx.(phase := if d.Refuse? then Refused(tx.phase.id, d.note) else Decided(tx.phase.id, d))
  }

  /** What the commit makes visible: the writes as they were made, with the claim. */
  function Written(db: Db, tx: Tx): Db {
    match tx.phase
    case Decided(id, d) => Apply(db, id, d)
    case Refused(id, note) => Apply(db, id, Refuse(note))
    case _ => db
  }

  function Do(s: State, step: Step): State
    requires Can(s, step)
  {
    match step
    case Claim(t, event) => s.(txs := s.txs[t := Tx(event, Claimed)])
    case Look(t) => s.(txs := s.txs[t := Looked(s.db, s.txs[t])])
    case Lock(t) => s.(txs := s.txs[t := s.txs[t].(phase := Locked(s.txs[t].phase.id, s.db.orders[s.txs[t].phase.id]))])
    case Settle(t) => s.(txs := s.txs[t := Settled(s.txs[t])])
    case Commit(t) =>
      var tx := s.txs[t];
      State(Claiming(Written(s.db, tx), tx.event.id), s.txs - {t}, s.commits + [Delivery(tx.event)],
            if tx.phase.Missed? then s.misses + {tx.event.id} else s.misses)
    case Rollback(t) => s.(txs := s.txs - {t})
    case Party(action) => s.(db := Act(s.db, action), commits := s.commits + [action])
  }

  predicate Possible(steps: seq<Step>)
    decreases |steps|, 0
  {
    |steps| == 0 || (Possible(steps[..|steps| - 1]) && Can(After(steps[..|steps| - 1]), steps[|steps| - 1]))
  }

  function After(steps: seq<Step>): State
    requires Possible(steps)
    decreases |steps|, 1
  {
    if |steps| == 0 then START else Do(After(steps[..|steps| - 1]), steps[|steps| - 1])
  }

  // ------------------------------------------------------------------ //
  // What every step keeps of the open transactions
  // ------------------------------------------------------------------ //

  ghost predicate Finds(db: Db, tx: Tx, id: OrderId) {
    Concerns(tx.event.payload) && Find(db, tx.event.payload) == At(id)
  }

  /** What a transaction has read and written still agrees with the committed tables. */
  ghost predicate TxOk(db: Db, tx: Tx) {
    && tx.event.id !in db.claims
    && match tx.phase
       case Claimed => true
       case Missed => Find(db, tx.event.payload) != BadKey
       case Found(id) => Finds(db, tx, id)
       case Locked(id, row) => Finds(db, tx, id) && db.orders[id] == row
       case Decided(id, d) =>
         Finds(db, tx, id) && (d.Leave? || d.Write?) && Decide(db.orders[id], tx.event.payload) == d
           && !Clashes(db, id, d)
       case Refused(id, note) => Finds(db, tx, id) && Decide(db.orders[id], tx.event.payload) == Refuse(note)
  }

  ghost predicate Apart(a: Tx, b: Tx) {
    && a.event.id != b.event.id
    && (forall id :: HoldsLock(a, id) ==> !HoldsLock(b, id))
    && (a.phase.Decided? && IsPaymentWrite(a.phase.decision) ==>
          !WroteIntent(b, a.phase.decision.row.paymentIntent) && !WroteSession(b, a.phase.decision.row.checkoutId))
  }

  ghost predicate StateOk(s: State) {
    && Inv(s.db) && s.misses <= s.db.claims
    && (forall t :: t in s.txs ==> TxOk(s.db, s.txs[t]))
    && (forall t, u :: t in s.txs && u in s.txs && t != u ==> Apart(s.txs[t], s.txs[u]))
  }

  lemma FindStays(before: Db, after: Db, e: Payload, id: OrderId)
    requires Grows(before, after) && Find(before, e) == At(id)
    ensures Find(after, e) == At(id)
  {
    hide RowFollows, Storable, ParseUuid;
  }

  /** Whether a lookup is rejected depends on the event alone. */
  lemma BadKeyStays(before: Db, after: Db, e: Payload)
    ensures Find(before, e) == BadKey <==> Find(after, e) == BadKey
  {
    hide Storable, ParseUuid;
  }

  lemma FoundByIntent(db: Db, e: Payload, id: OrderId)
    requires Inv(db) && Find(db, e) == At(id)
    ensures !e.CheckoutCompleted? ==> db.orders[id].paymentIntent.Some?
  {
    hide Inv, Storable, ParseUuid;
    if !e.CheckoutCompleted? { FindsItsOrder(db, e.intent.value, id); }
  }

  /** A refusal stands: no legal move leads back to a state that would have taken the event. */
  lemma RefusalStands(before: Order, after: Order, e: Payload, note: Option<Refusal>)
    requires OrderOk(before) && RowFollows(before, after) && Concerns(e) && Decide(before, e) == Refuse(note)
    requires !e.CheckoutCompleted? ==> before.paymentIntent.Some?
    ensures Decide(after, e) == Refuse(note)
  {
    StripeMoves(before);
    StripeMoves(after);
    PaidOnlyOnce(before);
    if before.status != after.status {
      var actor :| CanTransition(before.status, after.status, actor);
      MoveFacts(before.status, after.status, actor);
    }
    hide Move, OrderOk, CanTransition, Storable, TaxOf, ReasonFits;
  }

  /** One transaction, through a commit of somebody else's that leaves its locked row and its keys alone. */
  lemma TxStays(before: Db, after: Db, tx: Tx)
    requires Inv(before) && TxOk(before, tx) && Grows(before, after) && tx.event.id !in after.claims
    requires tx.phase.Locked? || tx.phase.Decided? ==>
               tx.phase.id in after.orders && after.orders[tx.phase.id] == before.orders[tx.phase.id]
    requires tx.phase.Decided? ==> !Clashes(after, tx.phase.id, tx.phase.decision)
    ensures TxOk(after, tx)
  {
    hide Inv, Decide, Clashes, RowFollows, Find;
    BadKeyStays(before, after, tx.event.payload);
    if tx.phase.Found? || tx.phase.Locked? || tx.phase.Decided? || tx.phase.Refused? {
      FindStays(before, after, tx.event.payload, tx.phase.id);
    }
    if tx.phase.Refused? {
      var id := tx.phase.id;
      OrdersAreOk(before, id);
      FoundByIntent(before, tx.event.payload, id);
      RefusalStands(before.orders[id], after.orders[id], tx.event.payload, tx.phase.note);
    }
  }

  /** A payment's keys stay free while nobody else brings the same ones. */
  lemma KeysStayFree(before: Db, after: Db, id: OrderId, d: Decision)
    requires !Clashes(before, id, d)
    requires forall intent :: intent in after.byIntent && intent !in before.byIntent && IsPaymentWrite(d) ==>
               d.row.paymentIntent != Some(intent)
    requires forall intent :: intent in after.byIntent && intent in before.byIntent ==>
               after.byIntent[intent] == before.byIntent[intent]
    requires forall other ::
               other in after.orders && IsPaymentWrite(d) && after.orders[other].checkoutId.Some?
               && after.orders[other].checkoutId == d.row.checkoutId
               ==> other in before.orders && before.orders[other].checkoutId == after.orders[other].checkoutId
    ensures !Clashes(after, id, d)
  {
  }

  /** The others, through one transaction's commit. */
  lemma OthersSurviveCommit(s: State, t: TxId, u: TxId)
    requires StateOk(s) && Can(s, Commit(t)) && u in s.txs && u != t
    ensures TxOk(Do(s, Commit(t)).db, s.txs[u])
  {
    hide Inv, Decide, Find, RowFollows, SessionTaken;
    var tx, other := s.txs[t], s.txs[u];
    assert Apart(tx, other) && TxOk(s.db, tx) && TxOk(s.db, other);
    var after := Do(s, Commit(t)).db;
    CommitGrows(s, t);
    if other.phase.Locked? || other.phase.Decided? { assert HoldsLock(other, other.phase.id) && Apart(other, tx); }
    if other.phase.Decided? { KeysSurviveCommit(s, t, u); }
    hide Clashes, Finds;
    TxStays(s.db, after, other);
  }

  lemma CommitGrows(s: State, t: TxId)
    requires StateOk(s) && Can(s, Commit(t))
    ensures Grows(s.db, Do(s, Commit(t)).db)
  {
    hide Inv, Decide, Find, RowFollows, Clashes, Apply;
    var tx := s.txs[t];
    assert TxOk(s.db, tx);
    RowsFollowThemselves(s.db);
    if tx.phase.Decided? || tx.phase.Refused? {
      var d := Decide(s.db.orders[tx.phase.id], tx.event.payload);
      RefusalNeverClashes(s.db, tx.phase.id, d);
      DecidedGrows(s.db, tx.phase.id, tx.event.payload);
      ApplyKeepsClaims(s.db, tx.phase.id, d);
    }
  }

  lemma ApplyKeepsClaims(db: Db, id: OrderId, d: Decision)
    ensures Apply(db, id, d).claims == db.claims
  {
  }

  lemma RefusalNeverClashes(db: Db, id: OrderId, d: Decision)
    ensures d.Refuse? ==> !Clashes(db, id, d)
  {
  }

  lemma KeysSurviveCommit(s: State, t: TxId, u: TxId)
    requires StateOk(s) && Can(s, Commit(t)) && u in s.txs && u != t && s.txs[u].phase.Decided?
    ensures !Clashes(Do(s, Commit(t)).db, s.txs[u].phase.id, s.txs[u].phase.decision)
  {
    hide Inv, Decide, Find, RowFollows, SessionTaken;
    var tx, other := s.txs[t], s.txs[u];
    assert Apart(other, tx) && TxOk(s.db, tx) && TxOk(s.db, other);
    var after := Do(s, Commit(t)).db;
    if tx.phase.Decided? && tx.phase.decision.Write? {
      OrdersAreOk(s.db, tx.phase.id);
      WrittenRowIsOk(s.db.orders[tx.phase.id], tx.event.payload);
    }
    hide OrderOk, Clashes;
    KeysStayFree(s.db, after, other.phase.id, other.phase.decision);
  }

  lemma KeysSurviveParty(s: State, action: Action, u: TxId)
    requires StateOk(s) && PartyCan(s, action) && u in s.txs && s.txs[u].phase.Decided?
    ensures !Clashes(Act(s.db, action), s.txs[u].phase.id, s.txs[u].phase.decision)
  {
    hide Inv, Decide, Find, SessionTaken, ListingTaken, Storable, PartyMoved;
    var tx := s.txs[u];
    assert TxOk(s.db, tx);
    if action.Attach? { assert !WroteSession(tx, Some(action.session)); }
    if action.PartyMove? {
      OrdersAreOk(s.db, action.id);
      PartyMovedFollows(s.db.orders[action.id], action.to, action.actor);
    }
    hide Clashes, OrderOk, RowFollows, CanTransition;
    KeysStayFree(s.db, Act(s.db, action), tx.phase.id, tx.phase.decision);
  }

  lemma OthersSurviveParty(s: State, action: Action, u: TxId)
    requires StateOk(s) && PartyCan(s, action) && u in s.txs
    ensures TxOk(Act(s.db, action), s.txs[u])
  {
    hide Inv, Decide, Find, SessionTaken, ListingTaken, Storable, PartyMoved, Grows;
    var tx := s.txs[u];
    assert TxOk(s.db, tx);
    ActGrows(s.db, action);
    if tx.phase.Locked? || tx.phase.Decided? { assert HoldsLock(tx, tx.phase.id); }
    if tx.phase.Decided? { KeysSurviveParty(s, action, u); }
    hide Clashes, Finds;
    TxStays(s.db, Act(s.db, action), tx);
  }

  lemma CommitKeepsInv(s: State, t: TxId)
    requires StateOk(s) && Can(s, Commit(t))
    ensures Inv(Do(s, Commit(t)).db)
  {
    hide Inv, Decide, Find, Clashes, Apply;
    var tx := s.txs[t];
    assert TxOk(s.db, tx);
    if tx.phase.Decided? || tx.phase.Refused? {
      var d := Decide(s.db.orders[tx.phase.id], tx.event.payload);
      RefusalNeverClashes(s.db, tx.phase.id, d);
      DecisionKeepsInv(s.db, tx.phase.id, tx.event.payload);
    }
    ClaimKeepsInv(Written(s.db, tx), tx.event.id);
  }

  lemma NewPhaseIsOk(s: State, step: Step)
    requires StateOk(s) && Can(s, step) && (step.Look? || step.Lock? || step.Settle?)
    ensures TxOk(s.db, Do(s, step).txs[step.t])
  {
    hide Inv, Decide, Clashes;
    assert TxOk(s.db, s.txs[step.t]);
  }

  lemma NewPhaseIsApart(s: State, step: Step, u: TxId)
    requires StateOk(s) && Can(s, step) && (step.Look? || step.Lock? || step.Settle?) && u in s.txs && u != step.t
    ensures Apart(Do(s, step).txs[step.t], s.txs[u]) && Apart(s.txs[u], Do(s, step).txs[step.t])
  {
    hide Inv, Decide, Clashes, Find, TxOk;
    assert Apart(s.txs[step.t], s.txs[u]) && Apart(s.txs[u], s.txs[step.t]);
    if step.Settle? { assert HoldsLock(s.txs[step.t], s.txs[step.t].phase.id); }
  }

  lemma StepKeepsOk(s: State, step: Step)
    requires StateOk(s) && Can(s, step)
    ensures StateOk(Do(s, step))
  {
    hide Inv, TxOk, Apart, Can, Do;
    match step {
      case Claim(t, event) => ClaimKeepsOk(s, t, event);
      case Commit(t) => CommitKeepsOk(s, t);
      case Rollback(t) => RollbackKeepsOk(s, t);
      case Party(action) => PartyKeepsOk(s, action);
      case _ => OwnStepKeepsOk(s, step);
    }
  }

  lemma ClaimKeepsOk(s: State, t: TxId, event: Event)
    requires StateOk(s) && Can(s, Claim(t, event))
    ensures StateOk(Do(s, Claim(t, event)))
  {
    hide Inv;
    ReplacedKeepsOk(s, t, Tx(event, Claimed));
  }

  lemma RollbackKeepsOk(s: State, t: TxId)
    requires StateOk(s) && Can(s, Rollback(t))
    ensures StateOk(Do(s, Rollback(t)))
  {
    hide Inv, TxOk, Apart;
  }

  lemma PartyKeepsOk(s: State, action: Action)
    requires StateOk(s) && Can(s, Party(action))
    ensures StateOk(Do(s, Party(action)))
  {
    ActKeepsInv(s.db, action);
    forall u | u in s.txs ensures TxOk(Act(s.db, action), s.txs[u]) { OthersSurviveParty(s, action, u); }
    PartyKeepsClaims(s.db, action);
    hide Inv, TxOk, Apart, Act;
  }

  lemma PartyKeepsClaims(db: Db, action: Action)
    requires !action.Delivery?
    ensures Act(db, action).claims == db.claims
  {
    hide PartyMoved, SessionTaken, ListingTaken, Storable;
  }

  lemma CommitKeepsOk(s: State, t: TxId)
    requires StateOk(s) && Can(s, Commit(t))
    ensures StateOk(Do(s, Commit(t)))
  {
    CommitKeepsInv(s, t);
    CommitGrows(s, t);
    forall u | u in s.txs && u != t ensures TxOk(Do(s, Commit(t)).db, s.txs[u]) { OthersSurviveCommit(s, t, u); }
    hide Inv, TxOk, Apart, Written, RowFollows;
  }

  lemma ReplacedKeepsOk(s: State, t: TxId, tx: Tx)
    requires StateOk(s) && TxOk(s.db, tx)
    requires forall u :: u in s.txs && u != t ==> Apart(tx, s.txs[u]) && Apart(s.txs[u], tx)
    ensures StateOk(s.(txs := s.txs[t := tx]))
  {
    hide Inv, TxOk, Apart;
  }

  lemma OwnStepKeepsOk(s: State, step: Step)
    requires StateOk(s) && Can(s, step) && (step.Look? || step.Lock? || step.Settle?)
    ensures StateOk(Do(s, step))
  {
    NewPhaseIsOk(s, step);
    hide StateOk, TxOk, Apart, Looked, Settled, Settles, Find;
    var tx := Do(s, step).txs[step.t];
    forall u | u in s.txs && u != step.t
      ensures Apart(tx, s.txs[u]) && Apart(s.txs[u], tx)
    {
      NewPhaseIsApart(s, step, u);
    }
    assert Do(s, step) == s.(txs := s.txs[step.t := tx]);
    ReplacedKeepsOk(s, step.t, tx);
  }

  lemma {:induction false} EveryStateIsOk(steps: seq<Step>)
    requires Possible(steps)
    ensures StateOk(After(steps))
    decreases |steps|
  {
    if |steps| == 0 {
    } else {
      hide StateOk, Do, Can;
      EveryStateIsOk(steps[..|steps| - 1]);
      StepKeepsOk(After(steps[..|steps| - 1]), steps[|steps| - 1]);
    }
  }

  // ------------------------------------------------------------------ //
  // A commit is a delivery made there and then, unless it missed
  // ------------------------------------------------------------------ //

  lemma CommitDelivers(s: State, t: TxId)
    requires StateOk(s) && Can(s, Commit(t)) && !s.txs[t].phase.Missed?
    ensures Commits(s.db, s.txs[t].event)
    ensures Do(s, Commit(t)).db == Deliver(s.db, s.txs[t].event) == Act(s.db, Delivery(s.txs[t].event))
  {
    hide Inv, Decide, Find, Clashes, Apply;
    var tx := s.txs[t];
    assert TxOk(s.db, tx);
    RefusalNeverClashes(s.db, tx.phase.id, Decide(s.db.orders[tx.phase.id], tx.event.payload));
    ClaimsDoNotMatter(s.db, tx.event.id, tx.event.payload);
  }

  predicate Misses(db: Db, e: Payload) {
    Find(db, e).Ignored? || Find(db, e).Missing?
  }

  /** Looked up again now, the event would change something, or throw. */
  predicate StaleMiss(s: State, t: TxId) {
    && t in s.txs && s.txs[t].phase.Missed?
    && var e := s.txs[t].event.payload;
       Find(s.db, e).At? && Decide(s.db.orders[Find(s.db, e).id], e) !in {Leave, Refuse(None)}
  }

  /** One commit, exactly: it is the delivery made at that moment unless its lookup has gone stale. */
  lemma CommitOrderIff(s: State, t: TxId)
    requires StateOk(s) && Can(s, Commit(t))
    ensures Do(s, Commit(t)).db == Deliver(s.db, s.txs[t].event) <==> !StaleMiss(s, t)
  {
    hide Inv;
    var tx := s.txs[t];
    assert TxOk(s.db, tx);
    if tx.phase.Missed? {
      hide TxOk, Apart;
      ClaimsDoNotMatter(s.db, tx.event.id, tx.event.payload);
      if Find(s.db, tx.event.payload).At? { MissedDelivery(s.db, tx.event); } else { hide Decide; }
    } else {
      CommitDelivers(s, t);
    }
  }

  lemma MissedDelivery(db: Db, event: Event)
    requires Find(db, event.payload).At? && event.id !in db.claims
    ensures var d := Decide(db.orders[Find(db, event.payload).id], event.payload);
            Deliver(db, event) == Claiming(db, event.id) <==> d in {Leave, Refuse(None)}
  {
    hide Decide, Find, Clashes;
    ClaimsDoNotMatter(db, event.id, event.payload);
    var id := Find(db, event.payload).id;
    var d := Decide(db.orders[id], event.payload);
    if d == Fail || Clashes(db, id, d) {
      assert Deliver(db, event) == db && event.id in Claiming(db, event.id).claims;
      assert d != Fail ==> d.Write? by { OnlyWritesClash(db, id, d); }
    } else {
      assert Deliver(db, event) == Claiming(Apply(db, id, d), event.id);
      assert d.Write? || (d.Refuse? && d.note.Some?) ==> |Apply(db, id, d).audit| > |db.audit|;
      assert d.Refuse? && d.note.None? ==> d == Refuse(None);
    }
  }

  lemma OnlyWritesClash(db: Db, id: OrderId, d: Decision)
    ensures Clashes(db, id, d) ==> d.Write?
  {
  }

  ghost predicate CommitsExplain(s: State) {
    s.db == Run(s.commits)
  }

  predicate CommitsStale(s: State, step: Step) {
    step.Commit? && StaleMiss(s, step.t)
  }

  /** At every point of the run so far. */
  ghost predicate AlwaysExplained(steps: seq<Step>)
    requires Possible(steps)
  {
    CommitsExplain(After(steps)) && (|steps| > 0 ==> AlwaysExplained(steps[..|steps| - 1]))
  }

  predicate NeverStale(steps: seq<Step>)
    requires Possible(steps)
  {
    |steps| == 0 || (NeverStale(steps[..|steps| - 1]) && !CommitsStale(After(steps[..|steps| - 1]), steps[|steps| - 1]))
  }

  lemma StepExplainedIff(s: State, step: Step)
    requires StateOk(s) && Can(s, step) && CommitsExplain(s)
    ensures CommitsExplain(Do(s, step)) <==> !CommitsStale(s, step)
  {
    hide StateOk, StaleMiss, Written, Looked, Settled, Settles, Find;
    match step {
      case Commit(t) =>
        CommitOrderIff(s, t);
        RunGrows(s.commits, Delivery(s.txs[t].event));
      case Party(action) => RunGrows(s.commits, action);
      case _ =>
    }
  }

  /**
   * The committed actions, run one after another in the order of their commits, give the tables at
   * every point of a run exactly when no delivery in it commits a lookup that has gone stale.
   */
  lemma {:induction false} CommitOrderExplainsIff(steps: seq<Step>)
    requires Possible(steps)
    ensures AlwaysExplained(steps) <==> NeverStale(steps)
    decreases |steps|
  {
    if |steps| == 0 {
    } else {
      var before := After(steps[..|steps| - 1]);
      CommitOrderExplainsIff(steps[..|steps| - 1]);
      EveryStateIsOk(steps[..|steps| - 1]);
      hide StateOk, CommitsExplain, CommitsStale, Can, Do;
      if CommitsExplain(before) { StepExplainedIff(before, steps[|steps| - 1]); }
      AlwaysMeansNow(steps[..|steps| - 1]);
    }
  }

  lemma AlwaysMeansNow(steps: seq<Step>)
    requires Possible(steps)
    ensures AlwaysExplained(steps) ==> CommitsExplain(After(steps))
  {
  }

  // ------------------------------------------------------------------ //
  // Some serial order always explains the tables
  // ------------------------------------------------------------------ //

  /** Every delivery in the list commits when its turn comes, so each event is in it once. */
  ghost predicate EachCommits(actions: seq<Action>) {
    |actions| > 0 ==>
      && EachCommits(actions[..|actions| - 1])
      && (actions[|actions| - 1].Delivery? ==> Commits(Run(actions[..|actions| - 1]), actions[|actions| - 1].event))
  }

  predicate OneOf(action: Action, events: set<EventId>) {
    action.Delivery? && action.event.id in events
  }

  /** The list without the deliveries of these events. */
  function Without(actions: seq<Action>, events: set<EventId>): seq<Action> {
    if |actions| == 0 then []
    else
      var last := actions[|actions| - 1];
      Without(actions[..|actions| - 1], events) + (if OneOf(last, events) then [] else [last])
  }

  /**
   * A serial order of what has committed: the same actions, each delivery committing in its turn, and
   * moved from its place in the order of the commits at most if it found no order.
   */
  ghost predicate SerialOrder(s: State, serial: seq<Action>) {
    && Run(serial) == s.db && EachCommits(serial)
    && multiset(serial) == multiset(s.commits) && Without(serial, s.misses) == Without(s.commits, s.misses)
  }

  ghost predicate MissesAt(serial: seq<Action>, k: nat, e: Payload) {
    k <= |serial| && Misses(Run(serial[..k]), e)
  }

  /** And whoever is still to commit a lookup that found nothing has a place to go. */
  ghost predicate Explains(s: State, serial: seq<Action>) {
    SerialOrder(s, serial)
    && forall t :: t in s.txs && s.txs[t].phase.Missed? ==> exists k :: MissesAt(serial, k, s.txs[t].event.payload)
  }

  function Inserted(actions: seq<Action>, k: nat, action: Action): seq<Action>
    requires k <= |actions|
  {
    actions[..k] + [action] + actions[k..]
  }

  lemma InsertedParts(actions: seq<Action>, k: nat, action: Action)
    requires k <= |actions|
    ensures |Inserted(actions, k, action)| == |actions| + 1
    ensures k == |actions| ==> Inserted(actions, k, action) == actions + [action]
    ensures k < |actions| ==>
              && Inserted(actions, k, action)[..|actions|] == Inserted(actions[..|actions| - 1], k, action)
              && Inserted(actions, k, action)[|actions|] == actions[|actions| - 1]
              && actions[..|actions| - 1][..k] == actions[..k]
  {
    if k < |actions| {
      var n := |actions| - 1;
      assert actions[k..] == actions[..n][k..] + [actions[n]] && actions[..n][..k] == actions[..k];
      assert Inserted(actions, k, action) == Inserted(actions[..n], k, action) + [actions[n]];
    }
  }

  lemma InsertedItems(actions: seq<Action>, k: nat, action: Action)
    requires k <= |actions|
    ensures multiset(Inserted(actions, k, action)) == multiset(actions) + multiset{action}
  {
    assert actions == actions[..k] + actions[k..];
  }

  lemma ActKeepsClaims(db: Db, action: Action)
    ensures Act(db, action).claims
            == if action.Delivery? && Commits(db, action.event) then db.claims + {action.event.id} else db.claims
  {
    hide Handle, PartyMoved, SessionTaken, ListingTaken, Storable;
    if action.Delivery? { HandlersKeepClaims(Claiming(db, action.event.id), action.event.payload); }
  }

  /** A claim on another event changes nothing about what an action does. */
  lemma ClaimCommutes(db: Db, id: EventId, action: Action)
    requires !OneOf(action, {id})
    ensures Act(Claiming(db, id), action) == Claiming(Act(db, action), id)
    ensures action.Delivery? ==> (Commits(Claiming(db, id), action.event) <==> Commits(db, action.event))
  {
    hide Handle, PartyMoved, Storable;
    if action.Delivery? {
      var other := action.event.id;
      assert Claiming(Claiming(db, id), other) == Claiming(Claiming(db, other), id);
      ClaimsDoNotMatter(Claiming(db, other), id, action.event.payload);
    }
  }

  lemma MissIsAClaim(db: Db, event: Event)
    requires Misses(db, event.payload) && event.id !in db.claims
    ensures Commits(db, event) && Act(db, Delivery(event)) == Claiming(db, event.id)
  {
    hide Find, Decide;
    ClaimsDoNotMatter(db, event.id, event.payload);
  }

  lemma {:induction false} DeliveredIsClaimed(actions: seq<Action>, event: Event)
    requires EachCommits(actions) && Delivery(event) in actions
    ensures event.id in Run(actions).claims
    decreases |actions|
  {
    var n := |actions| - 1;
    ActKeepsClaims(Run(actions[..n]), actions[n]);
    if actions[n] == Delivery(event) {
    } else {
      DeliveredIsClaimed(actions[..n], event);
    }
  }

  lemma {:induction false} ClaimsGrow(actions: seq<Action>, k: nat)
    requires k <= |actions|
    ensures Run(actions[..k]).claims <= Run(actions).claims
    decreases |actions|
  {
    if k == |actions| {
      assert actions[..k] == actions;
    } else {
      var n := |actions| - 1;
      ClaimsGrow(actions[..n], k);
      assert actions[..n][..k] == actions[..k];
      ActKeepsClaims(Run(actions[..n]), actions[n]);
    }
  }

  /** A delivery that found no order fits in where it looked, and changes nothing else. */
  lemma {:induction false} MissFitsIn(actions: seq<Action>, k: nat, event: Event, events: set<EventId>)
    requires EachCommits(actions) && MissesAt(actions, k, event.payload) && event.id !in Run(actions).claims
    requires event.id in events
    ensures var more := Inserted(actions, k, Delivery(event));
            && Run(more) == Claiming(Run(actions), event.id) && EachCommits(more)
            && Without(more, events) == Without(actions, events)
    decreases |actions|
  {
    var more := Inserted(actions, k, Delivery(event));
    var n := |actions|;
    InsertedParts(actions, k, Delivery(event));
    ClaimsGrow(actions, k);
    hide Misses, Commits, Act, Inserted;
    if k == n {
      assert more[..n] == actions && actions[..k] == actions;
      MissIsAClaim(Run(actions), event);
    } else {
      var before := Run(actions[..n - 1]);
      ActKeepsClaims(before, actions[n - 1]);
      MissFitsIn(actions[..n - 1], k, event, events);
      assert !OneOf(actions[n - 1], {event.id});
      ClaimCommutes(before, event.id, actions[n - 1]);
    }
  }

  /** Where another event missed, it still misses. */
  lemma MissSurvivesInsertion(actions: seq<Action>, k: nat, event: Event, at: nat, e: Payload)
    requires EachCommits(actions) && MissesAt(actions, k, event.payload) && event.id !in Run(actions).claims
    requires MissesAt(actions, at, e)
    ensures exists j :: MissesAt(Inserted(actions, k, Delivery(event)), j, e)
  {
    var more := Inserted(actions, k, Delivery(event));
    if at <= k {
      assert more[..at] == actions[..at];
      assert MissesAt(more, at, e);
    } else {
      assert more[..at + 1] == Inserted(actions[..at], k, Delivery(event));
      PrefixCommits(actions, at);
      ClaimsGrow(actions, at);
      assert actions[..at][..k] == actions[..k];
      MissFitsIn(actions[..at], k, event, {event.id});
      ClaimsDoNotMatter(Run(actions[..at]), event.id, e);
      hide Run, Inserted, Find;
      assert MissesAt(more, at + 1, e);
    }
  }

  lemma {:induction false} PrefixCommits(actions: seq<Action>, k: nat)
    requires EachCommits(actions) && k <= |actions|
    ensures EachCommits(actions[..k])
    decreases |actions|
  {
    if k == |actions| {
      assert actions[..k] == actions;
    } else {
      PrefixCommits(actions[..|actions| - 1], k);
      assert actions[..|actions| - 1][..k] == actions[..k];
    }
  }

  lemma {:induction false} WithoutNew(actions: seq<Action>, events: set<EventId>, id: EventId)
    requires forall k :: 0 <= k < |actions| ==> !OneOf(actions[k], {id})
    ensures Without(actions, events + {id}) == Without(actions, events)
    decreases |actions|
  {
    if |actions| == 0 {
    } else {
      var n := |actions| - 1;
      WithoutNew(actions[..n], events, id);
      assert !OneOf(actions[n], {id});
    }
  }

  lemma MissedCommit(s: State, t: TxId, serial: seq<Action>) returns (longer: seq<Action>)
    requires StateOk(s) && Can(s, Commit(t)) && s.txs[t].phase.Missed? && Explains(s, serial)
    ensures Explains(Do(s, Commit(t)), longer)
  {
    var event := s.txs[t].event;
    assert TxOk(s.db, s.txs[t]);
    var k: nat :| MissesAt(serial, k, event.payload);
    longer := Inserted(serial, k, Delivery(event));
    var after := Do(s, Commit(t));
    MissFitsIn(serial, k, event, after.misses);
    InsertedItems(serial, k, Delivery(event));
    NeverDelivered(serial, s.commits, event);
    WithoutNew(serial, s.misses, event.id);
    WithoutNew(s.commits, s.misses, event.id);
    assert after.commits[..|s.commits|] == s.commits;
    hide Run, EachCommits, MissesAt, Inserted, StateOk, TxOk;
    forall u | u in after.txs && after.txs[u].phase.Missed?
      ensures exists j :: MissesAt(longer, j, after.txs[u].event.payload)
    {
      var at: nat :| MissesAt(serial, at, s.txs[u].event.payload);
      MissSurvivesInsertion(serial, k, event, at, s.txs[u].event.payload);
    }
  }

  lemma NeverDelivered(serial: seq<Action>, commits: seq<Action>, event: Event)
    requires EachCommits(serial) && multiset(serial) == multiset(commits) && event.id !in Run(serial).claims
    ensures forall k :: 0 <= k < |serial| ==> !OneOf(serial[k], {event.id})
    ensures forall k :: 0 <= k < |commits| ==> !OneOf(commits[k], {event.id})
  {
    forall k | 0 <= k < |serial| ensures !OneOf(serial[k], {event.id}) {
      if serial[k].Delivery? { DeliveredIsClaimed(serial, serial[k].event); }
    }
    forall k | 0 <= k < |commits| ensures !OneOf(commits[k], {event.id}) {
      assert commits[k] in multiset(serial);
      if commits[k].Delivery? { DeliveredIsClaimed(serial, commits[k].event); }
    }
  }

  /** What commits as it stands goes to the end. */
  lemma AppendedExplains(s: State, after: State, serial: seq<Action>, action: Action)
    requires Explains(s, serial) && after.db == Act(s.db, action) && after.commits == s.commits + [action]
    requires after.misses == s.misses && !OneOf(action, s.misses)
    requires action.Delivery? ==> Commits(s.db, action.event)
    requires forall t :: t in after.txs && after.txs[t].phase.Missed? ==> t in s.txs && after.txs[t] == s.txs[t]
    ensures Explains(after, serial + [action])
  {
    var longer := serial + [action];
    RunGrows(serial, action);
    assert longer[..|serial|] == serial && after.commits[..|s.commits|] == s.commits;
    hide Run, Act, Commits, Misses;
    forall t | t in after.txs && after.txs[t].phase.Missed?
      ensures exists k :: MissesAt(longer, k, after.txs[t].event.payload)
    {
      var k: nat :| MissesAt(serial, k, s.txs[t].event.payload);
      assert longer[..k] == serial[..k];
      assert MissesAt(longer, k, after.txs[t].event.payload);
    }
  }

  lemma LookExplains(s: State, t: TxId, serial: seq<Action>)
    requires StateOk(s) && Can(s, Look(t)) && Explains(s, serial)
    ensures Explains(Do(s, Look(t)), serial)
  {
    hide StateOk, Find, EachCommits, Without, Run;
    assert serial[..|serial|] == serial;
    if Looked(s.db, s.txs[t]).phase.Missed? { assert MissesAt(serial, |serial|, s.txs[t].event.payload); }
    hide MissesAt;
  }

  lemma StepExplains(s: State, step: Step, serial: seq<Action>) returns (longer: seq<Action>)
    requires StateOk(s) && Can(s, step) && Explains(s, serial)
    ensures Explains(Do(s, step), longer)
  {
    hide StateOk, EachCommits, Without, Run, MissesAt, Find, Act, Settles, PartyCan;
    longer := serial;
    match step {
      case Claim(t, event) =>
      case Look(t) => LookExplains(s, t, serial);
      case Lock(t) =>
      case Settle(t) =>
      case Commit(t) =>
        if s.txs[t].phase.Missed? {
          longer := MissedCommit(s, t, serial);
        } else {
          CommitDelivers(s, t);
          NewToAll(s, t);
          hide Do;
          CommitFacts(s, t);
          AppendedExplains(s, Do(s, step), serial, Delivery(s.txs[t].event));
          longer := serial + [Delivery(s.txs[t].event)];
        }
      case Rollback(t) =>
      case Party(action) =>
        NotADelivery(s, action);
        AppendedExplains(s, Do(s, step), serial, action);
        longer := serial + [action];
    }
  }

  lemma NewToAll(s: State, t: TxId)
    requires StateOk(s) && t in s.txs
    ensures s.txs[t].event.id !in s.misses
  {
    assert TxOk(s.db, s.txs[t]);
  }

  lemma NotADelivery(s: State, action: Action)
    requires PartyCan(s, action)
    ensures !action.Delivery?
  {
  }

  lemma CommitFacts(s: State, t: TxId)
    requires Can(s, Commit(t)) && !s.txs[t].phase.Missed?
    ensures var after := Do(s, Commit(t));
            after.commits == s.commits + [Delivery(s.txs[t].event)] && after.misses == s.misses
              && after.txs == s.txs - {t}
  {
  }

  lemma {:induction false} Serialize(steps: seq<Step>) returns (serial: seq<Action>)
    requires Possible(steps)
    ensures Explains(After(steps), serial)
    decreases |steps|
  {
    if |steps| == 0 {
      serial := [];
    } else {
      serial := Serialize(steps[..|steps| - 1]);
      EveryStateIsOk(steps[..|steps| - 1]);
      hide StateOk, Explains, Do, Can;
      serial := StepExplains(After(steps[..|steps| - 1]), steps[|steps| - 1], serial);
    }
  }

  /**
   * Every interleaving of every number of deliveries and parties leaves the tables as some serial
   * order of what has committed does; in it every delivery commits when its turn comes, and only
   * deliveries that found no order stand anywhere but in their place among the commits.
   */
  lemma EveryInterleavingIsSerial(steps: seq<Step>)
    requires Possible(steps)
    ensures exists serial :: SerialOrder(After(steps), serial)
  {
    hide SerialOrder, Possible, After;
    var serial := Serialize(steps);
    assert SerialOrder(After(steps), serial);
  }

  /** So what holds in every run holds under every interleaving; here, which refunds count. */
  lemma RefundsUnderEveryInterleaving(steps: seq<Step>)
    requires Possible(steps)
    ensures exists serial ::
              && SerialOrder(After(steps), serial)
              && forall id :: id in After(steps).db.orders ==>
                   (After(steps).db.orders[id].status == Refunded <==> SomeRefundCommits(serial, id))
  {
    hide Possible, After, SomeRefundCommits;
    var serial := Serialize(steps);
    forall id
      ensures id in Run(serial).orders && Run(serial).orders[id].status == Refunded <==> SomeRefundCommits(serial, id)
    {
      RefundedIff(serial, id);
    }
    hide Run, EachCommits, Without;
    assert SerialOrder(After(steps), serial);
  }

  /** And a listing is sold exactly when some order for it has been paid for. */
  lemma SoldUnderEveryInterleaving(steps: seq<Step>, listing: ListingId)
    requires Possible(steps)
    ensures listing in After(steps).db.sold
            <==> exists id :: && id in After(steps).db.orders && After(steps).db.orders[id].listing == Some(listing)
                              && After(steps).db.orders[id].paymentIntent.Some?
  {
    hide Possible, After, Run, EachCommits, Without, MissesAt;
    var serial := Serialize(steps);
    SoldIff(serial, listing);
  }

  // ------------------------------------------------------------------ //
  // Exactly once, and never stuck
  // ------------------------------------------------------------------ //

  predicate Delivered(commits: seq<Action>, id: EventId) {
    exists k :: 0 <= k < |commits| && OneOf(commits[k], {id})
  }

  predicate NoneTwice(commits: seq<Action>) {
    forall j, k :: 0 <= j < k < |commits| && commits[j].Delivery? && commits[k].Delivery? ==>
      commits[j].event.id != commits[k].event.id
  }

  ghost predicate DeliveredOnce(commits: seq<Action>, claims: set<EventId>) {
    NoneTwice(commits) && forall id :: id in claims <==> Delivered(commits, id)
  }

  lemma DeliveredGrows(commits: seq<Action>, action: Action, id: EventId)
    ensures Delivered(commits + [action], id) <==> Delivered(commits, id) || OneOf(action, {id})
  {
    var more := commits + [action];
    if k :| 0 <= k < |commits| && OneOf(commits[k], {id}) { assert OneOf(more[k], {id}); }
    if OneOf(action, {id}) { assert OneOf(more[|commits|], {id}); }
  }

  lemma OneMore(commits: seq<Action>, claims: set<EventId>, action: Action)
    requires DeliveredOnce(commits, claims) && (action.Delivery? ==> action.event.id !in claims)
    ensures DeliveredOnce(commits + [action], if action.Delivery? then claims + {action.event.id} else claims)
  {
    forall id ensures Delivered(commits + [action], id) <==> Delivered(commits, id) || OneOf(action, {id}) {
      DeliveredGrows(commits, action, id);
    }
    assert NoneTwice(commits + [action]) by {
      forall k | 0 <= k < |commits| && commits[k].Delivery? ensures commits[k].event.id in claims {
        assert OneOf(commits[k], {commits[k].event.id}) && Delivered(commits, commits[k].event.id);
      }
      hide Delivered;
    }
    hide Delivered, NoneTwice;
  }

  /**
   * At-least-once delivery has the effect of exactly-once: an event is claimed exactly when one
   * delivery of it has committed, never two, and no second one is under way.
   */
  lemma {:induction false} ExactlyOnce(steps: seq<Step>)
    requires Possible(steps)
    ensures DeliveredOnce(After(steps).commits, After(steps).db.claims)
    ensures forall t :: t in After(steps).txs ==> After(steps).txs[t].event.id !in After(steps).db.claims
    ensures forall t, u :: t in After(steps).txs && u in After(steps).txs && t != u ==>
              After(steps).txs[t].event.id != After(steps).txs[u].event.id
    decreases |steps|
  {
    EveryStateIsOk(steps);
    if |steps| == 0 {
    } else {
      var s, step := After(steps[..|steps| - 1]), steps[|steps| - 1];
      ExactlyOnce(steps[..|steps| - 1]);
      EveryStateIsOk(steps[..|steps| - 1]);
      if step.Commit? {
        OneMore(s.commits, s.db.claims, Delivery(s.txs[step.t].event));
        WrittenKeepsClaims(s.db, s.txs[step.t]);
      } else if step.Party? {
        PartyKeepsClaims(s.db, step.action);
        OneMore(s.commits, s.db.claims, step.action);
      }
      hide DeliveredOnce, Delivered, NoneTwice, Act, Written, Inv, Looked, Settled, Find, Settles;
    }
    hide TxOk, Apart, DeliveredOnce;
    ClaimsApart(After(steps));
  }

  lemma ClaimsApart(s: State)
    requires StateOk(s)
    ensures forall t :: t in s.txs ==> s.txs[t].event.id !in s.db.claims
    ensures forall t, u :: t in s.txs && u in s.txs && t != u ==> s.txs[t].event.id != s.txs[u].event.id
  {
    hide Inv;
    forall t, u | t in s.txs && u in s.txs && t != u ensures s.txs[t].event.id != s.txs[u].event.id {
      assert Apart(s.txs[t], s.txs[u]);
    }
  }

  lemma WrittenKeepsClaims(db: Db, tx: Tx)
    ensures Written(db, tx).claims == db.claims
  {
  }

  /** The next statement fails as things stand: a rejected key, or a value or an index the row would break. */
  predicate MustThrow(s: State, tx: Tx) {
    || (tx.phase.Claimed? && Find(s.db, tx.event.payload) == BadKey)
    || (tx.phase.Locked? && Concerns(tx.event.payload)
        && var d := Decide(tx.phase.row, tx.event.payload); d == Fail || Clashes(s.db, tx.phase.id, d))
  }

  /** The waits never close a circle: while deliveries are open, one of them can go on, or is about to throw. */
  lemma NeverDeadlocked(steps: seq<Step>)
    requires Possible(steps) && After(steps).txs != map[]
    ensures exists t :: t in After(steps).txs
                        && (MustThrow(After(steps), After(steps).txs[t])
                            || Can(After(steps), Look(t)) || Can(After(steps), Lock(t))
                            || Can(After(steps), Settle(t)) || Can(After(steps), Commit(t)))
  {
    EveryStateIsOk(steps);
    SomebodyCanGoOn(After(steps));
  }

  lemma SomebodyCanGoOn(s: State)
    requires StateOk(s) && s.txs != map[]
    ensures exists t :: t in s.txs && (MustThrow(s, s.txs[t]) || Can(s, Look(t)) || Can(s, Lock(t))
              || Can(s, Settle(t)) || Can(s, Commit(t)))
  {
    hide Inv, Decide, Clashes;
    var first :| first in s.txs;
    if t :| t in s.txs && s.txs[t].phase.Decided? {
      assert Can(s, Commit(t));
    } else if t :| t in s.txs && s.txs[t].phase.Locked? {
      assert TxOk(s.db, s.txs[t]);
      assert MustThrow(s, s.txs[t]) || Can(s, Settle(t));
    } else {
      assert TxOk(s.db, s.txs[first]);
      assert MustThrow(s, s.txs[first]) || Can(s, Look(first)) || Can(s, Lock(first)) || Can(s, Commit(first));
    }
  }

  // ------------------------------------------------------------------ //
  // A run whose commits do not explain it
  // ------------------------------------------------------------------ //

  lemma OneStepOn(steps: seq<Step>, s: State, step: Step, next: State) returns (longer: seq<Step>)
    requires Possible(steps) && After(steps) == s && Can(s, step) && Do(s, step) == next
    ensures longer == steps + [step] && Possible(longer) && After(longer) == next
  {
    longer := steps + [step];
    assert longer[..|steps|] == steps;
  }

  const RACE: seq<Step> :=
    [Party(Open(ORDER, None)), Claim(1, PAYMENT), Claim(2, REFUND), Look(2), Look(1), Lock(1), Settle(1), Commit(1),
      Commit(2)]

  const BEFORE := EMPTY.(orders := map[ORDER := OPENED])

  function Racing(payment: Phase, refund: Phase): State {
    State(BEFORE, map[1 := Tx(PAYMENT, payment), 2 := Tx(REFUND, refund)], [Open(ORDER, None)], {})
  }

  lemma RaceBegins(ready: State, alone: State)
    requires ready == State(BEFORE, map[], [Open(ORDER, None)], {})
    requires alone == ready.(txs := map[1 := Tx(PAYMENT, Claimed)])
    ensures Can(START, Party(Open(ORDER, None))) && Do(START, Party(Open(ORDER, None))) == ready
    ensures Can(ready, Claim(1, PAYMENT)) && Do(ready, Claim(1, PAYMENT)) == alone
    ensures Can(alone, Claim(2, REFUND)) && Do(alone, Claim(2, REFUND)) == Racing(Claimed, Claimed)
  {
    hide Zeros;
    assert Act(EMPTY, Open(ORDER, None)) == BEFORE;
    assert BEFORE != EMPTY by { assert ORDER in BEFORE.orders; }
  }

  lemma PaymentGoesOn()
    ensures Can(Racing(Claimed, Claimed), Look(2)) && Do(Racing(Claimed, Claimed), Look(2)) == Racing(Claimed, Missed)
    ensures Can(Racing(Claimed, Missed), Look(1))
    ensures Do(Racing(Claimed, Missed), Look(1)) == Racing(Found(ORDER), Missed)
    ensures Can(Racing(Found(ORDER), Missed), Lock(1))
    ensures Do(Racing(Found(ORDER), Missed), Lock(1)) == Racing(Locked(ORDER, OPENED), Missed)
  {
    hide Zeros, Find, Act, Decide, Clashes, ParseUuid, Deliver;
    PaymentOf(BEFORE);
    RefundOf(BEFORE);
  }

  lemma PaymentSettles()
    ensures Can(Racing(Locked(ORDER, OPENED), Missed), Settle(1))
    ensures Do(Racing(Locked(ORDER, OPENED), Missed), Settle(1))
              == Racing(Decided(ORDER, Write(PAID, OrderPaid)), Missed)
  {
    hide Zeros, Find, Act, Decide, Clashes, ParseUuid, Deliver;
    PaymentOf(BEFORE);
    MovesOfThese();
  }

  lemma RaceEnds(s: State, paid: State)
    requires s == Racing(Decided(ORDER, Write(PAID, OrderPaid)), Missed)
    requires paid == State(Claiming(Apply(BEFORE, ORDER, Write(PAID, OrderPaid)), PAYMENT.id),
               map[2 := Tx(REFUND, Missed)],
                           [Open(ORDER, None), Delivery(PAYMENT)], {})
    ensures Can(s, Commit(1)) && Do(s, Commit(1)) == paid
    ensures Can(paid, Commit(2))
    ensures Do(paid, Commit(2)) == State(Claiming(paid.db, REFUND.id), map[],
                                         [Open(ORDER, None), Delivery(PAYMENT), Delivery(REFUND)], {REFUND.id})
    ensures paid.db.orders == map[ORDER := PAID]
  {
    hide Zeros;
    assert s.txs - {1} == map[2 := Tx(REFUND, Missed)];
    assert paid.txs - {2} == map[];
    assert [Open(ORDER, None)] + [Delivery(PAYMENT)] == paid.commits;
    assert paid.commits + [Delivery(REFUND)] == [Open(ORDER, None), Delivery(PAYMENT), Delivery(REFUND)];
    assert map[ORDER := OPENED][ORDER := PAID] == map[ORDER := PAID];
  }

  /**
   * The refund looks up before the payment commits, finds nothing, and commits after it: the order
   * stays paid, where the same two deliveries in the order of their commits would have refunded it.
   */
  lemma OvertakenByThePayment()
    ensures Possible(RACE)
    ensures After(RACE).commits == [Open(ORDER, None), Delivery(PAYMENT), Delivery(REFUND)]
    ensures After(RACE).db.orders == map[ORDER := PAID]
    ensures Run(After(RACE).commits).orders == map[ORDER := REFUNDED]
  {
    hide Zeros, Apply, Run, Do, Can;
    OvertakingRefundIsLost();
    var ready := State(BEFORE, map[], [Open(ORDER, None)], {});
    var alone := ready.(txs := map[1 := Tx(PAYMENT, Claimed)]);
    var settled := Racing(Decided(ORDER, Write(PAID, OrderPaid)), Missed);
    var paid := State(Claiming(Apply(BEFORE, ORDER, Write(PAID, OrderPaid)), PAYMENT.id), map[2 := Tx(REFUND, Missed)],
                      [Open(ORDER, None), Delivery(PAYMENT)], {});
    RaceBegins(ready, alone);
    PaymentGoesOn();
    PaymentSettles();
    RaceEnds(settled, paid);
    hide Racing;
    var steps := OneStepOn([], START, Party(Open(ORDER, None)), ready);
    steps := OneStepOn(steps, ready, Claim(1, PAYMENT), alone);
    steps := OneStepOn(steps, alone, Claim(2, REFUND), Racing(Claimed, Claimed));
    steps := OneStepOn(steps, Racing(Claimed, Claimed), Look(2), Racing(Claimed, Missed));
    steps := OneStepOn(steps, Racing(Claimed, Missed), Look(1), Racing(Found(ORDER), Missed));
    steps := OneStepOn(steps, Racing(Found(ORDER), Missed), Lock(1), Racing(Locked(ORDER, OPENED), Missed));
    steps := OneStepOn(steps, Racing(Locked(ORDER, OPENED), Missed), Settle(1), settled);
    steps := OneStepOn(steps, settled, Commit(1), paid);
    steps := OneStepOn(steps, paid, Commit(2), Do(paid, Commit(2)));
    assert steps == RACE;
  }
}
