/**
 * Holding a new seller's payouts and letting them go: onboarding (apps/api/src/routes/seller.ts,
 * packages/db/src/queries/sellers.ts), the rule (packages/core/src/payouts.ts), the job that
 * completes delivered orders (packages/db/src/jobs.ts) and the job that releases holds
 * (apps/api/src/job-release-payouts.ts), with crashes, lost replies and concurrent jobs.
 */
module Payouts {
  import opened Wrappers
  import opened Orders

  const DAY_MS: int := 86_400_000
  const HOLD_RELEASE_AFTER_ORDERS: nat := 3
  const HOLD_RELEASE_AFTER_DAYS: int := 7
  const AUTO_COMPLETE_AFTER_DAYS: int := 7

  // ------------------------------------------------------------------ //
  // The rule
  // ------------------------------------------------------------------ //

  datatype HoldStatus = HoldStatus(completedOrders: nat, firstCompletedAt: Option<int>)

  datatype HoldDecision = Release | NoCompletedOrders | TooFewOrders | TooSoon

  function CanReleaseHold(status: HoldStatus, now: int): HoldDecision {
    if status.firstCompletedAt == None || status.completedOrders == 0 then NoCompletedOrders
    else if status.completedOrders < HOLD_RELEASE_AFTER_ORDERS then TooFewOrders
    else if now - status.firstCompletedAt.value < HOLD_RELEASE_AFTER_DAYS * DAY_MS then TooSoon
    else Release
  }

  // ------------------------------------------------------------------ //
  // Orders and their timestamps
  // ------------------------------------------------------------------ //

  type OrderId = string
  type SellerId = string

  /** `tracked`: both tracking columns are set. */
  datatype OrderRow = OrderRow(
    seller: SellerId, status: OrderStatus, tracked: bool,
    paidAt: Option<int>, shippedAt: Option<int>, deliveredAt: Option<int>, completedAt: Option<int>)

  type OrderTable = map<OrderId, OrderRow>

  function NewRow(seller: SellerId): OrderRow {
    OrderRow(seller, Created, false, None, None, None, None)
  }

  datatype MoveError = Illegal(error: IllegalTransition) | Untracked

  /** A transition and the columns each write sets with it; the database refuses a shipment nobody can follow. */
  function MoveAt(row: OrderRow, to: OrderStatus, actor: OrderActor, now: int): Result<OrderRow, MoveError> {
    match Transition(row.status, to, actor)
    case Err(e) => Err(Illegal(e))
    case Ok(next) =>
      var tracked := row.tracked || to == Shipped;
      if next in {Shipped, Delivered, Completed} && !tracked then Err(Untracked)
      else Ok(row.(
        status := next,
        tracked := tracked,
        paidAt := if to == Paid then Some(now) else row.paidAt,
        shippedAt := if to == Shipped then Some(now) else row.shippedAt,
        deliveredAt := if to == Delivered then Some(now) else row.deliveredAt,
        completedAt := if to == Completed then Some(now) else row.completedAt))
  }

  predicate ReadyToComplete(row: OrderRow, now: int) {
    row.status == Delivered && row.deliveredAt.Some? && row.deliveredAt.value <= now - AUTO_COMPLETE_AFTER_DAYS * DAY_MS
  }

  predicate Completable(row: OrderRow) {
    row.status == Delivered && row.tracked
  }

  class OrderBook {
    var orders: OrderTable

    constructor (orders: OrderTable)
      ensures this.orders == orders
    {
      this.orders := orders;
    }

    /** The clock as actor: one order failing does not stop the rest. */
    method CompleteDeliveredJob(ready: seq<OrderId>, now: int) returns (completed: nat, skipped: seq<OrderId>)
      requires forall i, j :: 0 <= i < j < |ready| ==> ready[i] != ready[j]
      modifies this
      ensures orders.Keys == old(orders).Keys
      ensures forall id :: id in old(orders) ==>
                orders[id] == if id in ready && Completable(old(orders)[id])
                              then old(orders)[id].(status := Completed, completedAt := Some(now))
                              else old(orders)[id]
      ensures completed + |skipped| == |ready|
      ensures forall id :: id in skipped ==> id in ready && (id in old(orders) ==> !Completable(old(orders)[id]))
    {
      completed, skipped := 0, [];
      for i := 0 to |ready|
        invariant orders.Keys == old(orders).Keys
        invariant forall id :: id in old(orders) ==>
                    orders[id] == if id in ready[..i] && Completable(old(orders)[id])
                                  then old(orders)[id].(status := Completed, completedAt := Some(now))
                                  else old(orders)[id]
        invariant completed + |skipped| == i
        invariant forall id :: id in skipped ==>
                    id in ready[..i] && (id in old(orders) ==> !Completable(old(orders)[id]))
      {
        var id := ready[i];
        assert ready[..i + 1] == ready[..i] + [id];
        if id !in orders {
          skipped := skipped + [id];
        } else {
          SystemCompletesOnlyDelivered(orders[id], now);
          var moved := MoveAt(orders[id], Completed, System, now);
          if moved.Ok? {
            orders := orders[id := moved.value];
            completed := completed + 1;
          } else {
            skipped := skipped + [id];
          }
        }
      }
      assert ready[..|ready|] == ready;
    }
  }

  lemma SystemCompletesOnlyDelivered(row: OrderRow, now: int)
    ensures MoveAt(row, Completed, System, now).Ok? <==> Completable(row)
    ensures Completable(row) ==>
              MoveAt(row, Completed, System, now) == Ok(row.(status := Completed, completedAt := Some(now)))
  {
  }

  // ------------------------------------------------------------------ //
  // The release job
  // ------------------------------------------------------------------ //

  datatype Schedule = Manual | Daily

  /** Stripe's payout schedule, and whether the row still says held. */
  datatype Account = Account(schedule: Schedule, held: bool)

  datatype HeldSeller = HeldSeller(seller: SellerId, status: HoldStatus)

  /** How one seller's writes go: the schedule at Stripe, the row, the audit entry. */
  datatype Fate = Fine | StripeFails(reached: bool) | RowFails | AuditFails

  /** One seller: Stripe first, then the row; anything thrown in between leaves the row held. */
  function ReleaseOne(account: Account, fate: Fate): Account {
    match fate
    case StripeFails(reached) => if reached then account.(schedule := Daily) else account
    case RowFails => account.(schedule := Daily)
    case AuditFails => Account(Daily, false)
    case Fine => Account(Daily, false)
  }

  /** The accounts after the first n sellers of the list. */
  function ReleaseFirst(accounts: map<SellerId, Account>, listed: seq<HeldSeller>, now: int, fates: seq<Fate>, n: nat)
    : map<SellerId, Account>
    requires n <= |listed| == |fates|
  {
    if n == 0 then accounts
    else
      var before := ReleaseFirst(accounts, listed, now, fates, n - 1);
      var seller := listed[n - 1].seller;
      if CanReleaseHold(listed[n - 1].status, now) != Release || seller !in before then before
      else before[seller := ReleaseOne(before[seller], fates[n - 1])]
  }

  /** How many of the first n are counted as released: earned, and every write went through. */
  function ReleasedFirst(accounts: map<SellerId, Account>, listed: seq<HeldSeller>, now: int, fates: seq<Fate>,
          n: nat): nat
    requires n <= |listed| == |fates|
  {
    if n == 0 then 0
    else
      ReleasedFirst(accounts, listed, now, fates, n - 1)
      + (if CanReleaseHold(listed[n - 1].status, now) == Release && listed[n - 1].seller in accounts
        && fates[n - 1] == Fine
         then 1 else 0)
  }

  /** The rule: three completed orders, the first of them a week ago. */
  predicate HoldEarned(status: HoldStatus, now: int) {
    status.completedOrders >= 3 && status.firstCompletedAt.Some? && status.firstCompletedAt.value <= now - 604_800_000
  }

  /** Why a hold is kept: nothing completed, too little, or too recently, in that order. */
  lemma HoldIsKeptIff(status: HoldStatus, now: int)
    ensures CanReleaseHold(status, now) == Release <==> HoldEarned(status, now)
    ensures CanReleaseHold(status, now) == NoCompletedOrders <==>
            status.completedOrders == 0 || status.firstCompletedAt == None
    ensures CanReleaseHold(status, now) == TooFewOrders <==>
            1 <= status.completedOrders <= 2 && status.firstCompletedAt.Some?
  {
  }

  /** The sellers among the first n who earned their release and whose writes all went through. */
  ghost function FullyReleased(accounts: map<SellerId, Account>, listed: seq<HeldSeller>, now: int, fates: seq<Fate>,
                               n: nat): set<nat>
    requires n <= |listed| == |fates|
  {
    set k: nat | k < n && listed[k].seller in accounts && fates[k] == Fine && HoldEarned(listed[k].status, now)
  }

  /** The count the job returns is of exactly those. */
  lemma {:induction false} ReleasedIsCounted(
      accounts: map<SellerId, Account>, listed: seq<HeldSeller>, now: int, fates: seq<Fate>, n: nat)
    requires n <= |listed| == |fates|
    ensures ReleasedFirst(accounts, listed, now, fates, n) == |FullyReleased(accounts, listed, now, fates, n)|
    decreases n
  {
    if n == 0 {
    } else {
      var before := FullyReleased(accounts, listed, now, fates, n - 1);
      ReleasedIsCounted(accounts, listed, now, fates, n - 1);
      assert CanReleaseHold(listed[n - 1].status, now) == Release <==> HoldEarned(listed[n - 1].status, now);
      assert FullyReleased(accounts, listed, now, fates, n)
          == if listed[n - 1].seller in accounts && fates[n - 1] == Fine && HoldEarned(listed[n - 1].status, now)
             then before + {n - 1} else before;
    }
  }

  class Platform {
    var accounts: map<SellerId, Account>

    constructor (accounts: map<SellerId, Account>)
      ensures this.accounts == accounts
    {
      this.accounts := accounts;
    }

    /** The whole job, or as much of it as ran before a crash: `stopAfter` sellers. */
    method ReleasePayouts(listed: seq<HeldSeller>, now: int, fates: seq<Fate>, stopAfter: nat) returns (released: nat)
      requires stopAfter <= |listed| == |fates|
      modifies this
      ensures accounts == ReleaseFirst(old(accounts), listed, now, fates, stopAfter)
      ensures released == ReleasedFirst(old(accounts), listed, now, fates, stopAfter)
    {
      hide CanReleaseHold;
      released := 0;
      for i := 0 to stopAfter
        invariant accounts == ReleaseFirst(old(accounts), listed, now, fates, i)
        invariant accounts.Keys == old(accounts).Keys
        invariant released == ReleasedFirst(old(accounts), listed, now, fates, i)
      {
        var seller := listed[i].seller;
        if CanReleaseHold(listed[i].status, now) != Release || seller !in accounts { continue; }
        var fate := fates[i];
        if fate != StripeFails(false) {
          accounts := accounts[seller := accounts[seller].(schedule := Daily)];
        }
        if fate == Fine || fate == AuditFails {
          accounts := accounts[seller := accounts[seller].(held := false)];
        }
        if fate == Fine { released := released + 1; }
      }
    }
  }

  lemma {:induction false} NotListedYet(
      accounts: map<SellerId, Account>, listed: seq<HeldSeller>, now: int, fates: seq<Fate>, n: nat, s: SellerId)
    requires n <= |listed| == |fates| && s in accounts && forall i :: 0 <= i < n ==> listed[i].seller != s
    ensures ReleaseFirst(accounts, listed, now, fates, n).Keys == accounts.Keys
    ensures ReleaseFirst(accounts, listed, now, fates, n)[s] == accounts[s]
    decreases n
  {
    if n == 0 {
    } else {
      hide CanReleaseHold, ReleaseOne;
      NotListedYet(accounts, listed, now, fates, n - 1, s);
    }
  }

  lemma {:induction false} JobReachesEach(
      accounts: map<SellerId, Account>, listed: seq<HeldSeller>, now: int, fates: seq<Fate>, n: nat, k: nat)
    requires k < n <= |listed| == |fates| && listed[k].seller in accounts
    requires forall i, j :: 0 <= i < j < |listed| ==> listed[i].seller != listed[j].seller
    ensures ReleaseFirst(accounts, listed, now, fates, n).Keys == accounts.Keys
    ensures var s := listed[k].seller;
            ReleaseFirst(accounts, listed, now, fates, n)[s]
            == if CanReleaseHold(listed[k].status, now) == Release
              then ReleaseOne(accounts[s], fates[k]) else accounts[s]
    decreases n
  {
    hide CanReleaseHold, ReleaseOne;
    if k == n - 1 {
      NotListedYet(accounts, listed, now, fates, n - 1, listed[k].seller);
    } else {
      JobReachesEach(accounts, listed, now, fates, n - 1, k);
    }
  }

  // ------------------------------------------------------------------ //
  // What the held-sellers query reads
  // ------------------------------------------------------------------ //

  function CompletedOrders(orders: OrderTable, seller: SellerId): set<OrderId> {
    set id | id in orders && orders[id].seller == seller && orders[id].status == Completed
  }

  /** The count of completed orders and the earliest completion. */
  ghost predicate StatusRead(orders: OrderTable, seller: SellerId, status: HoldStatus) {
    var done := CompletedOrders(orders, seller);
    && status.completedOrders == |done|
    && (status.firstCompletedAt.Some? ==>
          exists id :: id in done && orders[id].completedAt == status.firstCompletedAt)
    && (forall id :: id in done && orders[id].completedAt.Some? ==>
          status.firstCompletedAt.Some? && status.firstCompletedAt.value <= orders[id].completedAt.value)
  }

  lemma Earliest(ids: set<OrderId>, orders: OrderTable) returns (first: Option<int>)
    requires forall id :: id in ids ==> id in orders
    ensures first.Some? ==> exists id :: id in ids && orders[id].completedAt == first
    ensures forall id :: id in ids && orders[id].completedAt.Some? ==>
              first.Some? && first.value <= orders[id].completedAt.value
    decreases ids
  {
    if ids == {} {
      first := None;
    } else {
      var id :| id in ids;
      first := Earliest(ids - {id}, orders);
      var own := orders[id].completedAt;
      if own.Some? && (first == None || own.value < first.value) { first := own; }
    }
  }

  /** The query always has an answer. */
  lemma StatusExists(orders: OrderTable, seller: SellerId) returns (status: HoldStatus)
    ensures StatusRead(orders, seller, status)
  {
    var done := CompletedOrders(orders, seller);
    var first := Earliest(done, orders);
    status := HoldStatus(|done|, first);
  }

  /** Three orders completed at this moment, one of them for a week. */
  ghost predicate RuleMet(orders: OrderTable, seller: SellerId, now: int) {
    && |CompletedOrders(orders, seller)| >= 3
    && exists id :: id in CompletedOrders(orders, seller) && CompletedBy(orders[id], now - 604_800_000)
  }

  predicate CompletedBy(row: OrderRow, until: int) {
    row.completedAt.Some? && row.completedAt.value <= until
  }

  /** The rule answers for the orders as they are when the query runs, and nothing that came before. */
  lemma RuleReadsTheOrders(orders: OrderTable, seller: SellerId, status: HoldStatus, now: int)
    requires StatusRead(orders, seller, status)
    ensures CanReleaseHold(status, now) == Release <==> RuleMet(orders, seller, now)
  {
    var done := CompletedOrders(orders, seller);
    if status.firstCompletedAt.Some? {
      var id :| id in done && orders[id].completedAt == status.firstCompletedAt;
      assert CompletedBy(orders[id], status.firstCompletedAt.value);
      if RuleMet(orders, seller, now) {
        var old' :| old' in done && CompletedBy(orders[old'], now - 604_800_000);
        assert status.firstCompletedAt.value <= orders[old'].completedAt.value;
      }
    }
  }

  /**
   * A job that gets through to a seller releases them exactly when the rule is met by the orders it
   * read, whatever an interrupted job left behind; otherwise the account stays as that job left it.
   */
  lemma JobReleasesIff(
      orders: OrderTable, accounts: map<SellerId, Account>, listed: seq<HeldSeller>, now: int, fates: seq<Fate>, k: nat)
    requires k < |listed| == |fates| && listed[k].seller in accounts && accounts[listed[k].seller].held
    requires forall i, j :: 0 <= i < j < |listed| ==> listed[i].seller != listed[j].seller
    requires StatusRead(orders, listed[k].seller, listed[k].status)
    ensures var s := listed[k].seller;
            var after := ReleaseFirst(accounts, listed, now, fates, |listed|);
            && s in after
            && (after[s] == Account(Daily, false)
                <==> RuleMet(orders, s, now) && (fates[k] == Fine || fates[k] == AuditFails))
            && (!RuleMet(orders, s, now) ==> after[s] == accounts[s])
  {
    JobReachesEach(accounts, listed, now, fates, |listed|, k);
    RuleReadsTheOrders(orders, listed[k].seller, listed[k].status, now);
    hide RuleMet, CanReleaseHold, StatusRead, ReleaseFirst;
  }

  // ------------------------------------------------------------------ //
  // Everything together, step by step
  // ------------------------------------------------------------------ //

  /** Where one pass over one seller has got to; a crash or an error is the pass disappearing. */
  datatype Pass =
    | Listed(seller: SellerId, status: HoldStatus)
    | Chosen(seller: SellerId)
    | StripeDone(seller: SellerId)

  /** Where one onboarding request has got to: it saw no account; or one is recorded, and the hold is still to write. */
  datatype Onboarding = Started(seller: SellerId) | Recorded(seller: SellerId)

  datatype World = World(
    now: int,
    orders: OrderTable,
    ready: set<OrderId>,                  // listed by some completion job
    accounts: map<SellerId, Account>,
    passes: map<nat, Pass>,
    onboarding: map<nat, Onboarding>,
    written: set<SellerId>)               // sellers whose hold has ever been written

  /** Which orders an admin completes, and when: a rule the console might follow. */
  type Guard = (OrderRow, int) -> bool

  /** Time passes, orders open. */
  ghost predicate QuietStep(w: World, w': World) {
    || (w'.now >= w.now && w' == w.(now := w'.now))
    || (exists id, s :: id !in w.orders && w' == w.(orders := w.orders[id := NewRow(s)]))
  }

  /** Somebody moves an order; our own clock completes only what a job listed, an admin only what the guard allows. */
  ghost predicate OrderStep(w: World, w': World, id: OrderId, to: OrderStatus, actor: OrderActor, allowed: Guard) {
    && id in w.orders && MoveAt(w.orders[id], to, actor, w.now).Ok?
    && (to == Completed && actor == System ==> id in w.ready)
    && (to == Completed && actor == Admin ==> allowed(w.orders[id], w.now))
    && w' == w.(orders := w.orders[id := MoveAt(w.orders[id], to, actor, w.now).value])
  }

  ghost predicate ListStep(w: World, w': World, id: OrderId) {
    id in w.orders && ReadyToComplete(w.orders[id], w.now) && w' == w.(ready := w.ready + {id})
  }

  ghost predicate ReadStep(w: World, w': World, j: nat, seller: SellerId, status: HoldStatus) {
    && j !in w.passes && seller in w.accounts && w.accounts[seller].held && StatusRead(w.orders, seller, status)
    && w' == w.(passes := w.passes[j := Listed(seller, status)])
  }

  ghost predicate ChooseStep(w: World, w': World, j: nat) {
    && j in w.passes && w.passes[j].Listed? && CanReleaseHold(w.passes[j].status, w.now) == Release
    && w' == w.(passes := w.passes[j := Chosen(w.passes[j].seller)])
  }

  /** The request may take effect and go unheard; then the pass is over. */
  ghost predicate StripeStep(w: World, w': World, j: nat, reached: bool, heard: bool) {
    && j in w.passes && w.passes[j].Chosen? && (heard ==> reached) && w.passes[j].seller in w.accounts
    && var s := w.passes[j].seller;
       w' == w.(accounts := if reached then w.accounts[s := w.accounts[s].(schedule := Daily)] else w.accounts,
                passes := if heard then w.passes[j := StripeDone(s)] else w.passes - {j})
  }

  ghost predicate RowStep(w: World, w': World, j: nat) {
    && j in w.passes && w.passes[j].StripeDone? && w.passes[j].seller in w.accounts
    && var s := w.passes[j].seller;
       w' == w.(accounts := w.accounts[s := w.accounts[s].(held := false)], passes := w.passes - {j})
  }

  ghost predicate CrashStep(w: World, w': World, j: nat) {
    w' == w.(passes := w.passes - {j})
  }

  /** An onboarding request starts only for a person with no account row. */
  ghost predicate StartStep(w: World, w': World, r: nat, s: SellerId) {
    r !in w.onboarding && s !in w.accounts && w' == w.(onboarding := w.onboarding[r := Started(s)])
  }

  /**
   * Stripe's schedule has been made manual, and the row is inserted unless another request was first;
   * it does not say held. (Stripe replays the schedule change of a second request instead of making it.)
   */
  ghost predicate RecordStep(w: World, w': World, r: nat) {
    && r in w.onboarding && w.onboarding[r].Started?
    && var s := w.onboarding[r].seller;
       w' == w.(accounts := if s in w.accounts then w.accounts else w.accounts[s := Account(Manual, false)],
                onboarding := w.onboarding[r := Recorded(s)])
  }

  /** A later statement, on another connection, makes the row say held. */
  ghost predicate HoldStep(w: World, w': World, r: nat) {
    && r in w.onboarding && w.onboarding[r].Recorded? && w.onboarding[r].seller in w.accounts
    && var s := w.onboarding[r].seller;
       w' == w.(accounts := w.accounts[s := w.accounts[s].(held := true)],
                onboarding := w.onboarding - {r}, written := w.written + {s})
  }

  /** Or never does: a crash, an error, a deployment without the worker's connection. */
  ghost predicate AbandonStep(w: World, w': World, r: nat) {
    w' == w.(onboarding := w.onboarding - {r})
  }

  ghost predicate OnboardStep(w: World, w': World, r: nat) {
    (exists s :: StartStep(w, w', r, s)) || RecordStep(w, w', r) || HoldStep(w, w', r) || AbandonStep(w, w', r)
  }

  ghost predicate Step(w: World, w': World, allowed: Guard) {
    || QuietStep(w, w')
    || (exists r :: OnboardStep(w, w', r))
    || (exists id, to, actor :: OrderStep(w, w', id, to, actor, allowed))
    || (exists id :: ListStep(w, w', id))
    || (exists j, s, status :: ReadStep(w, w', j, s, status))
    || (exists j :: ChooseStep(w, w', j))
    || (exists j, reached, heard :: StripeStep(w, w', j, reached, heard))
    || (exists j :: RowStep(w, w', j))
    || (exists j :: CrashStep(w, w', j))
  }

  ghost predicate Initial(w: World) {
    && w.orders == map[] && w.ready == {} && w.passes == map[]
    && w.accounts == map[] && w.onboarding == map[] && w.written == {}
  }

  ghost predicate Run(trace: seq<World>, allowed: Guard) {
    |trace| > 0 && Initial(trace[0]) && forall k :: 0 <= k < |trace| - 1 ==> Step(trace[k], trace[k + 1], allowed)
  }

  ghost predicate Reachable(w: World, allowed: Guard) {
    exists trace: seq<World> :: Run(trace, allowed) && trace[|trace| - 1] == w
  }

  lemma ReachesNext(w: World, w': World, allowed: Guard)
    requires Reachable(w, allowed) && Step(w, w', allowed)
    ensures Reachable(w', allowed)
  {
    hide Step, Initial;
    var trace: seq<World> :| Run(trace, allowed) && trace[|trace| - 1] == w;
    var longer := trace + [w'];
    forall k | 0 <= k < |longer| - 1 ensures Step(longer[k], longer[k + 1], allowed) {
      assert k < |trace| - 1 ==> longer[k] == trace[k] && longer[k + 1] == trace[k + 1];
    }
    assert Run(longer, allowed);
  }

  lemma OnTheWay(trace: seq<World>, k: nat, allowed: Guard)
    requires Run(trace, allowed) && k < |trace|
    ensures Reachable(trace[k], allowed)
  {
    hide Step, Initial;
    assert Run(trace[..k + 1], allowed);
  }

  // ------------------------------------------------------------------ //
  // When a row says released while the schedule is manual
  // ------------------------------------------------------------------ //

  /** Before its hold was ever written an account is as it was recorded; after, not held means daily. */
  predicate HonestAccount(account: Account, written: bool) {
    if written then account.held || account.schedule == Daily else account == Account(Manual, false)
  }

  ghost predicate Honest(w: World) {
    && w.written <= w.accounts.Keys
    && (forall s :: s in w.accounts ==> HonestAccount(w.accounts[s], s in w.written))
    && (forall r :: r in w.onboarding && w.onboarding[r].Recorded? ==> w.onboarding[r].seller in w.accounts)
    && forall j :: j in w.passes ==>
         w.passes[j].seller in w.written
         && (w.passes[j].StripeDone? ==>
               w.passes[j].seller in w.accounts && w.accounts[w.passes[j].seller].schedule == Daily)
  }

  /** Honesty is about the accounts, the passes and the onboarding alone. */
  lemma OrdersDoNotMatter(w: World, w': World)
    requires Honest(w) && w'.accounts == w.accounts && w'.passes == w.passes
    requires w'.onboarding == w.onboarding && w'.written == w.written
    ensures Honest(w')
  {
  }

  lemma PassKeepsHonest(w: World, w': World, j: nat)
    requires Honest(w) && (ChooseStep(w, w', j) || RowStep(w, w', j) || CrashStep(w, w', j))
    ensures Honest(w')
  {
    hide CanReleaseHold;
  }

  lemma ReadKeepsHonest(w: World, w': World, j: nat, s: SellerId, status: HoldStatus)
    requires Honest(w) && ReadStep(w, w', j, s, status)
    ensures Honest(w')
  {
    hide StatusRead;
  }

  lemma StepKeepsHonest(w: World, w': World, allowed: Guard)
    requires Honest(w) && Step(w, w', allowed)
    ensures Honest(w')
  {
    hide MoveAt, StatusRead, CanReleaseHold, ReadyToComplete, OnboardStep, Honest, ChooseStep, ReadStep, StripeStep,
      RowStep, CrashStep;
    if r :| OnboardStep(w, w', r) {
      OnboardKeepsHonest(w, w', r);
    } else if j, s, status :| ReadStep(w, w', j, s, status) {
      ReadKeepsHonest(w, w', j, s, status);
    } else if j :| ChooseStep(w, w', j) || RowStep(w, w', j) || CrashStep(w, w', j) {
      PassKeepsHonest(w, w', j);
    } else if j, reached, heard :| StripeStep(w, w', j, reached, heard) {
      StripeStepIsHonest(w, w', j, reached, heard);
    } else {
      OrdersDoNotMatter(w, w');
    }
  }

  lemma OnboardKeepsHonest(w: World, w': World, r: nat)
    requires Honest(w) && OnboardStep(w, w', r)
    ensures Honest(w')
  {
  }

  lemma StripeStepIsHonest(w: World, w': World, j: nat, reached: bool, heard: bool)
    requires Honest(w) && StripeStep(w, w', j, reached, heard)
    ensures Honest(w')
  {
    if heard { assert w'.accounts[w.passes[j].seller].schedule == Daily; }
  }

  lemma {:induction false} EveryWorldIsHonest(trace: seq<World>, k: nat, allowed: Guard)
    requires Run(trace, allowed) && k < |trace|
    ensures Honest(trace[k])
  {
    hide Step, Honest;
    if k == 0 {
      StartsHonest(trace[0]);
    } else {
      EveryWorldIsHonest(trace, k - 1, allowed);
      StepKeepsHonest(trace[k - 1], trace[k], allowed);
    }
  }

  lemma StartsHonest(w: World)
    requires Initial(w)
    ensures Honest(w)
  {
  }

  /**
   * In every interleaving of requests and jobs, with crashes and lost replies anywhere, a row says
   * released while the schedule is manual exactly when its hold was never written.
   */
  lemma ReleasedWhileManualIff(trace: seq<World>, k: nat, s: SellerId, allowed: Guard)
    requires Run(trace, allowed) && k < |trace| && s in trace[k].accounts
    ensures !trace[k].accounts[s].held && trace[k].accounts[s].schedule == Manual <==> s !in trace[k].written
  {
    EveryWorldIsHonest(trace, k, allowed);
    hide Run;
  }

  /** Recorded, and nobody is going to write the hold. */
  ghost predicate Abandoned(w: World, s: SellerId) {
    s in w.accounts && s !in w.written && forall r :: r in w.onboarding ==> w.onboarding[r].seller != s
  }

  lemma OnlyOnboardingJoins(w: World, w': World, allowed: Guard)
    requires Step(w, w', allowed) && !exists r :: OnboardStep(w, w', r)
    ensures w'.onboarding == w.onboarding && w'.written == w.written && w'.accounts.Keys == w.accounts.Keys
  {
    hide MoveAt, StatusRead, CanReleaseHold, ReadyToComplete, OnboardStep;
  }

  lemma OnboardKeepsAbandoned(w: World, w': World, s: SellerId, r: nat)
    requires Abandoned(w, s) && OnboardStep(w, w', r)
    ensures Abandoned(w', s)
  {
  }

  lemma StepKeepsAbandoned(w: World, w': World, s: SellerId, allowed: Guard)
    requires Abandoned(w, s) && Step(w, w', allowed)
    ensures Abandoned(w', s)
  {
    hide Step, OnboardStep;
    if r :| OnboardStep(w, w', r) {
      OnboardKeepsAbandoned(w, w', s, r);
    } else {
      OnlyOnboardingJoins(w, w', allowed);
    }
  }

  /**
   * A request that ends between the two leaves its seller so for good: the next one finds the row and
   * writes no hold, no job lists them, and the row says released over a manual schedule.
   */
  lemma {:induction false} AbandonedForEver(trace: seq<World>, i: nat, j: nat, s: SellerId, allowed: Guard)
    requires Run(trace, allowed) && i <= j < |trace| && Abandoned(trace[i], s)
    ensures Abandoned(trace[j], s) && s in trace[j].accounts && trace[j].accounts[s] == Account(Manual, false)
    ensures forall p :: p in trace[j].passes ==> trace[j].passes[p].seller != s
    decreases j
  {
    hide Step, Abandoned, Honest, Initial;
    EveryWorldIsHonest(trace, j, allowed);
    if i == j {
    } else {
      AbandonedForEver(trace, i, j - 1, s, allowed);
      StepKeepsAbandoned(trace[j - 1], trace[j], s, allowed);
    }
    StaysAsRecorded(trace[j], s);
  }

  lemma StaysAsRecorded(w: World, s: SellerId)
    requires Honest(w) && Abandoned(w, s)
    ensures s in w.accounts && w.accounts[s] == Account(Manual, false)
    ensures forall p :: p in w.passes ==> w.passes[p].seller != s
  {
  }

  /** Such a run, with a seller joining and nothing else. */
  lemma CrashBeforeTheHold(seller: SellerId, allowed: Guard) returns (w: World)
    ensures Reachable(w, allowed) && Abandoned(w, seller)
  {
    var start := Bare(0);
    StartsAt(start, allowed);
    var w1 := start.(onboarding := map[0 := Started(seller)]);
    var w2 := w1.(accounts := map[seller := Account(Manual, false)], onboarding := map[0 := Recorded(seller)]);
    w := w2.(onboarding := map[]);
    assert StartStep(start, w1, 0, seller) && RecordStep(w1, w2, 0);
    assert w2.onboarding - {0} == map[];
    assert AbandonStep(w2, w, 0);
    assert OnboardStep(start, w1, 0) && OnboardStep(w1, w2, 0) && OnboardStep(w2, w, 0);
    hide Reachable, OnboardStep, QuietStep, OrderStep;
    ReachesNext(start, w1, allowed);
    ReachesNext(w1, w2, allowed);
    ReachesNext(w2, w, allowed);
  }

  /** Nothing has happened yet. */
  function Bare(now: int): World {
    World(now, map[], {}, map[], map[], map[], {})
  }

  lemma StartsAt(w: World, allowed: Guard)
    requires Initial(w)
    ensures Reachable(w, allowed)
  {
    assert Run([w], allowed);
  }

  /** Undisturbed, a seller joins held. */
  lemma SellerJoins(w: World, seller: SellerId, allowed: Guard)
    requires Reachable(w, allowed) && w.accounts == map[] && w.onboarding == map[] && w.written == {}
    ensures Reachable(w.(accounts := map[seller := Account(Manual, true)], written := {seller}), allowed)
  {
    var w1 := w.(onboarding := map[0 := Started(seller)]);
    var w2 := w1.(accounts := map[seller := Account(Manual, false)], onboarding := map[0 := Recorded(seller)]);
    var w3 := w.(accounts := map[seller := Account(Manual, true)], written := {seller});
    assert StartStep(w, w1, 0, seller) && RecordStep(w1, w2, 0);
    assert w2.onboarding - {0} == map[];
    assert HoldStep(w2, w3, 0);
    assert OnboardStep(w, w1, 0) && OnboardStep(w1, w2, 0) && OnboardStep(w2, w3, 0);
    hide Reachable, OnboardStep, QuietStep, OrderStep;
    ReachesNext(w, w1, allowed);
    ReachesNext(w1, w2, allowed);
    ReachesNext(w2, w3, allowed);
  }

  // ------------------------------------------------------------------ //
  // What a release is evidence of
  // ------------------------------------------------------------------ //

  predicate Posted(row: OrderRow) {
    row.tracked && row.paidAt.Some? && row.shippedAt.Some?
  }

  predicate Arrived(row: OrderRow) {
    Posted(row) && row.deliveredAt.Some?
  }

  /** An order of this seller that was paid and shipped; `full`: and delivered. */
  ghost predicate Sale(orders: OrderTable, seller: SellerId, id: OrderId, full: bool) {
    id in orders && orders[id].seller == seller && (if full then Arrived(orders[id]) else Posted(orders[id]))
  }

  predicate ThreeApart(a: OrderId, b: OrderId, c: OrderId) {
    a != b && b != c && a != c
  }

  ghost predicate ThreeSales(orders: OrderTable, seller: SellerId, full: bool) {
    exists a, b, c ::
      ThreeApart(a, b, c)
      && Sale(orders, seller, a, full) && Sale(orders, seller, b, full) && Sale(orders, seller, c, full)
  }

  ghost predicate DeliveredBy(orders: OrderTable, seller: SellerId, until: int) {
    exists id :: Sale(orders, seller, id, true) && orders[id].deliveredAt.value <= until
  }

  /** Three shipped sales; in full, three delivered ones, one of them a fortnight ago. */
  ghost predicate Earned(orders: OrderTable, seller: SellerId, now: int, full: bool) {
    ThreeSales(orders, seller, full) && (full ==> DeliveredBy(orders, seller, now - 14 * DAY_MS))
  }

  /** A row's columns tell its story; in full, no completion came before a week of delivery. */
  predicate RowOk(row: OrderRow, now: int, full: bool) {
    && (row.tracked <==> row.shippedAt.Some?)
    && (row.status in {Paid, Shipped, Delivered, Completed, Disputed} ==> row.paidAt.Some?)
    && (row.tracked ==> row.paidAt.Some?)
    && (row.status in {Created, Paid} ==> !row.tracked)
    && (row.status in {Created, Paid, Shipped} ==> row.deliveredAt == None)
    && (row.deliveredAt.Some? ==> Posted(row) && row.deliveredAt.value <= now)
    && (row.status in {Shipped, Delivered, Completed} ==> Posted(row))
    && (row.status == Delivered ==> Arrived(row))
    && (row.status == Completed ==> row.completedAt.Some? && row.completedAt.value <= now)
    && (full && row.status == Completed ==>
          Arrived(row) && row.deliveredAt.value + 604_800_000 <= row.completedAt.value)
  }

  /** Delivered a week ago or more. */
  predicate ReadyOk(row: OrderRow, now: int) {
    row.deliveredAt.Some? && row.deliveredAt.value + 604_800_000 <= now
  }

  ghost predicate PassOk(orders: OrderTable, now: int, pass: Pass, full: bool) {
    match pass
    case Listed(s, status) =>
      && (status.completedOrders >= 3 ==> ThreeSales(orders, s, full))
      && (full && status.firstCompletedAt.Some? ==>
            DeliveredBy(orders, s, status.firstCompletedAt.value - 604_800_000))
    case Chosen(s) => Earned(orders, s, now, full)
    case StripeDone(s) => Earned(orders, s, now, full)
  }

  /** Payouts run, or the row says released after it said held. */
  predicate Running(w: World, s: SellerId)
    requires s in w.accounts
  {
    w.accounts[s].schedule == Daily || (s in w.written && !w.accounts[s].held)
  }

  ghost predicate EarnedInv(w: World, full: bool) {
    && (forall id :: id in w.orders ==> RowOk(w.orders[id], w.now, full))
    && (forall id :: id in w.ready ==> id in w.orders && ReadyOk(w.orders[id], w.now))
    && (forall j :: j in w.passes ==> PassOk(w.orders, w.now, w.passes[j], full))
    && w.written <= w.accounts.Keys
    && (forall s :: s in w.accounts && Running(w, s) ==> Earned(w.orders, s, w.now, full))
  }

  /** Later, no sale is undone and no delivery changes its date. */
  ghost predicate Later(orders: OrderTable, orders': OrderTable) {
    forall id :: id in orders ==> id in orders' && LaterRow(orders[id], orders'[id])
  }

  predicate LaterRow(row: OrderRow, row': OrderRow) {
    && row'.seller == row.seller
    && (row.deliveredAt.Some? ==> row'.deliveredAt == row.deliveredAt)
    && (Posted(row) ==> Posted(row'))
  }

  lemma EvidenceStays(orders: OrderTable, orders': OrderTable, s: SellerId, until: int, until': int, full: bool)
    requires Later(orders, orders') && until <= until'
    ensures ThreeSales(orders, s, full) ==> ThreeSales(orders', s, full)
    ensures DeliveredBy(orders, s, until) ==> DeliveredBy(orders', s, until')
  {
    hide Posted;
    if a, b, c :|
      ThreeApart(a, b, c) && Sale(orders, s, a, full) && Sale(orders, s, b, full) && Sale(orders, s, c, full) {
      assert ThreeApart(a, b, c);
      assert Sale(orders', s, a, full) && Sale(orders', s, b, full) && Sale(orders', s, c, full);
    }
    if id :| Sale(orders, s, id, true) && orders[id].deliveredAt.value <= until {
      assert Sale(orders', s, id, true);
    }
  }

  lemma EarnedStays(orders: OrderTable, orders': OrderTable, s: SellerId, now: int, now': int, full: bool)
    requires Later(orders, orders') && now <= now' && Earned(orders, s, now, full)
    ensures Earned(orders', s, now', full)
  {
    EvidenceStays(orders, orders', s, now - 14 * DAY_MS, now' - 14 * DAY_MS, full);
  }

  lemma PassStays(orders: OrderTable, orders': OrderTable, now: int, now': int, pass: Pass, full: bool)
    requires Later(orders, orders') && now <= now' && PassOk(orders, now, pass, full)
    ensures PassOk(orders', now', pass, full)
  {
    hide ThreeSales, DeliveredBy;
    match pass
    case Listed(s, status) =>
      var until := if status.firstCompletedAt.Some?
        then status.firstCompletedAt.value - 604_800_000 else 0;
      EvidenceStays(orders, orders', s, until, until, full);
    case Chosen(s) => EarnedStays(orders, orders', s, now, now', full);
    case StripeDone(s) => EarnedStays(orders, orders', s, now, now', full);
  }

  /** Anything that only lets time pass or orders progress keeps the evidence. */
  lemma EvidenceKept(w: World, orders': OrderTable, now': int, full: bool)
    requires EarnedInv(w, full) && Later(w.orders, orders') && w.now <= now'
    requires forall id :: id in orders' ==> RowOk(orders'[id], now', full)
    ensures EarnedInv(w.(orders := orders', now := now'), full)
  {
    hide RowOk, Earned, PassOk, Posted;
    forall j | j in w.passes ensures PassOk(orders', now', w.passes[j], full) {
      PassStays(w.orders, orders', w.now, now', w.passes[j], full);
    }
    forall s | s in w.accounts && Running(w, s) ensures Earned(orders', s, now', full) {
      EarnedStays(w.orders, orders', s, w.now, now', full);
    }
    forall id | id in w.ready ensures id in orders' && ReadyOk(orders'[id], now') {
      assert LaterRow(w.orders[id], orders'[id]);
    }
  }

  lemma MoveKeepsRow(row: OrderRow, to: OrderStatus, actor: OrderActor, now: int, full: bool)
    requires RowOk(row, now, full) && MoveAt(row, to, actor, now).Ok?
    requires full && to == Completed ==> ReadyOk(row, now)
    ensures RowOk(MoveAt(row, to, actor, now).value, now, full) && LaterRow(row, MoveAt(row, to, actor, now).value)
  {
    MoveFacts(row.status, to, actor);
    ShippedFromPaid(row.status, to, actor);
    hide CanTransition, MOVES;
  }

  lemma ShippedFromPaid(from: OrderStatus, to: OrderStatus, actor: OrderActor)
    requires CanTransition(from, to, actor)
    ensures to == Shipped ==> from == Paid
    ensures to == Delivered ==> from == Shipped
    ensures to == Completed ==> (from == Delivered || from == Disputed) && (actor == System || actor == Admin)
    ensures to == Disputed ==> from in {Paid, Shipped, Delivered, Completed}
    ensures to == Refunded ==> from in {Paid, Shipped, Delivered, Completed, Disputed}
  {
  }

  lemma CompletersOnly(row: OrderRow, to: OrderStatus, actor: OrderActor, now: int)
    requires MoveAt(row, to, actor, now).Ok?
    ensures to == Completed ==> actor == System || actor == Admin
  {
    ShippedFromPaid(row.status, to, actor);
  }

  lemma OrderStepKeepsEarned(w: World, w': World, id: OrderId, to: OrderStatus, actor: OrderActor, allowed: Guard,
          full: bool)
    requires EarnedInv(w, full) && OrderStep(w, w', id, to, actor, allowed)
    requires full && to == Completed && actor == Admin ==> ReadyOk(w.orders[id], w.now)
    ensures EarnedInv(w', full)
  {
    CompletersOnly(w.orders[id], to, actor, w.now);
    MoveKeepsRow(w.orders[id], to, actor, w.now, full);
    hide RowOk, MoveAt, PassOk, Earned, Posted;
    EvidenceKept(w, w'.orders, w.now, full);
  }

  lemma TickKeepsEarned(w: World, now: int, full: bool)
    requires EarnedInv(w, full) && w.now <= now
    ensures EarnedInv(w.(now := now), full)
  {
    forall id | id in w.orders ensures RowOk(w.orders[id], now, full) { assert RowOk(w.orders[id], w.now, full); }
    hide PassOk, Earned, RowOk;
    EvidenceKept(w, w.orders, now, full);
  }

  lemma OnboardKeepsEarned(w: World, w': World, r: nat, full: bool)
    requires EarnedInv(w, full) && OnboardStep(w, w', r)
    ensures EarnedInv(w', full)
  {
    hide PassOk, Earned, RowOk, ReadyOk;
  }

  lemma OpenKeepsEarned(w: World, id: OrderId, s: SellerId, full: bool)
    requires EarnedInv(w, full) && id !in w.orders
    ensures EarnedInv(w.(orders := w.orders[id := NewRow(s)]), full)
  {
    var orders := w.orders[id := NewRow(s)];
    assert RowOk(NewRow(s), w.now, full);
    hide PassOk, Earned, RowOk;
    EvidenceKept(w, orders, w.now, full);
    assert w.(orders := orders, now := w.now) == w.(orders := orders);
  }

  lemma QuietStepKeepsEarned(w: World, w': World, full: bool)
    requires EarnedInv(w, full) && QuietStep(w, w')
    ensures EarnedInv(w', full)
  {
    hide EarnedInv;
    if w' == w.(now := w'.now) && w'.now >= w.now {
      TickKeepsEarned(w, w'.now, full);
    } else if id, s :| id !in w.orders && w' == w.(orders := w.orders[id := NewRow(s)]) {
      OpenKeepsEarned(w, id, s, full);
    }
  }

  lemma ThreeOf<T>(s: set<T>)
    requires |s| >= 3
    ensures exists a, b, c :: a != b && b != c && a != c && a in s && b in s && c in s
  {
    var a :| a in s;
    var s1 := s - {a};
    assert |s1| >= 2;
    var b :| b in s1;
    var s2 := s1 - {b};
    assert |s2| >= 1;
    var c :| c in s2;
  }

  /** What the query reads is backed by sales. */
  lemma StatusIsEvidence(orders: OrderTable, now: int, seller: SellerId, status: HoldStatus, full: bool)
    requires (forall id :: id in orders ==> RowOk(orders[id], now, full)) && StatusRead(orders, seller, status)
    ensures PassOk(orders, now, Listed(seller, status), full)
  {
    var done := CompletedOrders(orders, seller);
    forall id | id in done ensures Sale(orders, seller, id, full) {
      assert RowOk(orders[id], now, full);
    }
    if status.completedOrders >= 3 {
      ThreeOf(done);
      var a, b, c :| a != b && b != c && a != c && a in done && b in done && c in done;
      assert ThreeApart(a, b, c);
      assert Sale(orders, seller, a, full) && Sale(orders, seller, b, full) && Sale(orders, seller, c, full);
    }
    if full && status.firstCompletedAt.Some? {
      var id :| id in done && orders[id].completedAt == status.firstCompletedAt;
      assert Sale(orders, seller, id, full) && RowOk(orders[id], now, full);
    }
  }

  /** A release decision: seven days from delivery to completion, and seven more. */
  lemma DecisionIsEarned(orders: OrderTable, now: int, seller: SellerId, status: HoldStatus, full: bool)
    requires PassOk(orders, now, Listed(seller, status), full) && CanReleaseHold(status, now) == Release
    ensures Earned(orders, seller, now, full)
  {
    EvidenceStays(orders, orders, seller,
                  status.firstCompletedAt.value - 604_800_000, now - 14 * DAY_MS, full);
  }

  lemma ChooseKeepsEarned(w: World, w': World, j: nat, full: bool)
    requires EarnedInv(w, full) && ChooseStep(w, w', j)
    ensures EarnedInv(w', full)
  {
    assert PassOk(w.orders, w.now, w.passes[j], full);
    DecisionIsEarned(w.orders, w.now, w.passes[j].seller, w.passes[j].status, full);
    hide Earned, RowOk, ReadyOk, CanReleaseHold, ThreeSales, DeliveredBy;
  }

  lemma StripeKeepsEarned(w: World, w': World, j: nat, reached: bool, heard: bool, full: bool)
    requires EarnedInv(w, full) && StripeStep(w, w', j, reached, heard)
    ensures EarnedInv(w', full)
  {
    hide Earned, RowOk, ReadyOk;
    assert PassOk(w.orders, w.now, w.passes[j], full);
  }

  lemma RowKeepsEarned(w: World, w': World, j: nat, full: bool)
    requires EarnedInv(w, full) && (RowStep(w, w', j) || CrashStep(w, w', j))
    ensures EarnedInv(w', full)
  {
    hide Earned, RowOk, ReadyOk;
    assert j in w.passes ==> PassOk(w.orders, w.now, w.passes[j], full);
  }

  /** No admin completion of an order that has not been with its buyer for a week. */
  ghost predicate SafeAt(w: World, allowed: Guard) {
    forall id :: id in w.orders && MoveAt(w.orders[id], Completed, Admin, w.now).Ok? && allowed(w.orders[id], w.now) ==>
      ReadyOk(w.orders[id], w.now)
  }

  lemma StepKeepsEarned(w: World, w': World, allowed: Guard, full: bool)
    requires EarnedInv(w, full) && Step(w, w', allowed) && (full ==> SafeAt(w, allowed))
    ensures EarnedInv(w', full)
  {
    hide EarnedInv, QuietStep, OnboardStep, MoveAt, StatusRead, CanReleaseHold;
    if QuietStep(w, w') {
      QuietStepKeepsEarned(w, w', full);
    } else if r :| OnboardStep(w, w', r) {
      OnboardKeepsEarned(w, w', r, full);
    } else if id, to, actor :| OrderStep(w, w', id, to, actor, allowed) {
      OrderStepKeepsEarned(w, w', id, to, actor, allowed, full);
    } else if id :| ListStep(w, w', id) {
      ListStepKeepsEarned(w, w', id, full);
    } else if j, s, status :| ReadStep(w, w', j, s, status) {
      ReadStepKeepsEarned(w, w', j, s, status, full);
    } else if j :| ChooseStep(w, w', j) {
      ChooseKeepsEarned(w, w', j, full);
    } else if j, reached, heard :| StripeStep(w, w', j, reached, heard) {
      StripeKeepsEarned(w, w', j, reached, heard, full);
    } else if j :| RowStep(w, w', j) {
      RowKeepsEarned(w, w', j, full);
    } else {
      var j :| CrashStep(w, w', j);
      RowKeepsEarned(w, w', j, full);
    }
  }

  lemma ListStepKeepsEarned(w: World, w': World, id: OrderId, full: bool)
    requires EarnedInv(w, full) && ListStep(w, w', id)
    ensures EarnedInv(w', full)
  {
    hide RowOk, PassOk, Earned;
  }

  lemma ReadStepKeepsEarned(w: World, w': World, j: nat, s: SellerId, status: HoldStatus, full: bool)
    requires EarnedInv(w, full) && ReadStep(w, w', j, s, status)
    ensures EarnedInv(w', full)
  {
    StatusIsEvidence(w.orders, w.now, s, status, full);
    hide RowOk, ReadyOk, PassOk, Earned, StatusRead;
  }

  ghost predicate SafeGuard(allowed: Guard) {
    forall w :: Reachable(w, allowed) ==> SafeAt(w, allowed)
  }

  lemma {:induction false} RunKeepsEarned(trace: seq<World>, k: nat, allowed: Guard, full: bool)
    requires Run(trace, allowed) && k < |trace| && (full ==> SafeGuard(allowed))
    ensures EarnedInv(trace[k], full)
  {
    hide Step, EarnedInv, Reachable, SafeAt;
    if k == 0 {
      StartsEarned(trace[0], full);
    } else {
      RunKeepsEarned(trace, k - 1, allowed, full);
      OnTheWay(trace, k - 1, allowed);
      StepKeepsEarned(trace[k - 1], trace[k], allowed, full);
    }
  }

  lemma StartsEarned(w: World, full: bool)
    requires Initial(w)
    ensures EarnedInv(w, full)
  {
  }

  /**
   * Whatever admins complete: a completed order was paid and posted with tracking, and a seller whose
   * payouts run has had three such orders.
   */
  lemma ReleasedMeansShipped(trace: seq<World>, k: nat, allowed: Guard)
    requires Run(trace, allowed) && k < |trace|
    ensures forall id :: id in trace[k].orders && trace[k].orders[id].status == Completed ==>
              Posted(trace[k].orders[id])
    ensures forall s :: s in trace[k].accounts && Running(trace[k], s) ==> ThreeSales(trace[k].orders, s, false)
  {
    RunKeepsEarned(trace, k, allowed, false);
    hide Run, ThreeSales, PassOk, Posted;
  }

  /**
   * When admins complete only what was delivered a week before, a seller whose payouts run has had
   * three orders paid, shipped and delivered, one of them at least fourteen days ago.
   */
  lemma ReleasedMeansEarned(trace: seq<World>, k: nat, s: SellerId, allowed: Guard)
    requires Run(trace, allowed) && k < |trace| && s in trace[k].accounts && Running(trace[k], s)
    requires forall row, now :: allowed(row, now) ==> ReadyOk(row, now)
    ensures ThreeSales(trace[k].orders, s, true) && DeliveredBy(trace[k].orders, s, trace[k].now - 14 * DAY_MS)
  {
    hide Reachable;
    RunKeepsEarned(trace, k, allowed, true);
    hide Run, ThreeSales, DeliveredBy, RowOk, PassOk;
  }

  // ------------------------------------------------------------------ //
  // One row's story, told again three times over
  // ------------------------------------------------------------------ //

  function Three(a: OrderRow, b: OrderRow, c: OrderRow): OrderTable {
    map["a" := a, "b" := b, "c" := c]
  }

  const ABC: set<OrderId> := {"a", "b", "c"}

  /** The world in which one held seller has three orders, each exactly as order x is. */
  function Copies(w: World, x: OrderId, seller: SellerId): World {
    World(w.now,
          if x in w.orders then Three(w.orders[x], w.orders[x], w.orders[x]) else map[],
          if x in w.ready then ABC else {},
          map[seller := Account(Manual, true)],
          map[],
          map[],
          {seller})
  }

  lemma QuietlyReaches(w: World, w': World, allowed: Guard)
    requires Reachable(w, allowed) && QuietStep(w, w')
    ensures Reachable(w', allowed)
  {
    hide Reachable, QuietStep;
    ReachesNext(w, w', allowed);
  }

  lemma MovedReaches(w: World, id: OrderId, to: OrderStatus, actor: OrderActor, allowed: Guard) returns (w': World)
    requires Reachable(w, allowed) && id in w.orders && MoveAt(w.orders[id], to, actor, w.now).Ok?
    requires to == Completed && actor == System ==> id in w.ready
    requires to == Completed && actor == Admin ==> allowed(w.orders[id], w.now)
    ensures w' == w.(orders := w.orders[id := MoveAt(w.orders[id], to, actor, w.now).value]) && Reachable(w', allowed)
  {
    hide Reachable, MoveAt;
    w' := w.(orders := w.orders[id := MoveAt(w.orders[id], to, actor, w.now).value]);
    assert OrderStep(w, w', id, to, actor, allowed);
    ReachesNext(w, w', allowed);
  }

  lemma ThreeMoved(w: World, row: OrderRow, to: OrderStatus, actor: OrderActor, allowed: Guard)
    requires Reachable(w, allowed) && w.orders == Three(row, row, row) && MoveAt(row, to, actor, w.now).Ok?
    requires to == Completed && actor == System ==> ABC <= w.ready
    requires to == Completed && actor == Admin ==> allowed(row, w.now)
    ensures var moved := MoveAt(row, to, actor, w.now).value;
            Reachable(w.(orders := Three(moved, moved, moved)), allowed)
  {
    hide Reachable, MoveAt;
    var moved := MoveAt(row, to, actor, w.now).value;
    var w1 := MovedReaches(w, "a", to, actor, allowed);
    assert w1.orders == Three(moved, row, row);
    var w2 := MovedReaches(w1, "b", to, actor, allowed);
    assert w2.orders == Three(moved, moved, row);
    var w3 := MovedReaches(w2, "c", to, actor, allowed);
    assert w3.orders == Three(moved, moved, moved);
  }

  lemma ThreeOpened(w: World, seller: SellerId, allowed: Guard)
    requires Reachable(w, allowed) && w.orders == map[]
    ensures Reachable(w.(orders := Three(NewRow(seller), NewRow(seller), NewRow(seller))), allowed)
  {
    hide Reachable;
    var row := NewRow(seller);
    var w1 := w.(orders := map["a" := row]);
    assert w1 == w.(orders := w.orders["a" := row]);
    QuietlyReaches(w, w1, allowed);
    var w2 := w.(orders := map["a" := row, "b" := row]);
    assert w2 == w1.(orders := w1.orders["b" := row]);
    QuietlyReaches(w1, w2, allowed);
    var w3 := w.(orders := Three(row, row, row));
    assert w3 == w2.(orders := w2.orders["c" := row]);
    QuietlyReaches(w2, w3, allowed);
  }

  lemma ListedReaches(w: World, id: OrderId, allowed: Guard)
    requires Reachable(w, allowed) && id in w.orders && ReadyToComplete(w.orders[id], w.now)
    ensures Reachable(w.(ready := w.ready + {id}), allowed)
  {
    hide Reachable, ReadyToComplete;
    assert ListStep(w, w.(ready := w.ready + {id}), id);
    ReachesNext(w, w.(ready := w.ready + {id}), allowed);
  }

  lemma ThreeListed(w: World, row: OrderRow, allowed: Guard)
    requires Reachable(w, allowed) && w.orders == Three(row, row, row) && ReadyToComplete(row, w.now) && w.ready <= ABC
    ensures Reachable(w.(ready := ABC), allowed)
  {
    hide Reachable, ReadyToComplete;
    ListedReaches(w, "a", allowed);
    var w1 := w.(ready := w.ready + {"a"});
    ListedReaches(w1, "b", allowed);
    var w2 := w1.(ready := w1.ready + {"b"});
    ListedReaches(w2, "c", allowed);
    assert w2.(ready := w2.ready + {"c"}) == w.(ready := ABC);
  }

  lemma StepKeepsSeller(w: World, w': World, x: OrderId, allowed: Guard)
    requires Step(w, w', allowed) && x in w.orders
    ensures x in w'.orders && w'.orders[x].seller == w.orders[x].seller
  {
    hide StatusRead, CanReleaseHold, ReadyToComplete, Transition;
  }

  lemma QuietStepCopied(w: World, w': World, x: OrderId, seller: SellerId, allowed: Guard)
    requires QuietStep(w, w') && Reachable(Copies(w, x, seller), allowed)
    requires x in w'.orders ==> w'.orders[x].seller == seller
    requires x in w.ready ==> x in w.orders
    ensures Reachable(Copies(w', x, seller), allowed)
  {
    hide Reachable;
    if w' == w.(now := w'.now) && w'.now >= w.now {
      QuietlyReaches(Copies(w, x, seller), Copies(w', x, seller), allowed);
    } else if x in w'.orders && x !in w.orders {
      assert w'.orders[x] == NewRow(seller);
      ThreeOpened(Copies(w, x, seller), seller, allowed);
    } else {
      assert Copies(w', x, seller) == Copies(w, x, seller);
    }
  }

  lemma OtherStepsKeepOrders(w: World, w': World, allowed: Guard)
    requires Step(w, w', allowed) && !QuietStep(w, w') && !(exists id :: ListStep(w, w', id))
    requires !(exists id, to, actor :: OrderStep(w, w', id, to, actor, allowed))
    ensures w'.orders == w.orders && w'.ready == w.ready && w'.now == w.now
  {
    hide QuietStep, OrderStep, ListStep, StatusRead, CanReleaseHold;
  }

  lemma StepCopied(w: World, w': World, x: OrderId, seller: SellerId, allowed: Guard)
    requires Step(w, w', allowed) && Reachable(Copies(w, x, seller), allowed)
    requires x in w'.orders ==> w'.orders[x].seller == seller
    requires x in w.ready ==> x in w.orders
    ensures Reachable(Copies(w', x, seller), allowed)
    ensures x in w'.ready ==> x in w'.orders
  {
    hide Reachable, QuietStep, MoveAt, ReadyToComplete, Three, Step;
    if QuietStep(w, w') {
      QuietStepCopied(w, w', x, seller, allowed);
      QuietKeepsReady(w, w');
    } else if id, to, actor :| OrderStep(w, w', id, to, actor, allowed) {
      if id == x {
        ThreeMoved(Copies(w, x, seller), w.orders[x], to, actor, allowed);
      } else {
        assert Copies(w', x, seller) == Copies(w, x, seller);
      }
    } else if id :| ListStep(w, w', id) {
      if id == x {
        ThreeListed(Copies(w, x, seller), w.orders[x], allowed);
      } else {
        assert Copies(w', x, seller) == Copies(w, x, seller);
      }
    } else {
      OtherStepsKeepOrders(w, w', allowed);
      assert Copies(w', x, seller) == Copies(w, x, seller);
    }
  }

  lemma QuietKeepsReady(w: World, w': World)
    requires QuietStep(w, w')
    ensures w'.ready == w.ready && forall id :: id in w.orders ==> id in w'.orders
  {
  }

  lemma {:induction false} TraceCopied(trace: seq<World>, k: nat, x: OrderId, seller: SellerId, allowed: Guard)
    requires Run(trace, allowed) && k < |trace| && (x in trace[k].orders ==> trace[k].orders[x].seller == seller)
    ensures Reachable(Copies(trace[k], x, seller), allowed)
    ensures x in trace[k].ready ==> x in trace[k].orders
    decreases k
  {
    hide Step, Reachable;
    if k == 0 {
      StartsAt(Bare(trace[0].now), allowed);
      SellerJoins(Bare(trace[0].now), seller, allowed);
    } else {
      if x in trace[k - 1].orders { StepKeepsSeller(trace[k - 1], trace[k], x, allowed); }
      TraceCopied(trace, k - 1, x, seller, allowed);
      StepCopied(trace[k - 1], trace[k], x, seller, allowed);
    }
  }

  /** Whatever can happen to an order can happen to three orders of a seller still held, in step. */
  lemma CopiesAreReachable(w: World, x: OrderId, allowed: Guard)
    requires Reachable(w, allowed) && x in w.orders
    ensures Reachable(Copies(w, x, w.orders[x].seller), allowed)
  {
    var trace: seq<World> :| Run(trace, allowed) && trace[|trace| - 1] == w;
    hide Run, Reachable;
    TraceCopied(trace, |trace| - 1, x, w.orders[x].seller, allowed);
  }

  // ------------------------------------------------------------------ //
  // One pass of the release job
  // ------------------------------------------------------------------ //

  /**
   * A pass with nobody else moving: it reads, decides, and unless the answer is no, tells Stripe and
   * writes the row.
   */
  ghost predicate UndisturbedPass(w: World, w': World, j: nat, s: SellerId, status: HoldStatus) {
    if CanReleaseHold(status, w.now) == Release then
      exists w1, w2, w3 ::
        ReadStep(w, w1, j, s, status) && ChooseStep(w1, w2, j) && StripeStep(w2, w3, j, true, true)
          && RowStep(w3, w', j)
    else
      exists w1 :: ReadStep(w, w1, j, s, status) && CrashStep(w1, w', j)
  }

  /**
   * From any held account, whatever an earlier pass left of it, an undisturbed pass ends with the
   * schedule daily and the row released exactly when the seller's orders meet the rule as they stand;
   * otherwise it changes nothing.
   */
  lemma PassReleasesIff(w: World, w': World, j: nat, s: SellerId, status: HoldStatus)
    requires UndisturbedPass(w, w', j, s, status)
    ensures s in w'.accounts && (w'.accounts[s] == Account(Daily, false) <==> RuleMet(w.orders, s, w.now))
    ensures w' == w.(accounts := if RuleMet(w.orders, s, w.now) then w.accounts[s := Account(Daily, false)]
                                 else w.accounts)
  {
    hide RuleMet, StatusRead, CanReleaseHold;
    if CanReleaseHold(status, w.now) == Release {
      var w1, w2, w3 :|
        ReadStep(w, w1, j, s, status) && ChooseStep(w1, w2, j) && StripeStep(w2, w3, j, true, true)
          && RowStep(w3, w', j);
      RuleReadsTheOrders(w.orders, s, status, w.now);
      assert w'.passes == w.passes;
      assert w'.accounts == w.accounts[s := Account(Daily, false)];
    } else {
      var w1 :| ReadStep(w, w1, j, s, status) && CrashStep(w1, w', j);
      RuleReadsTheOrders(w.orders, s, status, w.now);
      assert w'.passes == w.passes;
    }
  }

  /** And such a pass can always be made. */
  lemma PassCanRun(w: World, j: nat, s: SellerId, allowed: Guard) returns (status: HoldStatus, w': World)
    requires Reachable(w, allowed) && j !in w.passes && s in w.accounts && w.accounts[s].held
    ensures UndisturbedPass(w, w', j, s, status) && Reachable(w', allowed)
  {
    status := StatusExists(w.orders, s);
    hide Reachable, StatusRead, CanReleaseHold, QuietStep, OrderStep, ListStep;
    var w1 := w.(passes := w.passes[j := Listed(s, status)]);
    assert ReadStep(w, w1, j, s, status);
    ReachesNext(w, w1, allowed);
    if CanReleaseHold(status, w.now) == Release {
      var w2 := w1.(passes := w1.passes[j := Chosen(s)]);
      assert ChooseStep(w1, w2, j);
      ReachesNext(w1, w2, allowed);
      var w3 := w2.(accounts := w2.accounts[s := w2.accounts[s].(schedule := Daily)],
        passes := w2.passes[j := StripeDone(s)]);
      assert StripeStep(w2, w3, j, true, true);
      ReachesNext(w2, w3, allowed);
      w' := w3.(accounts := w3.accounts[s := w3.accounts[s].(held := false)], passes := w3.passes - {j});
      assert RowStep(w3, w', j);
      ReachesNext(w3, w', allowed);
    } else {
      w' := w1.(passes := w1.passes - {j});
      assert CrashStep(w1, w', j);
      ReachesNext(w1, w', allowed);
    }
  }

  /** Three copies of a completed order, read by the query. */
  lemma ThreeStatus(row: OrderRow)
    requires row.status == Completed && row.completedAt.Some?
    ensures CompletedOrders(Three(row, row, row), row.seller) == ABC
    ensures StatusRead(Three(row, row, row), row.seller, HoldStatus(3, row.completedAt))
  {
    var orders := Three(row, row, row);
    assert CompletedOrders(orders, row.seller) == ABC;
    assert "a" in ABC && orders["a"].completedAt == row.completedAt;
  }

  // ------------------------------------------------------------------ //
  // A release interrupted, then disputed
  // ------------------------------------------------------------------ //

  function Finished(seller: SellerId): OrderRow {
    OrderRow(seller, Completed, true, Some(0), Some(0), Some(0), Some(7 * DAY_MS))
  }

  lemma MovesToFinished(seller: SellerId)
    ensures var paid := NewRow(seller).(status := Paid, paidAt := Some(0));
            var shipped := paid.(status := Shipped, tracked := true, shippedAt := Some(0));
            var delivered := shipped.(status := Delivered, deliveredAt := Some(0));
            && MoveAt(NewRow(seller), Paid, Stripe, 0) == Ok(paid)
            && MoveAt(paid, Shipped, Seller, 0) == Ok(shipped)
            && MoveAt(shipped, Delivered, System, 0) == Ok(delivered)
            && MoveAt(shipped, Disputed, Buyer, 0) == Ok(shipped.(status := Disputed))
            && ReadyToComplete(delivered, 7 * DAY_MS)
            && MoveAt(delivered, Completed, System, 7 * DAY_MS) == Ok(Finished(seller))
            && (forall now ::
                  MoveAt(Finished(seller), Disputed, Buyer, now) == Ok(Finished(seller).(status := Disputed)))
            && (forall now ::
                  MoveAt(shipped.(status := Disputed), Completed, Admin, now)
                  == Ok(shipped.(status := Completed, completedAt := Some(now))))
  {
    assert Transition(Created, Paid, Stripe) == Ok(Paid) && Transition(Paid, Shipped, Seller) == Ok(Shipped);
    assert Transition(Shipped, Delivered, System) == Ok(Delivered)
      && Transition(Shipped, Disputed, Buyer) == Ok(Disputed);
    assert Transition(Delivered, Completed, System) == Ok(Completed)
      && Transition(Completed, Disputed, Buyer) == Ok(Disputed);
    assert Transition(Disputed, Completed, Admin) == Ok(Completed);
    hide Transition;
  }

  /** Three orders opened, paid and posted at time zero. */
  lemma ReachThreeShipped(seller: SellerId, allowed: Guard) returns (w: World)
    ensures var row := NewRow(seller).(status := Shipped, tracked := true, paidAt := Some(0), shippedAt := Some(0));
            w == World(0, Three(row, row, row), {}, map[seller := Account(Manual, true)], map[], map[], {seller})
    ensures Reachable(w, allowed)
  {
    MovesToFinished(seller);
    hide MoveAt, Reachable, Three;
    var start := World(0, map[], {}, map[seller := Account(Manual, true)], map[], map[], {seller});
    StartsAt(Bare(0), allowed);
    SellerJoins(Bare(0), seller, allowed);
    ThreeOpened(start, seller, allowed);
    var row := NewRow(seller);
    w := start.(orders := Three(row, row, row));
    ThreeMoved(w, row, Paid, Stripe, allowed);
    row := row.(status := Paid, paidAt := Some(0));
    w := w.(orders := Three(row, row, row));
    ThreeMoved(w, row, Shipped, Seller, allowed);
    row := row.(status := Shipped, tracked := true, shippedAt := Some(0));
    w := w.(orders := Three(row, row, row));
  }

  /** And then delivered at once, and completed by the clock a week later; another week has passed. */
  lemma ReachThreeFinished(seller: SellerId, allowed: Guard) returns (w: World)
    ensures var row := Finished(seller);
            w == World(14 * DAY_MS, Three(row, row, row), ABC, map[seller := Account(Manual, true)], map[], map[],
              {seller})
    ensures Reachable(w, allowed)
  {
    w := ReachThreeShipped(seller, allowed);
    MovesToFinished(seller);
    hide MoveAt, Reachable, Three, ReadyToComplete;
    var row := NewRow(seller).(status := Shipped, tracked := true, paidAt := Some(0), shippedAt := Some(0));
    ThreeMoved(w, row, Delivered, System, allowed);
    row := row.(status := Delivered, deliveredAt := Some(0));
    w := w.(orders := Three(row, row, row));
    QuietlyReaches(w, w.(now := 7 * DAY_MS), allowed);
    w := w.(now := 7 * DAY_MS);
    ThreeListed(w, row, allowed);
    w := w.(ready := ABC);
    ThreeMoved(w, row, Completed, System, allowed);
    w := w.(orders := Three(Finished(seller), Finished(seller), Finished(seller)));
    QuietlyReaches(w, w.(now := 14 * DAY_MS), allowed);
    w := w.(now := 14 * DAY_MS);
  }

  /** Stripe runs the payouts now, and its reply was lost. */
  lemma ReachInterrupted(seller: SellerId, allowed: Guard) returns (w: World)
    ensures var row := Finished(seller);
            w == World(14 * DAY_MS, Three(row, row, row), ABC, map[seller := Account(Daily, true)], map[], map[],
              {seller})
    ensures Reachable(w, allowed)
  {
    hide Reachable, StatusRead, QuietStep, ListStep, OrderStep;
    var w0 := ReachThreeFinished(seller, allowed);
    ThreeStatus(Finished(seller));
    hide Three;
    var status := HoldStatus(3, Some(7 * DAY_MS));
    var w1 := w0.(passes := map[0 := Listed(seller, status)]);
    assert ReadStep(w0, w1, 0, seller, status);
    ReachesNext(w0, w1, allowed);
    var w2 := w1.(passes := map[0 := Chosen(seller)]);
    assert ChooseStep(w1, w2, 0);
    ReachesNext(w1, w2, allowed);
    w := w2.(passes := map[], accounts := map[seller := Account(Daily, true)]);
    assert w2.passes - {0} == map[];
    assert StripeStep(w2, w, 0, true, false);
    ReachesNext(w2, w, allowed);
  }

  /**
   * A rerun need not finish what was begun: three completed orders, Stripe's reply lost, one order
   * then disputed. The payouts run, the row says held, and no pass will release it as things stand.
   */
  lemma InterruptedThenDisputed(seller: SellerId, allowed: Guard) returns (w: World)
    ensures Reachable(w, allowed) && seller in w.accounts && w.accounts[seller] == Account(Daily, true)
    ensures forall now :: !RuleMet(w.orders, seller, now)
  {
    hide Reachable, MoveAt;
    var w0 := ReachInterrupted(seller, allowed);
    MovesToFinished(seller);
    w := MovedReaches(w0, "a", Disputed, Buyer, allowed);
    var row := Finished(seller);
    assert w.orders == Three(row.(status := Disputed), row, row);
    assert CompletedOrders(w.orders, seller) == {"b", "c"};
    hide Three;
  }

  // ------------------------------------------------------------------ //
  // An admin's completion that comes too soon
  // ------------------------------------------------------------------ //

  /** Three copies of an order an admin completes release its seller a week later. */
  lemma AdminsRelease(w: World, x: OrderId, allowed: Guard) returns (w': World)
    requires Reachable(w, allowed) && x in w.orders && MoveAt(w.orders[x], Completed, Admin, w.now).Ok?
    requires allowed(w.orders[x], w.now)
    ensures var row := MoveAt(w.orders[x], Completed, Admin, w.now).value;
            && w'.orders == Three(row, row, row) && w'.now == w.now + 7 * DAY_MS
            && row.seller in w'.accounts && w'.accounts[row.seller] == Account(Daily, false)
    ensures Reachable(w', allowed)
  {
    var row := MoveAt(w.orders[x], Completed, Admin, w.now).value;
    assert row.seller == w.orders[x].seller && row.status == Completed && row.completedAt == Some(w.now);
    hide Reachable, MoveAt, Three, StatusRead;
    var copies := Copies(w, x, row.seller);
    CopiesAreReachable(w, x, allowed);
    ThreeMoved(copies, w.orders[x], Completed, Admin, allowed);
    var done := copies.(orders := Three(row, row, row));
    var later := done.(now := w.now + 7 * DAY_MS);
    QuietlyReaches(done, later, allowed);
    ThreeStatus(row);
    RuleReadsTheOrders(later.orders, row.seller, HoldStatus(3, Some(w.now)), later.now);
    var status;
    status, w' := PassCanRun(later, 0, row.seller, allowed);
    PassReleasesIff(later, w', 0, row.seller, status);
  }

  ghost predicate ReleasedIsEarned(w: World) {
    forall s :: s in w.accounts && Running(w, s) ==> Earned(w.orders, s, w.now, true)
  }

  lemma TooSoonIsUnearned(w: World, x: OrderId, allowed: Guard) returns (w': World)
    requires Reachable(w, allowed) && x in w.orders && MoveAt(w.orders[x], Completed, Admin, w.now).Ok?
    requires allowed(w.orders[x], w.now) && !ReadyOk(w.orders[x], w.now)
    ensures Reachable(w', allowed) && !ReleasedIsEarned(w')
  {
    var row := MoveAt(w.orders[x], Completed, Admin, w.now).value;
    assert row.deliveredAt == w.orders[x].deliveredAt;
    hide Reachable, MoveAt;
    w' := AdminsRelease(w, x, allowed);
    assert !DeliveredBy(w'.orders, row.seller, w'.now - 14 * DAY_MS);
  }

  /**
   * Exactly when every release is earned, in every run: when no order that can come about is one an
   * admin may complete before it has been with its buyer for a week.
   */
  lemma EarnedIff(allowed: Guard)
    ensures (forall w :: Reachable(w, allowed) ==> ReleasedIsEarned(w)) <==> SafeGuard(allowed)
  {
    hide Reachable, Earned, MoveAt, ReadyOk, Running;
    if SafeGuard(allowed) {
      forall w | Reachable(w, allowed) ensures ReleasedIsEarned(w) { SafeMeansEarned(w, allowed); }
    } else {
      var w :| Reachable(w, allowed) && !SafeAt(w, allowed);
      var x :| x in w.orders && MoveAt(w.orders[x], Completed, Admin, w.now).Ok? && allowed(w.orders[x], w.now)
               && !ReadyOk(w.orders[x], w.now);
      var w' := TooSoonIsUnearned(w, x, allowed);
    }
  }

  lemma SafeMeansEarned(w: World, allowed: Guard)
    requires SafeGuard(allowed) && Reachable(w, allowed)
    ensures ReleasedIsEarned(w)
  {
    var trace: seq<World> :| Run(trace, allowed) && trace[|trace| - 1] == w;
    hide Run, Reachable, SafeAt, Earned, PassOk, RowOk;
    RunKeepsEarned(trace, |trace| - 1, allowed, true);
  }

  /** Posted and then disputed before it arrived. */
  function LostParcel(seller: SellerId): OrderRow {
    NewRow(seller).(status := Disputed, tracked := true, paidAt := Some(0), shippedAt := Some(0))
  }

  /** An admin who may complete such orders can release a seller none of whose cards arrived. */
  lemma UndeliveredRelease(seller: SellerId, allowed: Guard) returns (w: World)
    requires allowed(LostParcel(seller), 0)
    ensures Reachable(w, allowed) && seller in w.accounts && w.accounts[seller] == Account(Daily, false)
    ensures ThreeSales(w.orders, seller, false) && forall id :: !Sale(w.orders, seller, id, true)
  {
    hide Reachable;
    var w0 := ReachThreeShipped(seller, allowed);
    MovesToFinished(seller);
    hide MoveAt;
    var w1 := MovedReaches(w0, "a", Disputed, Buyer, allowed);
    assert w1.orders["a"] == LostParcel(seller);
    w := AdminsRelease(w1, "a", allowed);
    assert ThreeApart("a", "b", "c");
    assert Sale(w.orders, seller, "a", false) && Sale(w.orders, seller, "b", false)
      && Sale(w.orders, seller, "c", false);
  }
}
