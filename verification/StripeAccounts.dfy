/**
 * Creating a seller's connected account exactly once (apps/api/src/payments/stripe.ts): any number
 * of calls for one user, concurrent and retried, walking a fixed sequence of idempotency keys. It
 * works against a Stripe that keeps its answer to every key, successes and refusals alike, and given
 * requests that agree; exactly how far it depends on each is proved too.
 */
module StripeAccounts {
  import opened Wrappers
  import opened Text

  const MAX_ACCOUNT_KEY_ATTEMPTS: nat := 5

  /**
   * The request's parameters: constants of the code, the user's id and contact email. For one user they
   * differ between calls when two deployments of the code build the request differently.
   */
  type Params = string

  type AccountId = nat

  // ------------------------------------------------------------------ //
  // Keys
  // ------------------------------------------------------------------ //

  function AccountKey(userId: string, attempt: nat): string {
    if attempt == 0 then "account:" + userId else "account:" + userId + "/" + Decimal(attempt + 1)
  }

  lemma FirstSlash(a: string, b: string, x: string, y: string)
    requires '/' !in b && a + "/" + x == b + y
    ensures |a| >= |b|
  {
    assert (a + "/" + x)[|a|] == '/';
    assert forall k :: 0 <= k < |b| ==> (b + y)[k] == b[k];
  }

  lemma SplitAtSlash(a: string, b: string, x: string, y: string)
    requires '/' !in a && '/' !in b && a + "/" + x == b + "/" + y
    ensures a == b && x == y
  {
    var s := a + "/" + x;
    assert s == b + ("/" + y) && b + "/" + y == a + ("/" + x);
    FirstSlash(a, b, x, "/" + y);
    FirstSlash(b, a, y, "/" + x);
    assert a == s[..|a|] && b == s[..|b|] && x == s[|a| + 1..] && y == s[|b| + 1..];
  }

  lemma PlainIsNotNumbered(a: string, b: string, x: string)
    requires '/' !in b
    ensures a + "/" + x != b
  {
    assert (a + "/" + x)[|a|] == '/';
  }

  /** Attempts of users never share a key, as long as user ids hold no slash (they are UUIDs). */
  lemma KeysAreDistinct(u: string, m: nat, v: string, n: nat)
    requires '/' !in u && '/' !in v
    ensures AccountKey(u, m) == AccountKey(v, n) <==> u == v && m == n
  {
    hide Decimal;
    var a, b := "account:" + u, "account:" + v;
    PlainIsNotNumbered(a, b, Decimal(m + 1));
    PlainIsNotNumbered(b, a, Decimal(n + 1));
    if AccountKey(u, m) == AccountKey(v, n) {
      if m > 0 {
        SplitAtSlash(a, b, Decimal(m + 1), Decimal(n + 1));
        DecimalRoundTrip(m + 1);
        DecimalRoundTrip(n + 1);
      }
      assert u == a[8..] && v == b[8..];
    }
  }

  // ------------------------------------------------------------------ //
  // Stripe
  // ------------------------------------------------------------------ //

  datatype Outcome = Created(id: AccountId) | Refused

  datatype Cached = Cached(params: Params, outcome: Outcome)

  /** What is remembered per attempt's key, the accounts that exist, and those with manual payouts. */
  datatype Server = Server(keys: map<nat, Cached>, accounts: set<AccountId>, held: set<AccountId>)

  /**
   * What Stripe makes of a request under an unused key: the environment's choice. It may turn a request
   * away without saving that, or because another with the key is being served, if the rules let it.
   */
  datatype Choice = Create(id: AccountId) | Refuse | Falter | TurnAway | Busy

  /**
   * What the design takes Stripe not to do: leave a refusal unsaved, answer a key in use with the error
   * for a misused one, forget a key.
   */
  datatype Rules = Rules(unsaved: bool, busy: bool, expires: bool)

  const STRICT := Rules(false, false, false)

  predicate Permits(rules: Rules, choice: Choice) {
    (choice.TurnAway? ==> rules.unsaved) && (choice.Busy? ==> rules.busy)
  }

  datatype Reply =
    | Account(id: AccountId)
    | Refusal        // 400, 401 or 403: Stripe read it and stopped
    | Mismatch       // the key was used with other parameters
    | Unclear        // a timeout, a 5xx, a rate limit

  predicate ProvesNothingWasCreated(reply: Reply) {
    reply == Refusal || reply == Mismatch
  }

  /** A used key replays its answer, or complains that the parameters differ; an unused one is served. */
  function Answer(server: Server, attempt: nat, params: Params, choice: Choice): (Server, Reply)
    requires choice.Create? ==> choice.id !in server.accounts
  {
    if attempt in server.keys then
      var cached := server.keys[attempt];
      (server,
       if cached.params != params then Mismatch
       else match cached.outcome case Created(id) => Account(id) case Refused => Refusal)
    else match choice
      case Create(id) =>
        (server.(keys := server.keys[attempt := Cached(params, Created(id))], accounts := server.accounts + {id}),
          Account(id))
      case Refuse =>
        (server.(keys := server.keys[attempt := Cached(params, Refused)]), Refusal)
      case Falter => (server, Unclear)
      case TurnAway => (server, Refusal)
      case Busy => (server, Mismatch)
  }

  // ------------------------------------------------------------------ //
  // Callers
  // ------------------------------------------------------------------ //

  /** Trying a key, making the payouts manual, returned, or thrown. */
  datatype Phase = Trying | Holding(id: AccountId) | Returned(id: AccountId) | Failed

  datatype Call = Call(params: Params, attempt: nat, phase: Phase)

  /** The catch block and the return around it. */
  function OnReply(call: Call, reply: Reply): Call {
    if reply.Account? then call.(phase := Holding(reply.id))
    else if call.attempt + 1 >= MAX_ACCOUNT_KEY_ATTEMPTS || !ProvesNothingWasCreated(reply) then call.(phase := Failed)
    else call.(attempt := call.attempt + 1)
  }

  /** The keys a user's call can use, and what it makes of a reply under each. */
  lemma FiveKeys(userId: string, call: Call, reply: Reply)
    requires call.phase == Trying && call.attempt < 5
    ensures AccountKey(userId, 0) == "account:" + userId
    ensures AccountKey(userId, 1) == "account:" + userId + "/2" && AccountKey(userId, 2) == "account:" + userId + "/3"
    ensures AccountKey(userId, 3) == "account:" + userId + "/4" && AccountKey(userId, 4) == "account:" + userId + "/5"
    ensures OnReply(call, reply)
            == match reply
               case Account(id) => call.(phase := Holding(id))
               case Unclear => call.(phase := Failed)
               case _ => if call.attempt == 4 then call.(phase := Failed) else call.(attempt := call.attempt + 1)
  {
    OneDigit(2);
    OneDigit(3);
    OneDigit(4);
    OneDigit(5);
  }

  lemma OneDigit(n: nat)
    requires n < 10
    ensures Decimal(n) == ["0123456789"[n]]
  {
    DigitTable(n);
  }

  datatype Envelope = Envelope(caller: nat, attempt: nat, reply: Reply)

  /** Replies stay on the wire: they arrive late, or never. */
  datatype State = State(server: Server, calls: map<nat, Call>, wire: set<Envelope>)

  ghost predicate Start(s: State, s': State, c: nat, params: Params) {
    c !in s.calls && s' == s.(calls := s.calls[c := Call(params, 0, Trying)])
  }

  /** Stripe serves a request somebody sent, now or long after its sender gave up, once or repeatedly. */
  ghost predicate Serve(rules: Rules, s: State, s': State, c: nat, attempt: nat, choice: Choice) {
    && c in s.calls && attempt <= s.calls[c].attempt && Permits(rules, choice)
    && (choice.Create? ==> choice.id !in s.server.accounts)
    && (choice.Busy? ==> exists d :: d != c && HasSent(s, d, attempt))
    && var (server, reply) := Answer(s.server, attempt, s.calls[c].params, choice);
       s' == s.(server := server, wire := s.wire + {Envelope(c, attempt, reply)})
  }

  predicate HasSent(s: State, c: nat, attempt: nat) {
    c in s.calls && attempt <= s.calls[c].attempt
  }

  ghost predicate Expire(rules: Rules, s: State, s': State, attempt: nat) {
    rules.expires && s' == s.(server := s.server.(keys := s.server.keys - {attempt}))
  }

  ghost predicate Deliver(s: State, s': State, c: nat, reply: Reply) {
    && c in s.calls && s.calls[c].phase == Trying
    && (reply == Unclear || Envelope(c, s.calls[c].attempt, reply) in s.wire)
    && s' == s.(calls := s.calls[c := OnReply(s.calls[c], reply)])
  }

  /** The second request, which makes payouts manual: done and heard, or thrown with or without effect. */
  ghost predicate Hold(s: State, s': State, c: nat, done: bool, heard: bool) {
    && c in s.calls && s.calls[c].phase.Holding? && (heard ==> done)
    && var id := s.calls[c].phase.id;
       s' == s.(server := if done then s.server.(held := s.server.held + {id}) else s.server,
                calls := s.calls[c := s.calls[c].(phase := if heard then Returned(id) else Failed)])
  }

  ghost predicate Step(rules: Rules, s: State, s': State) {
    || (exists c, params :: Start(s, s', c, params))
    || (exists c, attempt, choice :: Serve(rules, s, s', c, attempt, choice))
    || (exists c, reply :: Deliver(s, s', c, reply))
    || (exists c, done, heard :: Hold(s, s', c, done, heard))
    || (exists attempt :: Expire(rules, s, s', attempt))
  }

  const NOTHING := State(Server(map[], {}, {}), map[], {})

  /** A run in which every call is made with parameters out of `allowed`. */
  ghost predicate Run(rules: Rules, allowed: iset<Params>, trace: seq<State>) {
    && |trace| > 0 && trace[0] == NOTHING
    && (forall k :: 0 <= k < |trace| - 1 ==> Step(rules, trace[k], trace[k + 1]))
    && (forall k :: 0 <= k < |trace| ==> CallsWith(allowed, trace[k]))
  }

  ghost predicate CallsWith(allowed: iset<Params>, s: State) {
    forall c :: c in s.calls ==> s.calls[c].params in allowed
  }

  // ------------------------------------------------------------------ //
  // The invariant, when all calls agree on the parameters
  // ------------------------------------------------------------------ //

  ghost predicate RefusedBelow(server: Server, k: nat) {
    forall a: nat :: a < k ==> a in server.keys && server.keys[a].outcome == Refused
  }

  ghost predicate IsAt(server: Server, id: AccountId, a: nat) {
    a in server.keys && server.keys[a].outcome == Created(id)
  }

  ghost predicate Known(server: Server, id: AccountId) {
    exists a :: IsAt(server, id, a)
  }

  ghost predicate ServerOk(p: Params, server: Server) {
    && (forall a :: a in server.keys ==> server.keys[a].params == p)
    && (forall a :: a in server.keys && server.keys[a].outcome.Created? ==> RefusedBelow(server, a))
    && (forall id :: id in server.accounts <==> Known(server, id))
  }

  /** A caller on key k means every key below k holds a cached refusal. */
  ghost predicate CallOk(p: Params, server: Server, call: Call) {
    && call.params == p && RefusedBelow(server, call.attempt)
    && (call.phase.Holding? ==> Known(server, call.phase.id))
    && (call.phase.Returned? ==> Known(server, call.phase.id) && call.phase.id in server.held)
  }

  ghost predicate EnvelopeOk(server: Server, e: Envelope) {
    match e.reply
    case Account(id) => IsAt(server, id, e.attempt)
    case Refusal => e.attempt in server.keys && server.keys[e.attempt].outcome == Refused
    case Mismatch => false
    case Unclear => true
  }

  ghost predicate Inv(p: Params, s: State) {
    && ServerOk(p, s.server)
    && (forall c :: c in s.calls ==> CallOk(p, s.server, s.calls[c]))
    && (forall e :: e in s.wire ==> EnvelopeOk(s.server, e))
  }

  /** Stripe only ever learns: a remembered answer stays, and an account stays held. */
  ghost predicate Grows(before: Server, after: Server) {
    && (forall a :: a in before.keys ==> a in after.keys && after.keys[a] == before.keys[a])
    && before.held <= after.held
  }

  lemma GrowthKeeps(before: Server, after: Server, p: Params, call: Call, e: Envelope)
    requires Grows(before, after)
    ensures CallOk(p, before, call) ==> CallOk(p, after, call)
    ensures EnvelopeOk(before, e) ==> EnvelopeOk(after, e)
  {
    assert RefusedBelow(before, call.attempt) ==> RefusedBelow(after, call.attempt);
    if call.phase.Holding? || call.phase.Returned? { KnownStays(before, after, call.phase.id); }
  }

  lemma SameKeysSameKnown(before: Server, after: Server, id: AccountId)
    requires before.keys == after.keys
    ensures Known(before, id) <==> Known(after, id)
  {
    if a :| IsAt(before, id, a) { assert IsAt(after, id, a); }
    if a :| IsAt(after, id, a) { assert IsAt(before, id, a); }
  }

  lemma KnownStays(before: Server, after: Server, id: AccountId)
    requires Grows(before, after)
    ensures Known(before, id) ==> Known(after, id)
  {
    if Known(before, id) {
      var a :| IsAt(before, id, a);
      assert IsAt(after, id, a);
    }
  }

  lemma AnswerKeepsServerOk(p: Params, server: Server, attempt: nat, choice: Choice)
    requires ServerOk(p, server) && RefusedBelow(server, attempt) && (choice.Create? ==> choice.id !in server.accounts)
    requires Permits(STRICT, choice)
    ensures var (after, reply) := Answer(server, attempt, p, choice);
            ServerOk(p, after) && Grows(server, after) && forall c :: EnvelopeOk(after, Envelope(c, attempt, reply))
  {
    var (after, reply) := Answer(server, attempt, p, choice);
    forall a | a in after.keys && after.keys[a].outcome.Created? ensures RefusedBelow(after, a) {
      if a in server.keys { assert RefusedBelow(server, a); }
    }
    forall id | id in after.accounts ensures Known(after, id) {
      if id in server.accounts { KnownStays(server, after, id); } else { assert IsAt(after, id, attempt); }
    }
  }

  lemma ServeKeepsInv(p: Params, s: State, s': State, c: nat, attempt: nat, choice: Choice)
    requires Inv(p, s) && Serve(STRICT, s, s', c, attempt, choice)
    ensures Inv(p, s')
  {
    hide EnvelopeOk, Answer, Known, ServerOk, Grows;
    assert CallOk(p, s.server, s.calls[c]);
    assert RefusedBelow(s.server, attempt);
    AnswerKeepsServerOk(p, s.server, attempt, choice);
    var (after, reply) := Answer(s.server, attempt, p, choice);
    forall d | d in s'.calls ensures CallOk(p, s'.server, s'.calls[d]) {
      GrowthKeeps(s.server, after, p, s.calls[d], Envelope(c, attempt, reply));
    }
    forall e | e in s'.wire ensures EnvelopeOk(s'.server, e) {
      if e in s.wire { GrowthKeeps(s.server, after, p, s.calls[c], e); }
    }
  }

  lemma DeliverKeepsInv(p: Params, s: State, s': State, c: nat, reply: Reply)
    requires Inv(p, s) && Deliver(s, s', c, reply)
    ensures Inv(p, s')
  {
    var call := s.calls[c];
    assert CallOk(p, s.server, call);
    if reply != Unclear {
      assert EnvelopeOk(s.server, Envelope(c, call.attempt, reply));
    }
    assert CallOk(p, s.server, OnReply(call, reply));
  }

  lemma HoldKeepsServerOk(params: Params, before: Server, after: Server)
    requires ServerOk(params, before) && after.keys == before.keys && after.accounts == before.accounts
    requires before.held <= after.held
    ensures ServerOk(params, after) && Grows(before, after)
  {
    forall a | a in after.keys && after.keys[a].outcome.Created? ensures RefusedBelow(after, a) {
      assert RefusedBelow(before, a);
    }
    forall id ensures Known(after, id) <==> Known(before, id) { SameKeysSameKnown(before, after, id); }
  }

  lemma HoldKeepsInv(p: Params, s: State, s': State, c: nat, done: bool, heard: bool)
    requires Inv(p, s) && Hold(s, s', c, done, heard)
    ensures Inv(p, s')
  {
    assert CallOk(p, s.server, s.calls[c]);
    HoldKeepsServerOk(p, s.server, s'.server);
    forall d | d in s'.calls ensures CallOk(p, s'.server, s'.calls[d]) {
      GrowthKeeps(s.server, s'.server, p, s.calls[d], Envelope(0, 0, Unclear));
    }
    forall e | e in s'.wire ensures EnvelopeOk(s'.server, e) {
      GrowthKeeps(s.server, s'.server, p, s.calls[c], e);
    }
  }

  lemma StepKeepsInv(p: Params, s: State, s': State)
    requires Inv(p, s) && Step(STRICT, s, s') && CallsWith(iset{p}, s')
    ensures Inv(p, s')
  {
    if c, params :| Start(s, s', c, params) {
      assert CallOk(p, s'.server, s'.calls[c]) by { assert s'.calls[c].params in iset{p}; }
    } else if c, attempt, choice :| Serve(STRICT, s, s', c, attempt, choice) {
      ServeKeepsInv(p, s, s', c, attempt, choice);
    } else if c, reply :| Deliver(s, s', c, reply) {
      DeliverKeepsInv(p, s, s', c, reply);
    } else {
      var c, done, heard :| Hold(s, s', c, done, heard);
      HoldKeepsInv(p, s, s', c, done, heard);
    }
  }

  lemma {:induction false} RunKeepsInv(p: Params, trace: seq<State>, k: nat)
    requires Run(STRICT, iset{p}, trace) && k < |trace|
    ensures Inv(p, trace[k])
  {
    if k == 0 {
    } else {
      RunKeepsInv(p, trace, k - 1);
      StepKeepsInv(p, trace[k - 1], trace[k]);
    }
  }

  ghost predicate OneAccount(s: State) {
    forall x, y :: x in s.server.accounts && y in s.server.accounts ==> x == y
  }

  lemma KnownIsUnique(p: Params, server: Server, x: AccountId, y: AccountId)
    requires ServerOk(p, server) && Known(server, x) && Known(server, y)
    ensures x == y
  {
    var a :| IsAt(server, x, a);
    var b :| IsAt(server, y, b);
    assert RefusedBelow(server, a) && RefusedBelow(server, b);
  }

  /**
   * Same parameters and a Stripe that keeps to the rules: however calls interleave, retry and lose
   * replies, at most one account ever exists, every call that returns yields it, and its payouts are
   * manual by then.
   */
  lemma SameAccountForEverybody(p: Params, trace: seq<State>, k: nat)
    requires Run(STRICT, iset{p}, trace) && k < |trace|
    ensures OneAccount(trace[k])
    ensures forall c, d :: c in trace[k].calls && d in trace[k].calls
                           && trace[k].calls[c].phase.Returned? && trace[k].calls[d].phase.Returned?
                           ==> trace[k].calls[c].phase.id == trace[k].calls[d].phase.id
    ensures forall c :: c in trace[k].calls && trace[k].calls[c].phase.Returned?
                        ==> trace[k].calls[c].phase.id in trace[k].server.held
  {
    RunKeepsInv(p, trace, k);
    var s := trace[k];
    forall x, y | x in s.server.accounts && y in s.server.accounts ensures x == y {
      KnownIsUnique(p, s.server, x, y);
    }
    forall c, d | c in s.calls && d in s.calls && s.calls[c].phase.Returned? && s.calls[d].phase.Returned?
      ensures s.calls[c].phase.id == s.calls[d].phase.id
    {
      assert CallOk(p, s.server, s.calls[c]) && CallOk(p, s.server, s.calls[d]);
      KnownIsUnique(p, s.server, s.calls[c].phase.id, s.calls[d].phase.id);
    }
  }

  // ------------------------------------------------------------------ //
  // What that rests on
  // ------------------------------------------------------------------ //

  /**
   * A retry after the request has changed reads "the key was used with other parameters" as "nothing
   * was created", moves on, and makes a second account.
   */
  lemma TwoParameterSetsTwoAccounts(p: Params, q: Params) returns (trace: seq<State>)
    requires p != q
    ensures Run(STRICT, iset{p, q}, trace) && !OneAccount(trace[|trace| - 1])
  {
    var keys0 := map[0 := Cached(p, Created(0))];
    var keys1 := map[0 := Cached(p, Created(0)), 1 := Cached(q, Created(1))];
    var one := Server(keys0, {0}, {});
    var two := Server(keys1, {0, 1}, {});
    var first := Call(p, 0, Trying);
    var heard := Envelope(0, 0, Account(0));
    var mismatch := Envelope(1, 0, Mismatch);
    var s1 := State(NOTHING.server, map[0 := first], {});
    var s2 := State(one, map[0 := first], {heard});
    var s3 := State(one, map[0 := first, 1 := Call(q, 0, Trying)], {heard});
    var s4 := State(one, map[0 := first, 1 := Call(q, 0, Trying)], {heard, mismatch});
    var s5 := State(one, map[0 := first, 1 := Call(q, 1, Trying)], {heard, mismatch});
    var s6 := State(two, map[0 := first, 1 := Call(q, 1, Trying)], {heard, mismatch, Envelope(1, 1, Account(1))});
    trace := [NOTHING, s1, s2, s3, s4, s5, s6];
    assert Start(NOTHING, s1, 0, p);
    assert Serve(STRICT, s1, s2, 0, 0, Create(0));
    assert Start(s2, s3, 1, q);
    assert Serve(STRICT, s3, s4, 1, 0, Falter);
    assert Deliver(s4, s5, 1, Mismatch);
    assert Serve(STRICT, s5, s6, 1, 1, Create(1));
    assert 0 in two.accounts && 1 in two.accounts;
  }

  /** A refusal that is not saved sends one call to the second key and leaves the first to another. */
  lemma UnsavedRefusalTwoAccounts(p: Params) returns (trace: seq<State>)
    ensures Run(Rules(true, false, false), iset{p}, trace) && !OneAccount(trace[|trace| - 1])
  {
    var rules := Rules(true, false, false);
    var one := Server(map[1 := Cached(p, Created(0))], {0}, {});
    var two := Server(map[0 := Cached(p, Created(1)), 1 := Cached(p, Created(0))], {0, 1}, {});
    var refused := Envelope(0, 0, Refusal);
    var moved := Call(p, 1, Trying);
    var s1 := State(NOTHING.server, map[0 := Call(p, 0, Trying)], {});
    var s2 := s1.(wire := {refused});
    var s3 := s2.(calls := map[0 := moved]);
    var s4 := State(one, map[0 := moved], {refused, Envelope(0, 1, Account(0))});
    var s5 := s4.(calls := map[0 := moved, 1 := Call(p, 0, Trying)]);
    var s6 := s5.(server := two, wire := {refused, Envelope(0, 1, Account(0)), Envelope(1, 0, Account(1))});
    trace := [NOTHING, s1, s2, s3, s4, s5, s6];
    assert Start(NOTHING, s1, 0, p);
    assert Serve(rules, s1, s2, 0, 0, TurnAway);
    assert Deliver(s2, s3, 0, Refusal);
    assert Serve(rules, s3, s4, 0, 1, Create(0));
    assert Start(s4, s5, 1, p);
    assert Serve(rules, s5, s6, 1, 0, Create(1));
    assert 0 in two.accounts && 1 in two.accounts;
  }

  /** A key in use, answered as a misused one, sends the second call past the account the first is making. */
  lemma BusyKeyTwoAccounts(p: Params) returns (trace: seq<State>)
    ensures Run(Rules(false, true, false), iset{p}, trace) && !OneAccount(trace[|trace| - 1])
  {
    var rules := Rules(false, true, false);
    var one := Server(map[1 := Cached(p, Created(0))], {0}, {});
    var two := Server(map[0 := Cached(p, Created(1)), 1 := Cached(p, Created(0))], {0, 1}, {});
    var first := Call(p, 0, Trying);
    var misused := Envelope(1, 0, Mismatch);
    var s1 := State(NOTHING.server, map[0 := first], {});
    var s2 := s1.(calls := map[0 := first, 1 := Call(p, 0, Trying)]);
    var s3 := s2.(wire := {misused});
    var s4 := s3.(calls := map[0 := first, 1 := Call(p, 1, Trying)]);
    var s5 := s4.(server := one, wire := {misused, Envelope(1, 1, Account(0))});
    var s6 := s5.(server := two, wire := {misused, Envelope(1, 1, Account(0)), Envelope(0, 0, Account(1))});
    trace := [NOTHING, s1, s2, s3, s4, s5, s6];
    assert Start(NOTHING, s1, 0, p);
    assert Start(s1, s2, 1, p);
    assert HasSent(s2, 0, 0);
    assert Serve(rules, s2, s3, 1, 0, Busy);
    assert Deliver(s3, s4, 1, Mismatch);
    assert Serve(rules, s4, s5, 1, 1, Create(0));
    assert Serve(rules, s5, s6, 0, 0, Create(1));
    assert 0 in two.accounts && 1 in two.accounts;
  }

  /** Once the key is forgotten, a retry under it creates again. */
  lemma ForgottenKeyTwoAccounts(p: Params) returns (trace: seq<State>)
    ensures Run(Rules(false, false, true), iset{p}, trace) && !OneAccount(trace[|trace| - 1])
  {
    var rules := Rules(false, false, true);
    var calls := map[0 := Call(p, 0, Trying)];
    var heard := Envelope(0, 0, Account(0));
    var s1 := State(NOTHING.server, calls, {});
    var s2 := State(Server(map[0 := Cached(p, Created(0))], {0}, {}), calls, {heard});
    var s3 := s2.(server := Server(map[], {0}, {}));
    var s4 := State(Server(map[0 := Cached(p, Created(1))], {0, 1}, {}), calls, {heard, Envelope(0, 0, Account(1))});
    trace := [NOTHING, s1, s2, s3, s4];
    assert Start(NOTHING, s1, 0, p);
    assert Serve(rules, s1, s2, 0, 0, Create(0));
    assert s2.server.keys - {0} == map[];
    assert Expire(rules, s2, s3, 0);
    assert Serve(rules, s3, s4, 0, 0, Create(1));
    assert 0 in s4.server.accounts && 1 in s4.server.accounts;
  }

  lemma NobodyCalls(rules: Rules, trace: seq<State>, k: nat)
    requires Run(rules, iset{}, trace) && k < |trace|
    ensures trace[k].server.accounts == {} && trace[k].calls == map[]
  {
    assert CallsWith(iset{}, trace[k]);
    if k == 0 {
    } else {
      NobodyCalls(rules, trace, k - 1);
      assert Step(rules, trace[k - 1], trace[k]);
    }
  }

  /**
   * At most one account in every run exactly when all calls for the user carry the same parameters and,
   * if there are calls at all, Stripe saves every refusal, tells a key in use from a misused one, and
   * forgets no key.
   */
  lemma OneAccountIff(rules: Rules, allowed: iset<Params>)
    ensures (forall trace: seq<State>, k: nat :: Run(rules, allowed, trace) && k < |trace| ==> OneAccount(trace[k]))
            <==> && (forall p, q :: p in allowed && q in allowed ==> p == q)
                 && (allowed == iset{} || rules == STRICT)
  {
    hide OneAccount, Run;
    if p, q :| p in allowed && q in allowed && p != q {
      var trace := TwoParameterSetsTwoAccounts(p, q);
      RunWidens(STRICT, iset{p, q}, rules, allowed, trace);
      LastBreaks(rules, allowed, trace);
    } else if p :| p in allowed {
      assert allowed == iset{p};
      if rules.unsaved {
        var trace := UnsavedRefusalTwoAccounts(p);
        RunWidens(Rules(true, false, false), iset{p}, rules, allowed, trace);
        LastBreaks(rules, allowed, trace);
      } else if rules.busy {
        var trace := BusyKeyTwoAccounts(p);
        RunWidens(Rules(false, true, false), iset{p}, rules, allowed, trace);
        LastBreaks(rules, allowed, trace);
      } else if rules.expires {
        var trace := ForgottenKeyTwoAccounts(p);
        RunWidens(Rules(false, false, true), iset{p}, rules, allowed, trace);
        LastBreaks(rules, allowed, trace);
      } else {
        forall trace: seq<State>, k: nat | Run(rules, allowed, trace) && k < |trace| ensures OneAccount(trace[k]) {
          SameAccountForEverybody(p, trace, k);
        }
      }
    } else {
      assert allowed == iset{};
      forall trace: seq<State>, k: nat | Run(rules, allowed, trace) && k < |trace| ensures OneAccount(trace[k]) {
        NobodyCalls(rules, trace, k);
        EmptyIsOne(trace[k]);
      }
    }
  }

  lemma EmptyIsOne(s: State)
    requires s.server.accounts == {}
    ensures OneAccount(s)
  {
  }

  lemma LastBreaks(rules: Rules, allowed: iset<Params>, trace: seq<State>)
    requires Run(rules, allowed, trace) && !OneAccount(trace[|trace| - 1])
    ensures !(forall t: seq<State>, k: nat :: Run(rules, allowed, t) && k < |t| ==> OneAccount(t[k]))
  {
    hide OneAccount, Step, CallsWith;
    var k: nat := |trace| - 1;
    assert Run(rules, allowed, trace) && k < |trace| && !OneAccount(trace[k]);
  }

  lemma RunWidens(rules: Rules, allowed: iset<Params>, more: Rules, wider: iset<Params>, trace: seq<State>)
    requires Run(rules, allowed, trace) && allowed <= wider
    requires (rules.unsaved ==> more.unsaved) && (rules.busy ==> more.busy) && (rules.expires ==> more.expires)
    ensures Run(more, wider, trace)
  {
    forall k | 0 <= k < |trace| ensures CallsWith(wider, trace[k]) {
      assert CallsWith(allowed, trace[k]);
    }
    forall k | 0 <= k < |trace| - 1 ensures Step(more, trace[k], trace[k + 1]) {
      StepWidens(rules, more, trace[k], trace[k + 1]);
    }
  }

  lemma StepWidens(rules: Rules, more: Rules, s: State, s': State)
    requires Step(rules, s, s')
    requires (rules.unsaved ==> more.unsaved) && (rules.busy ==> more.busy) && (rules.expires ==> more.expires)
    ensures Step(more, s, s')
  {
    hide Answer, Start, Deliver, Hold, HasSent;
    if c, attempt, choice :| Serve(rules, s, s', c, attempt, choice) {
      assert Serve(more, s, s', c, attempt, choice);
    } else if attempt :| Expire(rules, s, s', attempt) {
      assert Expire(more, s, s', attempt);
    }
  }

  // ------------------------------------------------------------------ //
  // One call, as the loop it is
  // ------------------------------------------------------------------ //

  datatype CreateError = NotCreated(reply: Reply) | NotHeld

  /** What befalls one call: Stripe's choice per attempt, which reply is lost, and how the hold goes. */
  datatype Weather = Weather(choices: seq<Choice>, lost: set<nat>, done: bool, heard: bool)

  ghost predicate Possible(server: Server, w: Weather) {
    && |w.choices| == MAX_ACCOUNT_KEY_ATTEMPTS && (w.heard ==> w.done)
    && forall k :: 0 <= k < |w.choices| ==>
         Permits(STRICT, w.choices[k]) && (w.choices[k].Create? ==> w.choices[k].id !in server.accounts)
  }

  class Stripe {
    var server: Server

    constructor ()
      ensures server == NOTHING.server
    {
      server := NOTHING.server;
    }

    method CreateAccount(attempt: nat, params: Params, choice: Choice, lost: bool) returns (reply: Reply)
      requires choice.Create? ==> choice.id !in server.accounts
      modifies this
      ensures server == Answer(old(server), attempt, params, choice).0
      ensures reply == if lost then Unclear else Answer(old(server), attempt, params, choice).1
    {
      if attempt in server.keys {
        var cached := server.keys[attempt];
        if cached.params != params {
          reply := Mismatch;
        } else {
          reply := match cached.outcome case Created(id) => Account(id) case Refused => Refusal;
        }
      } else {
        match choice
        case Create(id) =>
          server := server.(
            keys := server.keys[attempt := Cached(params, Created(id))], accounts := server.accounts + {id});
          reply := Account(id);
        case Refuse =>
          server := server.(keys := server.keys[attempt := Cached(params, Refused)]);
          reply := Refusal;
        case Falter =>
          reply := Unclear;
        case TurnAway =>
          reply := Refusal;
        case Busy =>
          reply := Mismatch;
      }
      if lost { reply := Unclear; }
    }

    method CreateConnectedAccount(params: Params, w: Weather) returns (r: Result<AccountId, CreateError>)
      requires ServerOk(params, server) && Possible(server, w)
      modifies this
      ensures ServerOk(params, server) && Grows(old(server), server)
      // What is returned exists, is held, and was there already if anything was.
      ensures r.Ok? ==> Known(server, r.value) && r.value in server.held
      ensures r.Ok? ==> forall id :: Known(old(server), id) ==> r.value == id
      // A retry adopts the account an earlier call left behind, unless it too loses a reply.
      ensures (exists id, a: nat :: a < MAX_ACCOUNT_KEY_ATTEMPTS && IsAt(old(server), id, a)) && w.lost == {}
              ==> server.accounts == old(server.accounts) && if w.heard then r.Ok? else r == Err(NotHeld)
      // A refusal that is thrown is a true one: nothing was created.
      ensures r.Err? && r.error.NotCreated? && r.error.reply != Unclear ==> server.accounts == old(server.accounts)
    {
      var accountId: AccountId;
      var attempt: nat := 0;
      while true
        invariant attempt < MAX_ACCOUNT_KEY_ATTEMPTS
        invariant ServerOk(params, server) && Grows(old(server), server) && RefusedBelow(server, attempt)
        invariant server.accounts == old(server.accounts)
        decreases MAX_ACCOUNT_KEY_ATTEMPTS - attempt
      {
        label request:
        AnswerKeepsServerOk(params, server, attempt, w.choices[attempt]);
        var reply := CreateAccount(attempt, params, w.choices[attempt], attempt in w.lost);
        if reply.Account? {
          accountId := reply.id;
          assert IsAt(server, accountId, attempt);
          FoundIsTheOne(params, old(server), old@request(server), server, accountId);
          break;
        }
        if attempt + 1 >= MAX_ACCOUNT_KEY_ATTEMPTS || !ProvesNothingWasCreated(reply) {
          if attempt !in w.lost {
            NothingToAdopt(params, old(server), old@request(server), attempt, w.choices[attempt]);
          }
          return Err(NotCreated(reply));
        }
        attempt := attempt + 1;
      }
      label created:
      if w.done {
        server := server.(held := server.held + {accountId});
        HoldKeepsServerOk(params, old@created(server), server);
      }
      if !w.heard { return Err(NotHeld); }
      KnownStays(old@created(server), server, accountId);
      r := Ok(accountId);
    }
  }

  /** If there was an account, the one found is it, and finding it created nothing. */
  lemma FoundIsTheOne(params: Params, start: Server, before: Server, after: Server, id: AccountId)
    requires ServerOk(params, start) && ServerOk(params, after) && Grows(start, after) && Known(after, id)
    requires before.accounts == start.accounts && before.accounts <= after.accounts
    ensures forall x :: Known(start, x) ==> x == id
    ensures (exists x :: Known(start, x)) ==> after.accounts == start.accounts
  {
    forall x | Known(start, x) ensures x == id {
      KnownStays(start, after, x);
      KnownIsUnique(params, after, x, id);
    }
    forall x | x in after.accounts ensures x == id { KnownIsUnique(params, after, x, id); }
  }

  /** A call that throws with every reply heard had no account within its reach to find. */
  lemma NothingToAdopt(params: Params, start: Server, server: Server, attempt: nat, choice: Choice)
    requires ServerOk(params, server) && Grows(start, server) && RefusedBelow(server, attempt)
    requires Permits(STRICT, choice) && (choice.Create? ==> choice.id !in server.accounts)
    requires var reply := Answer(server, attempt, params, choice).1;
             !reply.Account? && (attempt + 1 >= MAX_ACCOUNT_KEY_ATTEMPTS || !ProvesNothingWasCreated(reply))
    ensures forall id, a: nat :: a < MAX_ACCOUNT_KEY_ATTEMPTS ==> !IsAt(start, id, a)
  {
    forall id, a: nat | a < MAX_ACCOUNT_KEY_ATTEMPTS ensures !IsAt(start, id, a) {
      assert IsAt(start, id, a) ==> IsAt(server, id, a) && RefusedBelow(server, a);
    }
  }
}
