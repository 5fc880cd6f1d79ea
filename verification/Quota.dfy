/**
 * Per-key request quotas (apps/api/src/plugins/quota.ts): the in-memory store of minute and day
 * windows, its sweeper, and what the counts told mean.
 */
module Quota {
  import opened Windows

  const MINUTE_MS: nat := 60_000
  const DAY_MS: nat := 86_400_000

  function Bumped(store: Store, key: Key, now: int, span: nat): Window {
    if Live(store, key, now) then Window(store[key].count + 1, store[key].resetAt) else Window(1, now + span)
  }

  datatype Counts = Counts(minute: int, day: int, minuteResetAt: int)

  /** The two maps together. */
  datatype Stores = Stores(minute: Store, day: Store)

  function Counted(s: Stores, key: Key, now: int): (Stores, Counts) {
    var minute, day := Bumped(s.minute, key, now, MINUTE_MS), Bumped(s.day, key, now, DAY_MS);
    (Stores(s.minute[key := minute], s.day[key := day]), Counts(minute.count, day.count, minute.resetAt))
  }

  function SweptBoth(s: Stores, now: int): Stores {
    Stores(Swept(s.minute, now), Swept(s.day, now))
  }

  class QuotaStore {
    var minute: Store
    var day: Store

    constructor ()
      ensures minute == map[] && day == map[]
    {
      minute, day := map[], map[];
    }

    method Count(key: Key, now: int) returns (counts: Counts)
      modifies this
      ensures (Stores(minute, day), counts) == Counted(Stores(old(minute), old(day)), key, now)
    {
      var m, d: Window;
      minute, m := Bump(minute, key, now, MINUTE_MS);
      day, d := Bump(day, key, now, DAY_MS);
      counts := Counts(m.count, d.count, m.resetAt);
    }

    method Sweep(now: int)
      modifies this
      ensures Stores(minute, day) == SweptBoth(Stores(old(minute), old(day)), now)
    {
      minute := SweepStore(minute, now);
      day := SweepStore(day, now);
    }

    method Reset()
      modifies this
      ensures minute == map[] && day == map[]
    {
      minute, day := map[], map[];
    }
  }

  method Bump(store: Store, key: Key, now: int, span: nat) returns (after: Store, window: Window)
    ensures window == Bumped(store, key, now, span) && after == store[key := window]
  {
    if key !in store || store[key].resetAt <= now {
      window := Window(1, now + span);
    } else {
      window := store[key].(count := store[key].count + 1);
    }
    after := store[key := window];
  }

  method SweepStore(store: Store, now: int) returns (swept: Store)
    ensures swept == Swept(store, now)
  {
    swept := store;
    var left := store.Keys;
    while left != {}
      invariant left <= store.Keys && swept.Keys <= store.Keys
      invariant forall key :: key in swept ==> swept[key] == store[key]
      invariant forall key :: key in store ==> (key in swept <==> key in left || store[key].resetAt > now)
      decreases |left|
    {
      var key :| key in left;
      if store[key].resetAt <= now { swept := swept - {key}; }
      left := left - {key};
    }
  }

  // ------------------------------------------------------------------ //
  // Sweeping changes nothing anybody can see
  // ------------------------------------------------------------------ //

  datatype Op = Request(key: Key, now: int) | SweepAt(now: int)

  ghost predicate ClockNeverGoesBack(ops: seq<Op>) {
    forall i, j :: 0 <= i < j < |ops| ==> ops[i].now <= ops[j].now
  }

  /** What every request is told, in order. */
  function Told(s: Stores, ops: seq<Op>): seq<Counts>
    decreases |ops|
  {
    if |ops| == 0 then []
    else match ops[0]
      case Request(key, now) => var (after, counts) := Counted(s, key, now); [counts] + Told(after, ops[1..])
      case SweepAt(now) => Told(SweptBoth(s, now), ops[1..])
  }

  function WithoutSweeps(ops: seq<Op>): seq<Op> {
    if |ops| == 0 then []
    else (if ops[0].Request? then [ops[0]] else []) + WithoutSweeps(ops[1..])
  }

  ghost predicate AgreeBoth(a: Stores, b: Stores, at: int) {
    Agree(a.minute, b.minute, at) && Agree(a.day, b.day, at)
  }

  lemma BumpAgrees(a: Store, b: Store, key: Key, now: int, span: nat)
    requires Agree(a, b, now)
    ensures Bumped(a, key, now, span) == Bumped(b, key, now, span)
    ensures Agree(a[key := Bumped(a, key, now, span)], b[key := Bumped(b, key, now, span)], now)
  {
    assert AgreeOn(a, b, key, now);
    var window := Bumped(a, key, now, span);
    var a', b' := a[key := window], b[key := window];
    forall k ensures AgreeOn(a', b', k, now) {
      assert AgreeOn(a, b, k, now);
    }
  }

  lemma {:induction false} SweptAndUnsweptTellAlike(a: Stores, b: Stores, ops: seq<Op>, at: int)
    requires AgreeBoth(a, b, at) && ClockNeverGoesBack(ops) && (|ops| > 0 ==> at <= ops[0].now)
    ensures Told(a, ops) == Told(b, WithoutSweeps(ops))
    decreases |ops|
  {
    hide Agree, Bumped;
    if |ops| == 0 {
    } else {
      var now := ops[0].now;
      AgreeLater(a.minute, b.minute, at, now);
      AgreeLater(a.day, b.day, at, now);
      var rest := WithoutSweeps(ops[1..]);
      match ops[0]
      case Request(key, _) =>
        BumpAgrees(a.minute, b.minute, key, now, MINUTE_MS);
        BumpAgrees(a.day, b.day, key, now, DAY_MS);
        SweptAndUnsweptTellAlike(Counted(a, key, now).0, Counted(b, key, now).0, ops[1..], now);
        assert ([ops[0]] + rest)[1..] == rest;
      case SweepAt(_) =>
        SweepAgrees(a.minute, b.minute, now);
        SweepAgrees(a.day, b.day, now);
        SweptAndUnsweptTellAlike(SweptBoth(a, now), b, ops[1..], now);
        assert [] + rest == rest;
    }
  }

  /** However often and whenever the sweeper runs, every request is told what it would have been told without it. */
  lemma SweepingIsInvisible(ops: seq<Op>)
    requires ClockNeverGoesBack(ops)
    ensures Told(Stores(map[], map[]), ops) == Told(Stores(map[], map[]), WithoutSweeps(ops))
  {
    var empty := Stores(map[], map[]);
    SweptAndUnsweptTellAlike(empty, empty, ops, if |ops| > 0 then ops[0].now else 0);
  }

  // ------------------------------------------------------------------ //
  // What a count counts
  // ------------------------------------------------------------------ //

  /** One of the two maps after these operations. */
  function StoreAfter(ops: seq<Op>, span: nat): Store {
    if |ops| == 0 then map[]
    else
      var before := StoreAfter(ops[..|ops| - 1], span);
      match ops[|ops| - 1]
      case Request(key, now) => before[key := Bumped(before, key, now, span)]
      case SweepAt(now) => Swept(before, now)
  }

  /** How many of these are requests of the key at or after a moment. */
  function RequestsSince(ops: seq<Op>, key: Key, since: int): nat {
    if |ops| == 0 then 0
    else
      var last := ops[|ops| - 1];
      RequestsSince(ops[..|ops| - 1], key, since)
        + (if last.Request? && last.key == key && last.now >= since then 1 else 0)
  }

  ghost predicate LastRequestBefore(ops: seq<Op>, key: Key, t: int) {
    forall k :: 0 <= k < |ops| && ops[k].Request? && ops[k].key == key ==> ops[k].now < t
  }

  lemma {:induction false} NoneSince(ops: seq<Op>, key: Key, since: int)
    requires LastRequestBefore(ops, key, since)
    ensures RequestsSince(ops, key, since) == 0
    decreases |ops|
  {
    if |ops| == 0 {
    } else {
      NoneSince(ops[..|ops| - 1], key, since);
    }
  }

  /** A window counts the requests since it began; a key without one has made none since the last moment seen. */
  ghost predicate WindowTrue(ops: seq<Op>, key: Key, store: Store, span: nat) {
    && (key in store ==>
          |ops| > 0 && store[key].resetAt - span <= ops[|ops| - 1].now
            && LastRequestBefore(ops, key, store[key].resetAt)
          && store[key].count == RequestsSince(ops, key, store[key].resetAt - span))
    && (key !in store && |ops| > 0 ==> LastRequestBefore(ops, key, ops[|ops| - 1].now))
  }

  lemma FreshWindow(ops: seq<Op>, key: Key, store: Store, now: int, span: nat)
    requires WindowTrue(ops, key, store, span) && !Live(store, key, now) && ClockNeverGoesBack(ops)
    requires forall k :: 0 <= k < |ops| ==> ops[k].now <= now
    ensures LastRequestBefore(ops, key, now) && RequestsSince(ops, key, now) == 0
  {
    NoneSince(ops, key, now);
  }

  lemma {:induction false} WindowsAreTrue(ops: seq<Op>, key: Key, span: nat)
    requires ClockNeverGoesBack(ops) && span > 0
    ensures WindowTrue(ops, key, StoreAfter(ops, span), span)
    decreases |ops|
  {
    hide RequestsSince;
    if |ops| == 0 {
    } else {
      var n := |ops| - 1;
      var before := StoreAfter(ops[..n], span);
      WindowsAreTrue(ops[..n], key, span);
      match ops[n]
      case Request(k, now) =>
        NextRequest(ops, key, before, span);
      case SweepAt(now) =>
        NextSweep(ops, key, before, span);
    }
  }

  lemma NextRequest(ops: seq<Op>, key: Key, before: Store, span: nat)
    requires |ops| > 0 && ops[|ops| - 1].Request? && ClockNeverGoesBack(ops) && span > 0
    requires WindowTrue(ops[..|ops| - 1], key, before, span)
    ensures var last := ops[|ops| - 1];
            WindowTrue(ops, key, before[last.key := Bumped(before, last.key, last.now, span)], span)
  {
    var n := |ops| - 1;
    var last := ops[n];
    if last.key == key && !Live(before, key, last.now) {
      FreshWindow(ops[..n], key, before, last.now, span);
    }
  }

  lemma NextSweep(ops: seq<Op>, key: Key, before: Store, span: nat)
    requires |ops| > 0 && ops[|ops| - 1].SweepAt? && ClockNeverGoesBack(ops)
    requires WindowTrue(ops[..|ops| - 1], key, before, span)
    ensures WindowTrue(ops, key, Swept(before, ops[|ops| - 1].now), span)
  {
  }

  /**
   * Every count told, sweeper or no sweeper, is the number of the key's requests since its window began,
   * this one included.
   */
  lemma CountsAreTrue(ops: seq<Op>, key: Key, now: int, span: nat)
    requires ClockNeverGoesBack(ops + [Request(key, now)]) && span > 0
    ensures var window := Bumped(StoreAfter(ops, span), key, now, span);
            window.count == RequestsSince(ops + [Request(key, now)], key, window.resetAt - span)
            && window.resetAt - span <= now < window.resetAt
  {
    var all := ops + [Request(key, now)];
    assert all[..|all| - 1] == ops;
    WindowsAreTrue(all, key, span);
    assert LastRequestBefore(all, key, StoreAfter(all, span)[key].resetAt);
    assert all[|ops|] == Request(key, now);
  }

  /** The totals a request is told: its minute's and its day's, by the clock. */
  lemma TotalsAreTrue(ops: seq<Op>, key: Key, now: int)
    requires ClockNeverGoesBack(ops + [Request(key, now)])
    ensures var stores := Stores(StoreAfter(ops, 60_000), StoreAfter(ops, 86_400_000));
            var (after, counts) := Counted(stores, key, now);
            var all := ops + [Request(key, now)];
            && counts.minute == RequestsSince(all, key, counts.minuteResetAt - 60_000)
            && now < counts.minuteResetAt <= now + 60_000
            && key in after.day && now < after.day[key].resetAt <= now + 86_400_000
            && counts.day == RequestsSince(all, key, after.day[key].resetAt - 86_400_000)
            && after == Stores(StoreAfter(all, 60_000), StoreAfter(all, 86_400_000))
  {
    hide Bumped, RequestsSince, StoreAfter;
    AfterRequest(ops, key, now, 60_000);
    AfterRequest(ops, key, now, 86_400_000);
    CountsAreTrue(ops, key, now, 60_000);
    CountsAreTrue(ops, key, now, 86_400_000);
  }

  lemma AfterRequest(ops: seq<Op>, key: Key, now: int, span: nat)
    ensures StoreAfter(ops + [Request(key, now)], span)
            == StoreAfter(ops, span)[key := Bumped(StoreAfter(ops, span), key, now, span)]
  {
    var all := ops + [Request(key, now)];
    assert all[..|all| - 1] == ops && all[|all| - 1] == Request(key, now);
    hide Bumped;
  }
}
