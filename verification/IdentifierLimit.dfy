/**
 * How often one address may be asked for a sign-in link (packages/auth/src/identifier-limit.ts): a
 * bounded map of counting windows that forgets its oldest entry when full. The clock is a parameter.
 */
module IdentifierLimit {
  import opened Windows
  import Text

  datatype Options = Options(max: int, windowMs: nat, maxEntries: nat)

  const DEFAULTS := Options(5, 60_000, 10_000)

  /** A JavaScript map: its keys in insertion order, which setting an existing key does not change. */
  datatype Held = Held(order: seq<Key>, windows: Store)

  ghost predicate Valid(h: Held) {
    && (forall key :: key in h.windows <==> key in h.order)
    && (forall i, j :: 0 <= i < j < |h.order| ==> h.order[i] != h.order[j])
    && (forall key :: key in h.windows ==> h.windows[key].count >= 1)
  }

  /** Same address, different spelling, same counter. */
  function KeyFor(sha256: string -> string, identifier: string): Key {
    sha256(Text.Lower(Text.Trim(identifier)))
  }

  // ------------------------------------------------------------------ //
  // The bounded limiter
  // ------------------------------------------------------------------ //

  /** The keys a sweep leaves, in order. */
  function SweptOrder(order: seq<Key>, windows: Store, at: int): (kept: seq<Key>)
    ensures |kept| <= |order|
  {
    if |order| == 0 then []
    else
      var before := SweptOrder(order[..|order| - 1], windows, at);
      if Live(windows, order[|order| - 1], at) then before + [order[|order| - 1]] else before
  }

  function SweptHeld(h: Held, at: int): Held {
    Held(SweptOrder(h.order, h.windows, at), Swept(h.windows, at))
  }

  /** Still full after the sweep: the first key, which is the oldest, goes. */
  function Evicted(h: Held, maxEntries: nat): Held {
    if |h.order| >= maxEntries && |h.order| > 0 then Held(h.order[1..], h.windows - {h.order[0]}) else h
  }

  function WithRoom(h: Held, at: int, o: Options): Held {
    if |h.order| >= o.maxEntries then Evicted(SweptHeld(h, at), o.maxEntries) else h
  }

  function Put(h: Held, key: Key, window: Window): Held {
    Held(if key in h.windows then h.order else h.order + [key], h.windows[key := window])
  }

  function Take(h: Held, key: Key, at: int, o: Options): (Held, bool) {
    if Live(h.windows, key, at) then
      var window := h.windows[key];
      if window.count >= o.max then (h, false)
      else (h.(windows := h.windows[key := window.(count := window.count + 1)]), true)
    else (Put(WithRoom(h, at, o), key, Window(1, at + o.windowMs)), true)
  }

  class Limiter {
    const options: Options
    const sha256: string -> string
    var order: seq<Key>
    var windows: Store

    ghost function View(): Held
      reads this
    {
      Held(order, windows)
    }

    constructor (options: Options, sha256: string -> string)
      ensures View() == Held([], map[]) && Valid(View())
      ensures this.options == options && this.sha256 == sha256
    {
      this.options := options;
      this.sha256 := sha256;
      order, windows := [], map[];
    }

    method Sweep(at: int)
      requires Valid(View())
      modifies this
      ensures View() == SweptHeld(old(View()), at)
    {
      var keys, entries, kept := order, windows, [];
      AllSwept(entries, keys, at);
      for i := 0 to |keys|
        invariant order == keys && kept == SweptOrder(keys[..i], entries, at)
        invariant windows == LeftAfter(entries, keys[..i], at)
      {
        NextSwept(entries, keys, i, at);
        if entries[keys[i]].resetAt <= at {
          windows := windows - {keys[i]};
        } else {
          kept := kept + [keys[i]];
        }
      }
      assert keys[..|keys|] == keys;
      order := kept;
    }

    /** One request: whether it is within the allowance. */
    method TakeOne(identifier: string, at: int) returns (allowed: bool)
      requires Valid(View())
      modifies this
      ensures Valid(View())
      ensures (View(), allowed) == Take(old(View()), KeyFor(sha256, identifier), at, options)
    {
      hide SweptOrder, Swept, Valid, KeyFor;
      var key := KeyFor(sha256, identifier);
      TakeKeepsValid(View(), key, at, options);
      if key in windows && windows[key].resetAt > at {
        if windows[key].count >= options.max { return false; }
        windows := windows[key := windows[key].(count := windows[key].count + 1)];
        return true;
      }
      if |order| >= options.maxEntries {
        Sweep(at);
        if |order| >= options.maxEntries && |order| > 0 {
          windows := windows - {order[0]};
          order := order[1..];
        }
      }
      if key !in windows { order := order + [key]; }
      windows := windows[key := Window(1, at + options.windowMs)];
      allowed := true;
    }
  }

  /** The entries once these keys have been visited. */
  function LeftAfter(entries: Store, visited: seq<Key>, at: int): Store {
    map key | key in entries && (key !in visited || entries[key].resetAt > at) :: entries[key]
  }

  lemma NextSwept(entries: Store, keys: seq<Key>, i: nat, at: int)
    requires i < |keys| && keys[i] in entries
    ensures var left := LeftAfter(entries, keys[..i], at);
            LeftAfter(entries, keys[..i + 1], at) == if entries[keys[i]].resetAt <= at then left - {keys[i]} else left
    ensures SweptOrder(keys[..i + 1], entries, at)
            == SweptOrder(keys[..i], entries, at) + (if entries[keys[i]].resetAt <= at then [] else [keys[i]])
  {
    assert keys[..i + 1][..i] == keys[..i];
    assert forall key :: key in keys[..i + 1] <==> key in keys[..i] || key == keys[i] by {
      assert keys[..i + 1] == keys[..i] + [keys[i]];
    }
  }

  lemma AllSwept(entries: Store, keys: seq<Key>, at: int)
    requires forall key :: key in entries <==> key in keys
    ensures LeftAfter(entries, keys, at) == Swept(entries, at) && LeftAfter(entries, keys[..0], at) == entries
  {
  }

  lemma {:induction false} SweptOrderFacts(order: seq<Key>, windows: Store, at: int)
    requires forall i, j :: 0 <= i < j < |order| ==> order[i] != order[j]
    ensures var kept := SweptOrder(order, windows, at);
            && (forall key :: key in kept <==> key in order && Live(windows, key, at))
            && (forall i, j :: 0 <= i < j < |kept| ==> kept[i] != kept[j])
    decreases |order|
  {
    hide Live;
    if |order| == 0 {
    } else {
      var n := |order| - 1;
      SweptOrderFacts(order[..n], windows, at);
      assert order == order[..n] + [order[n]];
      assert order[n] !in order[..n];
    }
  }

  lemma SweptIsValid(h: Held, at: int)
    requires Valid(h)
    ensures Valid(SweptHeld(h, at))
  {
    SweptOrderFacts(h.order, h.windows, at);
    hide SweptOrder;
  }

  function AtLeastOne(n: int): int {
    if n < 1 then 1 else n
  }

  lemma EvictedIsValid(h: Held, maxEntries: nat)
    requires Valid(h)
    ensures Valid(Evicted(h, maxEntries))
    ensures |h.order| <= AtLeastOne(maxEntries) ==> |Evicted(h, maxEntries).order| < AtLeastOne(maxEntries)
  {
    if |h.order| >= maxEntries && |h.order| > 0 {
      assert h.order == [h.order[0]] + h.order[1..];
    }
  }

  lemma PutIsValid(h: Held, key: Key, window: Window)
    requires Valid(h) && window.count >= 1
    ensures Valid(Put(h, key, window)) && |Put(h, key, window).order| <= |h.order| + 1
    ensures key in h.windows ==> |Put(h, key, window).order| == |h.order|
  {
  }

  lemma TakeKeepsValid(h: Held, key: Key, at: int, o: Options)
    requires Valid(h)
    ensures Valid(Take(h, key, at, o).0)
    ensures |h.order| <= AtLeastOne(o.maxEntries) ==> |Take(h, key, at, o).0.order| <= AtLeastOne(o.maxEntries)
  {
    hide SweptOrder, Swept, Put, Evicted;
    if !Live(h.windows, key, at) {
      hide Valid;
      SweptIsValid(h, at);
      EvictedIsValid(SweptHeld(h, at), o.maxEntries);
      PutIsValid(WithRoom(h, at, o), key, Window(1, at + o.windowMs));
    }
  }

  // ------------------------------------------------------------------ //
  // Runs
  // ------------------------------------------------------------------ //

  datatype Call = Call(key: Key, at: int)

  ghost predicate ClockNeverGoesBack(calls: seq<Call>) {
    forall i, j :: 0 <= i < j < |calls| ==> calls[i].at <= calls[j].at
  }

  ghost predicate From(calls: seq<Call>, at: int) {
    ClockNeverGoesBack(calls) && forall k :: 0 <= k < |calls| ==> at <= calls[k].at
  }

  function HeldAfter(h: Held, calls: seq<Call>, o: Options): Held
    decreases |calls|
  {
    if |calls| == 0 then h else HeldAfter(Take(h, calls[0].key, calls[0].at, o).0, calls[1..], o)
  }

  function Answers(h: Held, calls: seq<Call>, o: Options): seq<bool>
    decreases |calls|
  {
    if |calls| == 0 then []
    else var (after, allowed) := Take(h, calls[0].key, calls[0].at, o); [allowed] + Answers(after, calls[1..], o)
  }

  const EMPTY := Held([], map[])

  /** In every run, whatever is asked and whatever the clock does, at most `maxEntries` entries, or one. */
  lemma {:induction false} RunStaysSmall(h: Held, calls: seq<Call>, o: Options)
    requires Valid(h) && |h.order| <= AtLeastOne(o.maxEntries)
    ensures Valid(HeldAfter(h, calls, o)) && |HeldAfter(h, calls, o).order| <= AtLeastOne(o.maxEntries)
    decreases |calls|
  {
    hide Take;
    if |calls| == 0 {
    } else {
      TakeKeepsValid(h, calls[0].key, calls[0].at, o);
      RunStaysSmall(Take(h, calls[0].key, calls[0].at, o).0, calls[1..], o);
    }
  }

  /** The same from the start; and `maxEntries` itself is a bound exactly when at least one is allowed. */
  lemma BoundedIff(o: Options)
    ensures forall calls :: |HeldAfter(EMPTY, calls, o).order| <= AtLeastOne(o.maxEntries)
    ensures (forall calls :: |HeldAfter(EMPTY, calls, o).order| <= o.maxEntries) <==> o.maxEntries >= 1
  {
    forall calls
      ensures |HeldAfter(EMPTY, calls, o).order| <= AtLeastOne(o.maxEntries)
    {
      RunStaysSmall(EMPTY, calls, o);
    }
    if o.maxEntries < 1 {
      var calls := [Call("", 0)];
      assert HeldAfter(EMPTY, calls, o) == HeldAfter(Take(EMPTY, "", 0, o).0, calls[1..], o);
      assert |HeldAfter(EMPTY, calls, o).order| == 1;
    }
  }

  // ------------------------------------------------------------------ //
  // The unbounded counter
  // ------------------------------------------------------------------ //

  /** One fixed window per identifier, never forgotten while it lasts. */
  function Counter(u: Store, key: Key, at: int, o: Options): (Store, bool) {
    if Live(u, key, at) then
      if u[key].count >= o.max then (u, false) else (u[key := u[key].(count := u[key].count + 1)], true)
    else (u[key := Window(1, at + o.windowMs)], true)
  }

  function CounterAnswers(u: Store, calls: seq<Call>, o: Options): seq<bool>
    decreases |calls|
  {
    if |calls| == 0 then []
    else
      var (after, allowed) := Counter(u, calls[0].key, calls[0].at, o);
      [allowed] + CounterAnswers(after, calls[1..], o)
  }

  /** The map is full of live entries when a new one comes. */
  predicate EvictsLive(h: Held, key: Key, at: int, o: Options) {
    !Live(h.windows, key, at) && |h.order| >= o.maxEntries && |SweptOrder(h.order, h.windows, at)| >= o.maxEntries
    && |SweptOrder(h.order, h.windows, at)| > 0
  }

  predicate NeverEvictsLive(h: Held, calls: seq<Call>, o: Options)
    decreases |calls|
  {
    |calls| == 0
    || (!EvictsLive(h, calls[0].key, calls[0].at, o)
        && NeverEvictsLive(Take(h, calls[0].key, calls[0].at, o).0, calls[1..], o))
  }

  lemma PutAgrees(a: Store, b: Store, key: Key, at: int, window: Window)
    requires Agree(a, b, at)
    ensures Agree(a[key := window], b[key := window], at)
  {
    var a', b' := a[key := window], b[key := window];
    forall k ensures AgreeOn(a', b', k, at) {
      assert AgreeOn(a, b, k, at);
    }
  }

  lemma TakeAgrees(h: Held, u: Store, key: Key, at: int, o: Options)
    requires Valid(h) && Agree(h.windows, u, at) && !EvictsLive(h, key, at, o)
    ensures Take(h, key, at, o).1 == Counter(u, key, at, o).1
    ensures Agree(Take(h, key, at, o).0.windows, Counter(u, key, at, o).0, at)
  {
    hide SweptOrder, Swept, Agree;
    assert AgreeOn(h.windows, u, key, at) by { AgreesOnKey(h.windows, u, key, at); }
    if Live(h.windows, key, at) {
      PutAgrees(h.windows, u, key, at, u[key].(count := u[key].count + 1));
    } else {
      SweepAgrees(h.windows, u, at);
      PutAgrees(WithRoom(h, at, o).windows, u, key, at, Window(1, at + o.windowMs));
    }
  }

  lemma AgreesOnKey(a: Store, b: Store, key: Key, at: int)
    requires Agree(a, b, at)
    ensures AgreeOn(a, b, key, at)
  {
  }

  /** On every run that evicts no live entry the limiter answers exactly like the unbounded counter. */
  lemma {:induction false} AnswersLikeUnbounded(h: Held, u: Store, calls: seq<Call>, at: int, o: Options)
    requires Valid(h) && Agree(h.windows, u, at) && From(calls, at) && NeverEvictsLive(h, calls, o)
    ensures Answers(h, calls, o) == CounterAnswers(u, calls, o)
    decreases |calls|
  {
    hide Take, Counter, EvictsLive, Agree;
    if |calls| == 0 {
    } else {
      var call := calls[0];
      AgreeLater(h.windows, u, at, call.at);
      TakeAgrees(h, u, call.key, call.at, o);
      TakeKeepsValid(h, call.key, call.at, o);
      AnswersLikeUnbounded(Take(h, call.key, call.at, o).0, Counter(u, call.key, call.at, o).0, calls[1..], call.at, o);
    }
  }

  // ------------------------------------------------------------------ //
  // When a live entry is evicted
  // ------------------------------------------------------------------ //

  function Repeated(key: Key, at: int, n: nat): seq<Call> {
    if n == 0 then [] else [Call(key, at)] + Repeated(key, at, n - 1)
  }

  lemma {:induction false} LimiterGrants(h: Held, key: Key, at: int, n: nat, o: Options)
    requires Live(h.windows, key, at) && h.windows[key].count + n <= o.max
    ensures var answers := Answers(h, Repeated(key, at, n), o); |answers| == n && forall k :: 0 <= k < n ==> answers[k]
    decreases n
  {
    if n == 0 {
    } else {
      assert Repeated(key, at, n)[1..] == Repeated(key, at, n - 1);
      LimiterGrants(Take(h, key, at, o).0, key, at, n - 1, o);
    }
  }

  lemma {:induction false} CounterRefuses(u: Store, key: Key, at: int, n: nat, o: Options)
    requires Live(u, key, at) && n > 0 && u[key].count + n > o.max
    ensures false in CounterAnswers(u, Repeated(key, at, n), o)
    decreases n
  {
    var calls := Repeated(key, at, n);
    assert calls[1..] == Repeated(key, at, n - 1);
    var (after, allowed) := Counter(u, key, at, o);
    var answers := CounterAnswers(u, calls, o);
    assert answers == [allowed] + CounterAnswers(after, calls[1..], o);
    if allowed {
      CounterRefuses(after, key, at, n - 1, o);
      assert answers[1..] == CounterAnswers(after, calls[1..], o);
    } else {
      assert answers[0] == false;
    }
  }

  /** The victim is gone from the map while its window still runs. */
  lemma Victim(h: Held, u: Store, key: Key, at: int, o: Options) returns (victim: Key)
    requires Valid(h) && Agree(h.windows, u, at) && EvictsLive(h, key, at, o)
    ensures victim !in Take(h, key, at, o).0.windows
    ensures Live(u, victim, at) && victim != key && Counter(u, key, at, o).0 == u[key := Window(1, at + o.windowMs)]
  {
    hide Agree;
    SweptOrderFacts(h.order, h.windows, at);
    victim := SweptOrder(h.order, h.windows, at)[0];
    assert victim in SweptOrder(h.order, h.windows, at);
    hide SweptOrder, Valid;
    AgreesOnKey(h.windows, u, victim, at);
    AgreesOnKey(h.windows, u, key, at);
  }

  /** Evicting a live entry does show: its identifier can then be asked for more than the counter would grant. */
  lemma LiveEvictionShows(h: Held, u: Store, key: Key, at: int, o: Options)
    requires Valid(h) && Agree(h.windows, u, at) && EvictsLive(h, key, at, o) && o.windowMs > 0
    ensures exists victim, n: nat ::
              Answers(h, [Call(key, at)] + Repeated(victim, at, n), o)
              != CounterAnswers(u, [Call(key, at)] + Repeated(victim, at, n), o)
  {
    var victim := Victim(h, u, key, at, o);
    var count := u[victim].count;
    var n: nat := if count < o.max then o.max - count + 1 else 1;
    CountsArePositive(h, u, victim, at);
    var h', u' := Take(h, key, at, o).0, Counter(u, key, at, o).0;
    FreshGrants(h', victim, at, n, o);
    CounterRefuses(u', victim, at, n, o);
    hide *;
    FirstCallDiffers(h, u, Call(key, at), Repeated(victim, at, n), o);
  }

  lemma CountsArePositive(h: Held, u: Store, key: Key, at: int)
    requires Valid(h) && Agree(h.windows, u, at) && Live(u, key, at)
    ensures u[key].count >= 1
  {
    AgreesOnKey(h.windows, u, key, at);
  }

  lemma FirstCallDiffers(h: Held, u: Store, call: Call, rest: seq<Call>, o: Options)
    requires false !in Answers(Take(h, call.key, call.at, o).0, rest, o)
    requires false in CounterAnswers(Counter(u, call.key, call.at, o).0, rest, o)
    ensures Answers(h, [call] + rest, o) != CounterAnswers(u, [call] + rest, o)
  {
    hide Take, Counter;
    assert ([call] + rest)[1..] == rest;
    assert Answers(h, [call] + rest, o)[1..] == Answers(Take(h, call.key, call.at, o).0, rest, o);
    assert CounterAnswers(u, [call] + rest, o)[1..] == CounterAnswers(Counter(u, call.key, call.at, o).0, rest, o);
  }

  lemma FreshGrants(h: Held, key: Key, at: int, n: nat, o: Options)
    requires key !in h.windows && o.windowMs > 0 && n > 0 && (n == 1 || n <= o.max)
    ensures false !in Answers(h, Repeated(key, at, n), o)
  {
    hide WithRoom;
    var h' := Take(h, key, at, o).0;
    assert Repeated(key, at, n)[1..] == Repeated(key, at, n - 1);
    if n > 1 {
      LimiterGrants(h', key, at, n - 1, o);
    }
  }

  // ------------------------------------------------------------------ //
  // How much one identifier can get
  // ------------------------------------------------------------------ //

  /** Grants to one key within [t, t + span). */
  function Granted(calls: seq<Call>, answers: seq<bool>, key: Key, t: int, span: nat): nat
    requires |calls| == |answers|
  {
    if |calls| == 0 then 0
    else (if calls[0].key == key && answers[0] && t <= calls[0].at < t + span then 1 else 0)
         + Granted(calls[1..], answers[1..], key, t, span)
  }

  lemma {:induction false} NoneAfterSpan(calls: seq<Call>, answers: seq<bool>, key: Key, t: int, span: nat)
    requires |calls| == |answers| && From(calls, t + span)
    ensures Granted(calls, answers, key, t, span) == 0
    decreases |calls|
  {
    if |calls| == 0 {
    } else {
      NoneAfterSpan(calls[1..], answers[1..], key, t, span);
    }
  }

  function Most(o: Options): int {
    AtLeastOne(o.max)
  }

  /** What the span can still hold for a key, given its window. */
  function Budget(u: Store, key: Key, t: int, o: Options): int {
    if key !in u || u[key].resetAt <= t then 2 * Most(o)
    else if u[key].resetAt <= t + o.windowMs then 2 * Most(o) - u[key].count
    else Most(o) - u[key].count
  }

  lemma {:induction false} CounterAnswersLength(u: Store, calls: seq<Call>, o: Options)
    ensures |CounterAnswers(u, calls, o)| == |calls|
    decreases |calls|
  {
    if |calls| == 0 {
    } else {
      CounterAnswersLength(Counter(u, calls[0].key, calls[0].at, o).0, calls[1..], o);
    }
  }

  lemma {:induction false} GrantsWithinBudget(u: Store, calls: seq<Call>, key: Key, t: int, at: int, o: Options)
    requires From(calls, at) && (key in u ==> 1 <= u[key].count <= Most(o))
    ensures |CounterAnswers(u, calls, o)| == |calls|
    ensures Granted(calls, CounterAnswers(u, calls, o), key, t, o.windowMs) <= Budget(u, key, t, o)
    decreases |calls|
  {
    CounterAnswersLength(u, calls, o);
    if |calls| == 0 {
    } else {
      var call := calls[0];
      var answers := CounterAnswers(u, calls, o);
      if call.at >= t + o.windowMs {
        assert From(calls, t + o.windowMs);
        NoneAfterSpan(calls, answers, key, t, o.windowMs);
      } else {
        var (after, allowed) := Counter(u, call.key, call.at, o);
        assert answers[1..] == CounterAnswers(after, calls[1..], o);
        GrantsWithinBudget(after, calls[1..], key, t, call.at, o);
      }
    }
  }

  /** At most twice the allowance in any span as long as a window, on every run that evicts no live entry. */
  lemma AtMostTwiceTheAllowance(calls: seq<Call>, key: Key, t: int, o: Options)
    requires ClockNeverGoesBack(calls) && NeverEvictsLive(EMPTY, calls, o)
    ensures |Answers(EMPTY, calls, o)| == |calls|
    ensures Granted(calls, Answers(EMPTY, calls, o), key, t, o.windowMs) <= 2 * Most(o)
  {
    var at := if |calls| > 0 then calls[0].at else 0;
    AnswersLikeUnbounded(EMPTY, map[], calls, at, o);
    GrantsWithinBudget(map[], calls, key, t, at, o);
  }

  ghost predicate WithinTwice(calls: seq<Call>, key: Key, t: int, o: Options) {
    ClockNeverGoesBack(calls) && NeverEvictsLive(EMPTY, calls, o) ==>
      |Answers(EMPTY, calls, o)| == |calls| && Granted(calls, Answers(EMPTY, calls, o), key, t, o.windowMs) <= 2 * o.max
  }

  /** A first call is always granted, so an allowance of nothing still lets one call through per window. */
  lemma FirstCallIsGranted(key: Key, o: Options)
    requires o.windowMs > 0
    ensures var calls := [Call(key, 0)];
            && ClockNeverGoesBack(calls) && NeverEvictsLive(EMPTY, calls, o)
            && |Answers(EMPTY, calls, o)| == 1 && Granted(calls, Answers(EMPTY, calls, o), key, 0, o.windowMs) == 1
  {
    var calls := [Call(key, 0)];
    assert calls[1..] == [];
    var (after, allowed) := Take(EMPTY, key, 0, o);
    assert allowed && Answers(after, [], o) == [];
    assert Answers(EMPTY, calls, o) == [true] + Answers(after, calls[1..], o);
    assert Answers(EMPTY, calls, o)[1..] == [];
    hide Answers;
  }

  /** At most twice `max`, in every run without live evictions, exactly when `max` is at least one. */
  lemma TwiceMaxIff(o: Options)
    requires o.windowMs > 0
    ensures (forall calls, key, t :: WithinTwice(calls, key, t, o)) <==> o.max >= 1
  {
    hide Answers, NeverEvictsLive, Granted;
    if o.max >= 1 {
      forall calls, key, t ensures WithinTwice(calls, key, t, o) {
        if ClockNeverGoesBack(calls) && NeverEvictsLive(EMPTY, calls, o) { AtMostTwiceTheAllowance(calls, key, t, o); }
      }
    } else {
      FirstCallIsGranted("someone", o);
      assert !WithinTwice([Call("someone", 0)], "someone", 0, o);
    }
  }

  /** As it is set up: at most ten attempts a minute for one identifier, while no live one is evicted. */
  lemma AtMostTenAMinute(calls: seq<Call>, key: Key, t: int)
    requires ClockNeverGoesBack(calls) && NeverEvictsLive(EMPTY, calls, DEFAULTS)
    ensures |Answers(EMPTY, calls, DEFAULTS)| == |calls|
    ensures Granted(calls, Answers(EMPTY, calls, DEFAULTS), key, t, 60_000) <= 10
  {
    AtMostTwiceTheAllowance(calls, key, t, DEFAULTS);
    hide Answers, Granted, NeverEvictsLive;
  }
}
