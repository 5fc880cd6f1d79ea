/**
 * The commit-reveal shuffle: rejection sampling over a byte stream driving an in-place
 * Fisher-Yates walk (packages/core/src/fairness.ts).
 *
 * The HMAC stream is an arbitrary sequence of bytes. A run only ever reads a finite prefix of it,
 * so the stream is a finite sequence, and running off its end is the source's `byte stream ended`
 * error; `MoreStreamSameOrder` says that a run which succeeded never depends on what follows.
 */
module Shuffle {
  import opened Arith
  import opened Bytes
  import opened Wrappers

  datatype ShuffleError = BadCount | MissingSeed | TooLong | StreamEnded

  /** `Array.from` throws a range error for a longer array. */
  const MAX_ARRAY_LENGTH: nat := 0xFFFF_FFFF

  // ------------------------------------------------------------------ //
  // Rejection sampling
  // ------------------------------------------------------------------ //

  /** How many 32-bit words there are. */
  const WORDS: nat := 0x1_0000_0000

  /** Words at or above this are rejected: the largest multiple of `bound` not above `WORDS`. */
  function Limit(bound: nat): nat
    requires bound > 0
  {
    WORDS / bound * bound
  }

  /** The number written by these bytes, most significant first. */
  function BigEndian(bytes: seq<Byte>): nat {
    if |bytes| == 0 then 0 else BigEndian(bytes[..|bytes| - 1]) * 256 + bytes[|bytes| - 1] as int
  }

  function Word(stream: seq<Byte>, pos: nat): nat
    requires pos + 4 <= |stream|
  {
    BigEndian(stream[pos..pos + 4])
  }

  /** The first accepted word from `pos` on, and the position after it; None if the stream ends first. */
  function NextAccepted(stream: seq<Byte>, pos: nat, bound: nat): Option<(nat, nat)>
    requires bound > 0
    decreases |stream| - pos
  {
    if |stream| < pos + 4 then None
    else if Word(stream, pos) < Limit(bound) then Some((Word(stream, pos), pos + 4))
    else NextAccepted(stream, pos + 4, bound)
  }

  /** The number in the four bytes k words after `start`, the first byte most significant. */
  ghost function NumberAt(stream: seq<Byte>, start: nat, k: nat): nat
    requires start + 4 * k + 4 <= |stream|
  {
    var at := start + 4 * k;
    stream[at] as int * 0x100_0000 + stream[at + 1] as int * 0x1_0000 + stream[at + 2] as int * 0x100
    + stream[at + 3] as int
  }

  /** That number is the first from `start` on that can be reduced below `bound` without a bias. */
  ghost predicate FirstAcceptedAt(stream: seq<Byte>, start: nat, bound: nat, k: nat)
    requires bound > 0
  {
    && start + 4 * k + 4 <= |stream|
    && NumberAt(stream, start, k) < 0x1_0000_0000 / bound * bound
    && forall j: nat :: j < k ==> NumberAt(stream, start, j) >= 0x1_0000_0000 / bound * bound
  }

  lemma WordIsNumber(stream: seq<Byte>, start: nat, k: nat)
    requires start + 4 * k + 4 <= |stream|
    ensures Word(stream, start + 4 * k) == NumberAt(stream, start, k)
  {
    var at := start + 4 * k;
    var b := stream[at..at + 4];
    assert b[..3][..2][..1] == [b[0]] && b[..3][..2] == [b[0], b[1]] && b[..3] == [b[0], b[1], b[2]];
    assert BigEndian(b[..3][..2][..1]) == b[0] as int;
    assert BigEndian(b[..3][..2]) == b[0] as int * 256 + b[1] as int;
    assert BigEndian(b[..3]) == (b[0] as int * 256 + b[1] as int) * 256 + b[2] as int;
  }

  lemma NumberNext(stream: seq<Byte>, start: nat, j: nat)
    requires j > 0 && start + 4 * j + 4 <= |stream|
    ensures NumberAt(stream, start, j) == NumberAt(stream, start + 4, j - 1)
  {
  }

  /** Four bytes further on, everything is one number nearer. */
  lemma FirstAcceptedNext(stream: seq<Byte>, start: nat, bound: nat, k: nat)
    requires bound > 0 && start + 4 <= |stream| && NumberAt(stream, start, 0) >= 0x1_0000_0000 / bound * bound
    ensures FirstAcceptedAt(stream, start, bound, k) <==> k > 0 && FirstAcceptedAt(stream, start + 4, bound, k - 1)
    ensures FirstAcceptedAt(stream, start, bound, k) ==>
              k > 0 && NumberAt(stream, start, k) == NumberAt(stream, start + 4, k - 1)
  {
    if k > 0 && start + 4 * k + 4 <= |stream| {
      var limit := 0x1_0000_0000 / bound * bound;
      NumberNext(stream, start, k);
      if FirstAcceptedAt(stream, start + 4, bound, k - 1) {
        forall j: nat | j < k ensures NumberAt(stream, start, j) >= limit {
          if j > 0 { NumberNext(stream, start, j); }
        }
      }
      if FirstAcceptedAt(stream, start, bound, k) {
        var next := start + 4;
        forall j: nat | j < k - 1 ensures NumberAt(stream, next, j) >= limit {
          NumberNext(stream, start, j + 1);
        }
      }
    }
  }

  /** What the sampler delivers is the first accepted number of the stream, if there is one. */
  lemma {:induction false} NextAcceptedIff(stream: seq<Byte>, pos: nat, bound: nat)
    requires bound > 0
    ensures NextAccepted(stream, pos, bound).Some? <==> exists k: nat :: FirstAcceptedAt(stream, pos, bound, k)
    ensures forall k: nat :: FirstAcceptedAt(stream, pos, bound, k) ==>
              NextAccepted(stream, pos, bound) == Some((NumberAt(stream, pos, k), pos + 4 * k + 4))
    decreases |stream| - pos
  {
    hide Word, NumberAt;
    if |stream| < pos + 4 {
    } else {
      WordIsNumber(stream, pos, 0);
      if Word(stream, pos) < Limit(bound) {
        assert FirstAcceptedAt(stream, pos, bound, 0);
      } else {
        NextAcceptedIff(stream, pos + 4, bound);
        forall k: nat
          ensures FirstAcceptedAt(stream, pos, bound, k) <==> k > 0 && FirstAcceptedAt(stream, pos + 4, bound, k - 1)
          ensures FirstAcceptedAt(stream, pos, bound, k) ==>
                    k > 0 && NumberAt(stream, pos, k) == NumberAt(stream, pos + 4, k - 1)
        {
          FirstAcceptedNext(stream, pos, bound, k);
        }
        var next := pos + 4;
        if k: nat :| FirstAcceptedAt(stream, next, bound, k) {
          assert k + 1 - 1 == k && FirstAcceptedAt(stream, pos, bound, k + 1);
        }
      }
    }
  }

  /** The generator the source pulls bytes from. */
  class ByteStream {
    const bytes: seq<Byte>
    var pos: nat

    constructor (bytes: seq<Byte>)
      ensures this.bytes == bytes && pos == 0
    {
      this.bytes := bytes;
      pos := 0;
    }

    method Next() returns (next: Option<Byte>)
      modifies this
      ensures old(pos) < |bytes| ==> next == Some(bytes[old(pos)]) && pos == old(pos) + 1
      ensures old(pos) >= |bytes| ==> next == None && pos == old(pos)
    {
      if pos < |bytes| {
        next := Some(bytes[pos]);
        pos := pos + 1;
      } else {
        next := None;
      }
    }
  }

  lemma SliceBefore(bytes: seq<Byte>, start: nat, i: nat)
    requires start + i < |bytes|
    ensures bytes[start..start + i + 1][..i] == bytes[start..start + i]
    ensures bytes[start..start + i + 1][i] == bytes[start + i]
  {
  }

  method RandomBelow(stream: ByteStream, bound: nat) returns (r: Option<nat>)
    requires bound > 0
    modifies stream
    ensures match NextAccepted(stream.bytes, old(stream.pos), bound)
            case None => r == None
            case Some(hit) => r == Some(hit.0 % bound) && stream.pos == hit.1
    ensures r.Some? <==> exists k: nat :: FirstAcceptedAt(stream.bytes, old(stream.pos), bound, k)
    ensures forall k: nat :: FirstAcceptedAt(stream.bytes, old(stream.pos), bound, k) ==>
              && r == Some(NumberAt(stream.bytes, old(stream.pos), k) % bound)
              && stream.pos == old(stream.pos) + 4 * k + 4
  {
    NextAcceptedIff(stream.bytes, stream.pos, bound);
    hide NumberAt, FirstAcceptedAt;
    var limit := WORDS / bound * bound;
    while true
      invariant NextAccepted(stream.bytes, old(stream.pos), bound) == NextAccepted(stream.bytes, stream.pos, bound)
      decreases |stream.bytes| - stream.pos
    {
      var value := 0;
      ghost var start := stream.pos;
      for i := 0 to 4
        invariant stream.pos == start + i && (i > 0 ==> stream.pos <= |stream.bytes|)
        invariant value == if i == 0 then 0 else BigEndian(stream.bytes[start..start + i])
      {
        var next := stream.Next();
        if next == None {
          return None;
        }
        SliceBefore(stream.bytes, start, i);
        value := value * 256 + next.value as int;
      }
      if value < limit {
        return Some(value % bound);
      }
    }
  }

  // ------------------------------------------------------------------ //
  // The Fisher-Yates walk
  // ------------------------------------------------------------------ //

  function Identity(n: nat): (s: seq<nat>)
    ensures |s| == n && forall k :: 0 <= k < n ==> s[k] == k
  {
    seq(n, k => k)
  }

  function Swap(s: seq<nat>, i: nat, j: nat): seq<nat>
    requires i < |s| && j < |s|
  {
    s[i := s[j]][j := s[i]]
  }

  /** One draw for each position from the last down to 1; the draw for position i is at most i. */
  ghost predicate ValidDraws(draws: seq<nat>) {
    forall k :: 0 <= k < |draws| ==> draws[k] <= |draws| - k
  }

  /** What the swaps make of `order`: the first draw is for position `|draws|`, the last for 1. */
  function Walk(order: seq<nat>, draws: seq<nat>): (r: seq<nat>)
    requires |draws| < |order|
    requires forall k :: 0 <= k < |draws| ==> draws[k] <= |draws| - k
    ensures |r| == |order|
    decreases |draws|
  {
    if |draws| == 0 then order else Walk(Swap(order, |draws|, draws[0]), draws[1..])
  }

  /** Accepted words for positions i, i-1, ..., 1, and where reading stopped. */
  function AcceptedWords(stream: seq<Byte>, pos: nat, i: nat): Option<(seq<nat>, nat)>
    decreases i
  {
    if i == 0 then Some(([], pos))
    else match NextAccepted(stream, pos, i + 1)
      case None => None
      case Some((w, next)) =>
        match AcceptedWords(stream, next, i - 1)
        case None => None
        case Some((ws, end)) => Some(([w] + ws, end))
  }

  /** A word sequence the sampler accepts: word k is below the limit for its bound. */
  ghost predicate Accepted(words: seq<nat>) {
    forall k :: 0 <= k < |words| ==> words[k] < Limit(|words| - k + 1)
  }

  /** The draws a sequence of words stands for. */
  function DrawsOf(words: seq<nat>): (draws: seq<nat>)
    ensures |draws| == |words|
    ensures forall k :: 0 <= k < |words| ==> draws[k] == words[k] % (|words| - k + 1)
    ensures forall k :: 0 <= k < |draws| ==> draws[k] <= |draws| - k
  {
    seq(|words|, k requires 0 <= k < |words| => words[k] % (|words| - k + 1))
  }

  /** The order a sequence of accepted words produces. */
  function OrderOf(words: seq<nat>): (order: seq<nat>) {
    Walk(Identity(|words| + 1), DrawsOf(words))
  }

  /** Where the walk ends from this order, with positions i, ..., 1 still to draw. */
  ghost function Outcome(order: seq<nat>, stream: seq<Byte>, pos: nat, i: nat): Option<seq<nat>>
    requires i < |order|
  {
    AcceptedWordsAreAccepted(stream, pos, i);
    match AcceptedWords(stream, pos, i)
    case None => None
    case Some((words, _)) => Some(Walk(order, DrawsOf(words)))
  }

  lemma OutcomeStep(order: seq<nat>, stream: seq<Byte>, pos: nat, i: nat)
    requires 0 < i < |order|
    ensures Outcome(order, stream, pos, i)
            == match NextAccepted(stream, pos, i + 1)
               case None => None
               case Some(hit) => Outcome(Swap(order, i, hit.0 % (i + 1)), stream, hit.1, i - 1)
  {
    AcceptedWordsAreAccepted(stream, pos, i);
    match NextAccepted(stream, pos, i + 1)
    case None =>
    case Some((w, next)) =>
      AcceptedWordsAreAccepted(stream, next, i - 1);
      match AcceptedWords(stream, next, i - 1)
      case None =>
      case Some((ws, end)) =>
        assert DrawsOf([w] + ws)[1..] == DrawsOf(ws);
  }

  function Derived(serverSeed: string, clientSeed: string, count: int, stream: seq<Byte>)
    : Result<seq<nat>, ShuffleError>
  {
    if count < 1 then Err(BadCount)
    else if |serverSeed| == 0 || |clientSeed| == 0 then Err(MissingSeed)
    else if count > MAX_ARRAY_LENGTH then Err(TooLong)
    else match AcceptedWords(stream, 0, count - 1)
      case None => Err(StreamEnded)
      case Some((words, _)) => Ok(OrderOf(words))
  }

  lemma DerivedIsOutcome(serverSeed: string, clientSeed: string, count: int, stream: seq<Byte>)
    requires 1 <= count <= MAX_ARRAY_LENGTH && |serverSeed| > 0 && |clientSeed| > 0
    ensures Derived(serverSeed, clientSeed, count, stream)
            == match Outcome(Identity(count), stream, 0, count - 1)
               case None => Err(StreamEnded)
               case Some(order) => Ok(order)
  {
    AcceptedWordsAreAccepted(stream, 0, count - 1);
  }

  lemma {:induction false} AcceptedWordsAreAccepted(stream: seq<Byte>, pos: nat, i: nat)
    ensures match AcceptedWords(stream, pos, i)
            case None => true
            case Some((words, _)) => |words| == i && Accepted(words)
    decreases i
  {
    if i == 0 {
    } else {
      AcceptedIsBelowLimit(stream, pos, i + 1);
      match NextAccepted(stream, pos, i + 1)
      case None =>
      case Some((w, next)) => AcceptedWordsAreAccepted(stream, next, i - 1);
    }
  }

  lemma {:induction false} AcceptedIsBelowLimit(stream: seq<Byte>, pos: nat, bound: nat)
    requires bound > 0
    ensures match NextAccepted(stream, pos, bound)
            case None => true
            case Some((w, next)) => w < Limit(bound) && pos + 4 <= next <= |stream|
    decreases |stream| - pos
  {
    if |stream| < pos + 4 || Word(stream, pos) < Limit(bound) {
    } else {
      AcceptedIsBelowLimit(stream, pos + 4, bound);
    }
  }

  /** The swap loop, in place on the array the source calls `order`. */
  method ShuffleInPlace(order: array<nat>, stream: ByteStream) returns (ok: bool)
    requires order.Length > 0
    modifies order, stream
    ensures match Outcome(old(order[..]), stream.bytes, old(stream.pos), order.Length - 1)
            case None => !ok
            case Some(result) => ok && order[..] == result
  {
    hide Outcome, NextAccepted;
    var i := order.Length - 1;
    while i > 0
      invariant 0 <= i < order.Length
      invariant Outcome(order[..], stream.bytes, stream.pos, i)
                == Outcome(old(order[..]), stream.bytes, old(stream.pos), order.Length - 1)
      decreases i
    {
      ghost var before := order[..];
      OutcomeStep(before, stream.bytes, stream.pos, i);
      var j := RandomBelow(stream, i + 1);
      if j == None { return false; }
      var a := order[i];
      var b := order[j.value];
      order[i] := b;
      order[j.value] := a;
      assert order[..] == Swap(before, i, j.value);
      i := i - 1;
    }
    OutcomeAtEnd(order[..], stream.bytes, stream.pos);
    ok := true;
  }

  lemma OutcomeAtEnd(order: seq<nat>, stream: seq<Byte>, pos: nat)
    requires |order| > 0
    ensures Outcome(order, stream, pos, 0) == Some(order)
  {
  }

  method DeriveShuffle(serverSeed: string, clientSeed: string, count: int, bytes: seq<Byte>)
    returns (r: Result<seq<nat>, ShuffleError>)
    ensures r == Derived(serverSeed, clientSeed, count, bytes)
  {
    if count < 1 { return Err(BadCount); }
    if |serverSeed| == 0 || |clientSeed| == 0 { return Err(MissingSeed); }
    if count > MAX_ARRAY_LENGTH { return Err(TooLong); }
    var order := new nat[count](k => k);
    var stream := new ByteStream(bytes);
    assert order[..] == Identity(count);
    DerivedIsOutcome(serverSeed, clientSeed, count, bytes);
    hide Outcome, Derived;
    var ok := ShuffleInPlace(order, stream);
    if !ok { return Err(StreamEnded); }
    r := Ok(order[..]);
  }

  datatype Verification = Verification(valid: bool, commitmentMatches: bool, orderMatches: bool)

  /** `derived.every(...)` against the claimed order, and the commitment re-checked. */
  method VerifyShuffle(serverSeed: string, clientSeed: string, commitment: string, claimed: seq<int>,
                       bytes: seq<Byte>, sha256: string -> string)
    returns (r: Result<Verification, ShuffleError>)
    ensures claimed == [] <==> r == Err(BadCount)
    ensures match Derived(serverSeed, clientSeed, |claimed|, bytes)
            case Err(e) => r == Err(e)
            case Ok(order) =>
              && r.Ok? && r.value.commitmentMatches == (sha256(serverSeed) == commitment)
              && r.value.orderMatches == (claimed == order)
              && (r.value.valid <==> r.value.commitmentMatches && r.value.orderMatches)
  {
    var commitmentMatches := sha256(serverSeed) == commitment;
    var derived := DeriveShuffle(serverSeed, clientSeed, |claimed|, bytes);
    if derived.Err? { return Err(derived.error); }
    DerivedIsPermutation(serverSeed, clientSeed, |claimed|, bytes);
    var orderMatches := true;
    for k := 0 to |claimed|
      invariant orderMatches <==> forall m :: 0 <= m < k ==> derived.value[m] == claimed[m]
    {
      orderMatches := orderMatches && derived.value[k] == claimed[k];
    }
    return Ok(Verification(commitmentMatches && orderMatches, commitmentMatches, orderMatches));
  }

  // ------------------------------------------------------------------ //
  // Every order is a permutation, and every permutation is one order
  // ------------------------------------------------------------------ //

  ghost predicate Distinct(s: seq<nat>) {
    forall i, j :: 0 <= i < j < |s| ==> s[i] != s[j]
  }

  ghost function Elements(s: seq<nat>): set<nat> {
    set x | x in s
  }

  ghost predicate IsPermutation(p: seq<nat>, n: nat) {
    |p| == n && Distinct(p) && forall k :: 0 <= k < n ==> p[k] < n
  }

  lemma SwapKeeps(s: seq<nat>, i: nat, j: nat)
    requires i < |s| && j < |s| && Distinct(s)
    ensures Distinct(Swap(s, i, j)) && Elements(Swap(s, i, j)) == Elements(s)
  {
    var t := Swap(s, i, j);
    forall x | x in s ensures x in t {
      var k :| 0 <= k < |s| && s[k] == x;
      assert t[if k == i then j else if k == j then i else k] == x;
    }
  }

  /** The walk only rearranges, and positions above `|draws|` are never touched again. */
  lemma {:induction false} WalkRearranges(order: seq<nat>, draws: seq<nat>)
    requires |draws| < |order| && Distinct(order) && ValidDraws(draws)
    ensures Distinct(Walk(order, draws)) && Elements(Walk(order, draws)) == Elements(order)
    ensures forall k :: |draws| < k < |order| ==> Walk(order, draws)[k] == order[k]
    ensures |draws| > 0 ==> Walk(order, draws)[|draws|] == order[draws[0]]
    decreases |draws|
  {
    if |draws| == 0 {
    } else {
      SwapKeeps(order, |draws|, draws[0]);
      WalkRearranges(Swap(order, |draws|, draws[0]), draws[1..]);
    }
  }

  /** Two draw vectors that give the same order are the same draw vector. */
  lemma {:induction false} WalkIsInjective(order: seq<nat>, d1: seq<nat>, d2: seq<nat>)
    requires |d1| == |d2| < |order| && Distinct(order) && ValidDraws(d1) && ValidDraws(d2)
    requires Walk(order, d1) == Walk(order, d2)
    ensures d1 == d2
    decreases |d1|
  {
    if |d1| == 0 {
    } else {
      WalkRearranges(order, d1);
      WalkRearranges(order, d2);
      assert d1[0] == d2[0];
      SwapKeeps(order, |d1|, d1[0]);
      WalkIsInjective(Swap(order, |d1|, d1[0]), d1[1..], d2[1..]);
      assert d1 == [d1[0]] + d1[1..] && d2 == [d2[0]] + d2[1..];
    }
  }

  /** Any rearrangement that agrees with `order` above i is reached by draws for i, ..., 1. */
  lemma {:induction false} WalkReaches(order: seq<nat>, target: seq<nat>, i: nat) returns (draws: seq<nat>)
    requires i < |order| == |target| && Distinct(order) && Distinct(target)
    requires Elements(order) == Elements(target)
    requires forall k :: i < k < |order| ==> order[k] == target[k]
    ensures |draws| == i && ValidDraws(draws) && Walk(order, draws) == target
    decreases i
  {
    assert target[i] in Elements(target);
    var j :| 0 <= j < |order| && order[j] == target[i];
    assert j <= i;
    if i == 0 {
      draws := [];
      assert order == target;
    } else {
      SwapKeeps(order, i, j);
      var rest := WalkReaches(Swap(order, i, j), target, i - 1);
      draws := [j] + rest;
      assert draws[1..] == rest;
    }
  }

  lemma {:induction false} BoundedDistinctIsEverything(s: set<nat>, n: nat)
    requires forall x :: x in s ==> x < n
    ensures |s| <= n
    ensures |s| == n ==> forall k :: 0 <= k < n ==> k in s
    decreases n
  {
    if n == 0 {
      assert s == {};
    } else {
      BoundedDistinctIsEverything(s - {n - 1}, n - 1);
      if |s| == n {
        assert n - 1 in s;
        forall k | 0 <= k < n ensures k in s {
          assert k == n - 1 || k in s - {n - 1};
        }
      }
    }
  }

  lemma {:induction false} DistinctCardinality(s: seq<nat>)
    requires Distinct(s)
    ensures |Elements(s)| == |s|
    decreases |s|
  {
    if |s| == 0 {
    } else {
      DistinctCardinality(s[1..]);
      assert Elements(s) == {s[0]} + Elements(s[1..]);
    }
  }

  lemma PermutationElements(p: seq<nat>, n: nat)
    requires IsPermutation(p, n)
    ensures Elements(p) == Elements(Identity(n))
  {
    DistinctCardinality(p);
    BoundedDistinctIsEverything(Elements(p), n);
    var id := Identity(n);
    forall x: nat ensures x in Elements(id) <==> x in Elements(p) {
      if x < n { assert id[x] in id; }
    }
  }

  /** One-to-one onto: every permutation has exactly one vector of draws. */
  lemma DrawsOfPermutation(p: seq<nat>, n: nat) returns (draws: seq<nat>)
    requires n >= 1 && IsPermutation(p, n)
    ensures |draws| == n - 1 && ValidDraws(draws) && Walk(Identity(n), draws) == p
    ensures forall d: seq<nat> :: |d| == n - 1 && ValidDraws(d) && Walk(Identity(n), d) == p ==> d == draws
  {
    PermutationElements(p, n);
    draws := WalkReaches(Identity(n), p, n - 1);
    forall d: seq<nat> | |d| == n - 1 && ValidDraws(d) && Walk(Identity(n), d) == p ensures d == draws {
      WalkIsInjective(Identity(n), d, draws);
    }
  }

  lemma WalkIsPermutation(draws: seq<nat>)
    requires ValidDraws(draws)
    ensures IsPermutation(Walk(Identity(|draws| + 1), draws), |draws| + 1)
  {
    var n := |draws| + 1;
    WalkRearranges(Identity(n), draws);
    var r := Walk(Identity(n), draws);
    forall k | 0 <= k < n ensures r[k] < n {
      assert r[k] in Elements(r);
    }
  }

  lemma DerivedIsPermutation(serverSeed: string, clientSeed: string, count: int, bytes: seq<Byte>)
    ensures match Derived(serverSeed, clientSeed, count, bytes)
            case Err(_) => true
            case Ok(order) => count >= 1 && IsPermutation(order, count)
  {
    if count >= 1 {
      AcceptedWordsAreAccepted(bytes, 0, count - 1);
      match AcceptedWords(bytes, 0, count - 1)
      case None =>
      case Some((words, _)) => WalkIsPermutation(DrawsOf(words));
    }
  }

  // ------------------------------------------------------------------ //
  // Uniformity
  // ------------------------------------------------------------------ //

  /** The word with this quotient and remainder. */
  ghost function Nth(bound: nat, q: nat, r: nat): nat {
    MulNonNeg(q, bound);
    q * bound + r
  }

  /** The words below `q * bound` that leave the remainder r. */
  ghost function WordsFor(bound: nat, r: nat, q: nat): (s: set<nat>)
    requires r < bound
  {
    if q == 0 then {} else WordsFor(bound, r, q - 1) + {Nth(bound, q - 1, r)}
  }

  lemma NthIsUnique(bound: nat, q: nat, r: nat, w: nat)
    requires r < bound
    ensures w == Nth(bound, q, r) <==> w / bound == q && w % bound == r
  {
    DivModUnique(q * bound + r, bound, q, r);
    assert w == w / bound * bound + w % bound;
  }

  lemma {:induction false} WordsForMember(bound: nat, r: nat, q: nat, w: nat)
    requires r < bound
    ensures w in WordsFor(bound, r, q) <==> w / bound < q && w % bound == r
    decreases q
  {
    hide Nth;
    if q > 0 {
      WordsForMember(bound, r, q - 1, w);
      NthIsUnique(bound, q - 1, r, w);
    } else {
      DivBelow(w, bound, 0);
    }
  }

  lemma {:induction false} WordsForCount(bound: nat, r: nat, q: nat)
    requires r < bound
    ensures |WordsFor(bound, r, q)| == q
    decreases q
  {
    hide Nth;
    if q == 0 {
    } else {
      WordsForCount(bound, r, q - 1);
      var last := Nth(bound, q - 1, r);
      NthIsUnique(bound, q - 1, r, last);
      WordsForMember(bound, r, q - 1, last);
    }
  }

  /** Every residue has exactly `WORDS / bound` accepted words, and over half of all words are accepted. */
  lemma EveryResidueEquallyLikely(bound: nat, r: nat)
    requires 0 < bound <= WORDS && r < bound
    ensures |WordsFor(bound, r, WORDS / bound)| == WORDS / bound
    ensures forall w: nat :: w in WordsFor(bound, r, WORDS / bound) <==> w < Limit(bound) && w % bound == r
    ensures WORDS < 2 * Limit(bound) && Limit(bound) <= WORDS
  {
    var q := WORDS / bound;
    WordsForCount(bound, r, q);
    forall w: nat ensures w in WordsFor(bound, r, q) <==> w < Limit(bound) && w % bound == r {
      WordsForMember(bound, r, q, w);
      DivBelow(w, bound, q);
    }
    DivBelow(WORDS, bound, 1);
    MulMono(1, q, bound);
    LimitIsWithinWords(bound);
  }

  /** How many accepted word sequences one vector of m draws stands for. */
  ghost function Ways(m: nat): nat {
    if m == 0 then 1
    else Times(WORDS / (m + 1), Ways(m - 1))
  }

  ghost function WithHead(h: nat, tails: set<seq<nat>>): set<seq<nat>> {
    set t | t in tails :: [h] + t
  }

  ghost function Prepend(heads: set<nat>, tails: set<seq<nat>>): set<seq<nat>> {
    set h, t | h in heads && t in tails :: [h] + t
  }

  lemma PrependMember(heads: set<nat>, tails: set<seq<nat>>, x: seq<nat>)
    ensures x in Prepend(heads, tails) <==> |x| > 0 && x[0] in heads && x[1..] in tails
  {
    if |x| > 0 { assert x == [x[0]] + x[1..]; }
    if x in Prepend(heads, tails) {
      var h, t :| h in heads && t in tails && x == [h] + t;
      assert x[1..] == t;
    }
  }

  lemma WithHeadMember(h: nat, tails: set<seq<nat>>, x: seq<nat>)
    ensures x in WithHead(h, tails) <==> |x| > 0 && x[0] == h && x[1..] in tails
  {
    if |x| > 0 { assert x == [x[0]] + x[1..]; }
    if x in WithHead(h, tails) {
      var t :| t in tails && x == [h] + t;
      assert x[1..] == t;
    }
  }

  lemma PrependSplit(h: nat, rest: set<nat>, tails: set<seq<nat>>)
    requires h !in rest
    ensures Prepend(rest + {h}, tails) == WithHead(h, tails) + Prepend(rest, tails)
    ensures WithHead(h, tails) !! Prepend(rest, tails)
  {
    hide Prepend, WithHead;
    forall x ensures x in Prepend(rest + {h}, tails) <==> x in WithHead(h, tails) + Prepend(rest, tails)
             ensures !(x in WithHead(h, tails) && x in Prepend(rest, tails)) {
      PrependMember(rest + {h}, tails, x);
      PrependMember(rest, tails, x);
      WithHeadMember(h, tails, x);
    }
  }

  lemma {:induction false} WithHeadCount(h: nat, tails: set<seq<nat>>)
    ensures |WithHead(h, tails)| == |tails|
    decreases tails
  {
    if tails == {} {
      assert WithHead(h, tails) == {};
    } else {
      var u :| u in tails;
      WithHeadCount(h, tails - {u});
      assert ([h] + u)[1..] == u;
      WithHeadMember(h, tails - {u}, [h] + u);
      forall x ensures x in WithHead(h, tails) <==> x in WithHead(h, tails - {u}) + {[h] + u} {
        WithHeadMember(h, tails, x);
        WithHeadMember(h, tails - {u}, x);
        if |x| > 0 { assert x == [x[0]] + x[1..]; }
      }
      assert WithHead(h, tails) == WithHead(h, tails - {u}) + {[h] + u};
    }
  }

  lemma {:induction false} PrependCount(heads: set<nat>, tails: set<seq<nat>>)
    ensures |Prepend(heads, tails)| == Times(|heads|, |tails|)
    decreases heads
  {
    hide Prepend, WithHead, Times;
    TimesStep(0, |tails|);
    if heads == {} {
      PrependNothing(tails);
    } else {
      var h :| h in heads;
      var rest := heads - {h};
      PrependCount(rest, tails);
      WithHeadCount(h, tails);
      PrependSplit(h, rest, tails);
      assert heads == rest + {h};
      TimesStep(|rest|, |tails|);
    }
  }

  lemma PrependNothing(tails: set<seq<nat>>)
    ensures Prepend({}, tails) == {}
  {
  }

  /** The accepted word sequences whose draws are exactly these. */
  ghost function WordsOfDraws(draws: seq<nat>): set<seq<nat>>
    requires ValidDraws(draws)
    decreases |draws|
  {
    if |draws| == 0 then {[]}
    else Prepend(WordsFor(|draws| + 1, draws[0], WORDS / (|draws| + 1)), WordsOfDraws(draws[1..]))
  }

  ghost predicate GivesDraws(words: seq<nat>, draws: seq<nat>) {
    |words| == |draws| && Accepted(words) && DrawsOf(words) == draws
  }

  lemma {:induction false} WordsOfDrawsExactly(draws: seq<nat>)
    requires ValidDraws(draws) && |draws| < WORDS
    ensures |WordsOfDraws(draws)| == Ways(|draws|)
    ensures forall words: seq<nat> :: words in WordsOfDraws(draws) <==> GivesDraws(words, draws)
    decreases |draws|
  {
    var m := |draws|;
    if m == 0 {
      forall words: seq<nat> ensures words in WordsOfDraws(draws) <==> GivesDraws(words, draws) { }
    } else {
      hide Prepend, WordsFor, GivesDraws, Limit, Times;
      var heads := WordsFor(m + 1, draws[0], WORDS / (m + 1));
      var tails := WordsOfDraws(draws[1..]);
      EveryResidueEquallyLikely(m + 1, draws[0]);
      WordsOfDrawsExactly(draws[1..]);
      PrependCount(heads, tails);
      forall words: seq<nat> ensures words in WordsOfDraws(draws) <==> GivesDraws(words, draws) {
        PrependMember(heads, tails, words);
        GivesDrawsSplit(words, draws);
      }
    }
  }

  lemma GivesDrawsSplit(words: seq<nat>, draws: seq<nat>)
    requires |draws| > 0
    ensures GivesDraws(words, draws) <==>
            && |words| > 0 && words[0] < Limit(|draws| + 1) && words[0] % (|draws| + 1) == draws[0]
            && GivesDraws(words[1..], draws[1..])
  {
    var m := |draws|;
    if |words| > 0 && words[0] < Limit(m + 1) && words[0] % (m + 1) == draws[0] && GivesDraws(words[1..], draws[1..]) {
      forall k | 0 <= k < m
        ensures words[k] < Limit(m - k + 1) && words[k] % (m - k + 1) == draws[k]
      {
        if k > 0 {
          assert words[1..][k - 1] == words[k] && draws[1..][k - 1] == draws[k];
          assert DrawsOf(words[1..])[k - 1] == draws[1..][k - 1];
        }
      }
    }
    if GivesDraws(words, draws) {
      forall k | 0 <= k < m - 1
        ensures words[1..][k] < Limit(m - 1 - k + 1) && words[1..][k] % (m - 1 - k + 1) == draws[1..][k]
      {
        assert words[1..][k] == words[k + 1];
        assert DrawsOf(words)[k + 1] == draws[k + 1];
      }
    }
  }

  /**
   * Every permutation of 0..n-1 is the outcome of the same number of accepted word sequences, and
   * that number does not depend on the permutation.
   */
  lemma EveryPermutationEquallyLikely(p: seq<nat>, n: nat) returns (sources: set<seq<nat>>)
    requires 1 <= n <= WORDS && IsPermutation(p, n)
    ensures forall words: seq<nat> :: words in sources <==> |words| == n - 1 && Accepted(words) && OrderOf(words) == p
    ensures |sources| == Ways(n - 1) && Ways(n - 1) > 0
  {
    var draws := DrawsOfPermutation(p, n);
    WordsOfDrawsExactly(draws);
    sources := WordsOfDraws(draws);
    WaysArePositive(n - 1);
  }

  lemma {:induction false} WaysArePositive(m: nat)
    requires m < WORDS
    ensures Ways(m) > 0
  {
    if m == 0 {
    } else {
      WaysArePositive(m - 1);
      DivBelow(WORDS, m + 1, 1);
      MulNonNeg(WORDS / (m + 1), Ways(m - 1));
    }
  }

  // ------------------------------------------------------------------ //
  // Words and bytes
  // ------------------------------------------------------------------ //

  /** What follows a prefix that was enough changes nothing: the order is a function of the seeds. */
  lemma {:induction false} MoreStreamSameWords(a: seq<Byte>, b: seq<Byte>, pos: nat, i: nat)
    requires AcceptedWords(a, pos, i).Some?
    ensures AcceptedWords(a + b, pos, i) == AcceptedWords(a, pos, i)
    decreases i
  {
    if i == 0 {
    } else {
      MoreStreamSameWord(a, b, pos, i + 1);
      MoreStreamSameWords(a, b, NextAccepted(a, pos, i + 1).value.1, i - 1);
    }
  }

  lemma {:induction false} MoreStreamSameWord(a: seq<Byte>, b: seq<Byte>, pos: nat, bound: nat)
    requires bound > 0 && NextAccepted(a, pos, bound).Some?
    ensures NextAccepted(a + b, pos, bound) == NextAccepted(a, pos, bound)
    decreases |a| - pos
  {
    assert (a + b)[pos..pos + 4] == a[pos..pos + 4];
    if Word(a, pos) < Limit(bound) {
    } else {
      MoreStreamSameWord(a, b, pos + 4, bound);
    }
  }

  lemma MoreStreamSameOrder(serverSeed: string, clientSeed: string, count: int, a: seq<Byte>, b: seq<Byte>)
    requires Derived(serverSeed, clientSeed, count, a) != Err(StreamEnded)
    ensures Derived(serverSeed, clientSeed, count, a + b) == Derived(serverSeed, clientSeed, count, a)
  {
    if count >= 1 && AcceptedWords(a, 0, count - 1).Some? {
      MoreStreamSameWords(a, b, 0, count - 1);
    }
  }

  ghost function Cap(k: nat): nat {
    if k == 0 then 1 else 256 * Cap(k - 1)
  }

  /** The k bytes that write w. */
  function BytesOf(w: nat, k: nat): (bytes: seq<Byte>)
    ensures |bytes| == k
  {
    if k == 0 then [] else BytesOf(w / 256, k - 1) + [w % 256]
  }

  lemma {:induction false} BigEndianOfBytes(w: nat, k: nat)
    requires w < Cap(k)
    ensures BigEndian(BytesOf(w, k)) == w
    decreases k
  {
    if k == 0 {
    } else {
      BigEndianOfBytes(w / 256, k - 1);
      assert BytesOf(w, k)[..k - 1] == BytesOf(w / 256, k - 1);
    }
  }

  lemma WordOfBytes(w: nat, before: seq<Byte>, after: seq<Byte>)
    requires w < WORDS
    ensures Word(before + BytesOf(w, 4) + after, |before|) == w
  {
    assert Cap(4) == 256 * Cap(3) && Cap(3) == 256 * Cap(2) && Cap(2) == 256 * Cap(1) && Cap(1) == 256;
    BigEndianOfBytes(w, 4);
    assert (before + BytesOf(w, 4) + after)[|before|..|before| + 4] == BytesOf(w, 4);
  }

  lemma LimitIsWithinWords(bound: nat)
    requires bound > 0
    ensures Limit(bound) <= WORDS
    ensures WORDS - Limit(bound) < bound
  {
    assert WORDS == WORDS / bound * bound + WORDS % bound;
  }

  /** The first word is under its limit, and the rest are accepted for one place fewer. */
  lemma AcceptedTail(words: seq<nat>)
    requires Accepted(words) && |words| > 0
    ensures words[0] < Limit(|words| + 1) && Limit(|words| + 1) <= WORDS && Accepted(words[1..])
  {
    LimitIsWithinWords(|words| + 1);
    forall k | 0 <= k < |words| - 1 ensures words[1..][k] < Limit(|words| - 1 - k + 1) {
      assert words[1..][k] == words[k + 1];
    }
  }

  /** Every accepted word sequence really is what some stream delivers, word for word. */
  lemma {:induction false} EveryAcceptedSequenceOccurs(words: seq<nat>, before: seq<Byte>) returns (stream: seq<Byte>)
    requires Accepted(words)
    ensures before <= stream
    ensures AcceptedWords(stream, |before|, |words|) == Some((words, |stream|))
    decreases |words|
  {
    if |words| == 0 {
      stream := before;
    } else {
      AcceptedTail(words);
      hide Limit, Accepted, Word, BytesOf;
      var mid := before + BytesOf(words[0], 4);
      stream := EveryAcceptedSequenceOccurs(words[1..], mid);
      WordOfBytes(words[0], before, stream[|mid|..]);
      assert stream == mid + stream[|mid|..];
      assert words == [words[0]] + words[1..];
    }
  }

  /** Some stream finishes the shuffle exactly when it is not refused outright. */
  lemma CanFinishIffAccepted(serverSeed: string, clientSeed: string, count: int)
    ensures (exists stream :: Derived(serverSeed, clientSeed, count, stream).Ok?)
            <==> |serverSeed| > 0 && |clientSeed| > 0 && 1 <= count <= MAX_ARRAY_LENGTH
  {
    if |serverSeed| > 0 && |clientSeed| > 0 && 1 <= count <= MAX_ARRAY_LENGTH {
      var words: seq<nat> := seq(count - 1, _ => 0);
      forall k | 0 <= k < |words| ensures words[k] < Limit(|words| - k + 1) {
        EveryResidueEquallyLikely(|words| - k + 1, 0);
      }
      var stream := EveryAcceptedSequenceOccurs(words, []);
      assert Derived(serverSeed, clientSeed, count, stream).Ok?;
    }
  }

  // ------------------------------------------------------------------ //
  // What a stream of given words deals
  // ------------------------------------------------------------------ //

  /**
   * Dealing from the back: the card drawn goes last, the last card takes its place, and the rest are
   * dealt from what is left.
   */
  ghost function Dealt(cards: seq<nat>, draws: seq<nat>): (order: seq<nat>)
    requires |cards| == |draws| + 1 && ValidDraws(draws)
    ensures |order| == |cards|
    decreases |draws|
  {
    if |draws| == 0 then cards
    else
      var last := |cards| - 1;
      var left := if draws[0] == last then cards[..last] else cards[..last][draws[0] := cards[last]];
      Dealt(left, draws[1..]) + [cards[draws[0]]]
  }

  lemma {:induction false} WalkKeepsTheBack(order: seq<nat>, back: seq<nat>, draws: seq<nat>)
    requires |draws| < |order| && ValidDraws(draws)
    ensures Walk(order + back, draws) == Walk(order, draws) + back
    decreases |draws|
  {
    if |draws| == 0 {
    } else {
      assert Swap(order + back, |draws|, draws[0]) == Swap(order, |draws|, draws[0]) + back;
      WalkKeepsTheBack(Swap(order, |draws|, draws[0]), back, draws[1..]);
    }
  }

  lemma {:induction false} WalkIsDealing(cards: seq<nat>, draws: seq<nat>)
    requires |cards| == |draws| + 1 && ValidDraws(draws)
    ensures Walk(cards, draws) == Dealt(cards, draws)
    decreases |draws|
  {
    if |draws| == 0 {
    } else {
      var last := |cards| - 1;
      var left := if draws[0] == last then cards[..last] else cards[..last][draws[0] := cards[last]];
      assert Swap(cards, last, draws[0]) == left + [cards[draws[0]]];
      WalkKeepsTheBack(left, [cards[draws[0]]], draws[1..]);
      WalkIsDealing(left, draws[1..]);
    }
  }

  predicate AreWords(words: seq<nat>) {
    forall k :: 0 <= k < |words| ==> words[k] < 0x1_0000_0000
  }

  /** The four bytes of a word, the first most significant. */
  function FourBytes(w: nat): (bytes: seq<Byte>)
    requires w < 0x1_0000_0000
    ensures |bytes| == 4
  {
    [w / 0x100_0000, w / 0x1_0000 % 0x100, w / 0x100 % 0x100, w % 0x100]
  }

  function StreamOf(words: seq<nat>): (bytes: seq<Byte>)
    requires AreWords(words)
    ensures |bytes| == 4 * |words|
  {
    if |words| == 0 then [] else FourBytes(words[0]) + StreamOf(words[1..])
  }

  /**
   * What is read for one position, drawn below `bound`: any number of words at or above the largest
   * multiple of `bound` within 2^32, then one below it.
   */
  ghost predicate OneDraw(words: seq<nat>, bound: nat)
    requires bound > 0
  {
    && |words| > 0 && words[|words| - 1] < 0x1_0000_0000 / bound * bound
    && AreWords(words)
    && forall k :: 0 <= k < |words| - 1 ==> words[k] >= 0x1_0000_0000 / bound * bound
  }

  ghost predicate AllDraws(runs: seq<seq<nat>>) {
    forall k :: 0 <= k < |runs| ==> OneDraw(runs[k], |runs| - k + 1)
  }

  function Flat(runs: seq<seq<nat>>): seq<nat> {
    if |runs| == 0 then [] else runs[0] + Flat(runs[1..])
  }

  lemma {:induction false} StreamOfBoth(a: seq<nat>, b: seq<nat>)
    requires AreWords(a) && AreWords(b)
    ensures AreWords(a + b) && StreamOf(a + b) == StreamOf(a) + StreamOf(b)
    decreases |a|
  {
    if |a| == 0 {
      assert a + b == b;
    } else {
      StreamOfBoth(a[1..], b);
      assert (a + b)[1..] == a[1..] + b;
    }
  }

  lemma WordRead(w: nat, before: seq<Byte>, after: seq<Byte>)
    requires w < 0x1_0000_0000
    ensures NumberAt(before + FourBytes(w) + after, |before|, 0) == w
  {
    var stream, bytes, at := before + FourBytes(w) + after, FourBytes(w), |before|;
    assert stream[at] == bytes[0] && stream[at + 1] == bytes[1];
    assert stream[at + 2] == bytes[2] && stream[at + 3] == bytes[3];
    hide FourBytes;
    FourBytesAgain(w);
  }

  lemma FourBytesAgain(w: nat)
    requires w < 0x1_0000_0000
    ensures var b := FourBytes(w);
            b[0] as int * 0x100_0000 + b[1] as int * 0x1_0000 + b[2] as int * 0x100 + b[3] as int == w
  {
    var high := w / 0x1_0000;
    assert w == 0x1_0000 * high + (w / 0x100 % 0x100) * 0x100 + w % 0x100;
    assert high == w / 0x100_0000 * 0x100 + high % 0x100;
  }

  lemma Bracketings(a: seq<Byte>, b: seq<Byte>, c: seq<Byte>, d: seq<Byte>)
    ensures a + (b + c) + d == a + b + (c + d) == a + b + c + d
  {
  }

  /** One draw's words, wherever they stand in a stream. */
  lemma {:induction false} DrawRead(words: seq<nat>, bound: nat, before: seq<Byte>, after: seq<Byte>)
    requires bound > 0 && OneDraw(words, bound)
    ensures NextAccepted(before + StreamOf(words) + after, |before|, bound)
            == Some((words[|words| - 1], |before| + |StreamOf(words)|))
    decreases |words|
  {
    hide NumberAt, FourBytes;
    var first, rest := FourBytes(words[0]), StreamOf(words[1..]);
    Bracketings(before, first, rest, after);
    WordRead(words[0], before, rest + after);
    WordIsNumber(before + first + (rest + after), |before|, 0);
    if |words| == 1 {
    } else {
      DrawRead(words[1..], bound, before + first, after);
    }
  }

  /** The last word of each read: the ones that are used. */
  function Used(runs: seq<seq<nat>>): (words: seq<nat>)
    requires forall k :: 0 <= k < |runs| ==> |runs[k]| > 0
    ensures |words| == |runs| && forall k :: 0 <= k < |runs| ==> words[k] == runs[k][|runs[k]| - 1]
  {
    seq(|runs|, k requires 0 <= k < |runs| => runs[k][|runs[k]| - 1])
  }

  lemma AllDrawsTail(runs: seq<seq<nat>>)
    requires AllDraws(runs) && |runs| > 0
    ensures OneDraw(runs[0], |runs| + 1) && AllDraws(runs[1..])
  {
    hide OneDraw;
    forall k | 0 <= k < |runs| - 1 ensures OneDraw(runs[1..][k], |runs| - 1 - k + 1) {
      assert OneDraw(runs[k + 1], |runs| - (k + 1) + 1);
    }
  }

  lemma {:induction false} DrawsAreWords(runs: seq<seq<nat>>)
    requires AllDraws(runs)
    ensures AreWords(Flat(runs)) && forall k :: 0 <= k < |runs| ==> |runs[k]| > 0
    decreases |runs|
  {
    if |runs| == 0 {
    } else {
      AllDrawsTail(runs);
      DrawsAreWords(runs[1..]);
      assert forall k :: 1 <= k < |runs| ==> runs[k] == runs[1..][k - 1];
    }
  }

  lemma {:induction false} DrawsRead(runs: seq<seq<nat>>, before: seq<Byte>, after: seq<Byte>)
    requires AllDraws(runs)
    ensures AreWords(Flat(runs)) && forall k :: 0 <= k < |runs| ==> |runs[k]| > 0
    ensures var end := |before| + |StreamOf(Flat(runs))|;
            AcceptedWords(before + StreamOf(Flat(runs)) + after, |before|, |runs|) == Some((Used(runs), end))
    decreases |runs|
  {
    DrawsAreWords(runs);
    if |runs| == 0 {
      assert Used(runs) == [];
    } else {
      AllDrawsTail(runs);
      DrawsAreWords(runs[1..]);
      hide StreamOf, NextAccepted, AllDraws, OneDraw, AreWords;
      StreamOfBoth(runs[0], Flat(runs[1..]));
      var first, rest := StreamOf(runs[0]), StreamOf(Flat(runs[1..]));
      Bracketings(before, first, rest, after);
      DrawRead(runs[0], |runs| + 1, before, rest + after);
      DrawsRead(runs[1..], before + first, after);
      assert Used(runs) == [Used(runs)[0]] + Used(runs[1..]);
    }
  }

  /**
   * What a stream deals: if it begins with the big-endian bytes of, for each position from the last
   * down to 1, some words that are refused and one that is not, the order is dealt from 0..n by the
   * remainders of the ones that are not, whatever follows.
   */
  lemma StreamDeals(serverSeed: string, clientSeed: string, runs: seq<seq<nat>>, draws: seq<nat>, after: seq<Byte>)
    requires |serverSeed| > 0 && |clientSeed| > 0 && |runs| == |draws| < 0xFFFF_FFFF
    requires forall k :: 0 <= k < |runs| ==>
               && OneDraw(runs[k], |runs| - k + 1)
               && draws[k] == runs[k][|runs[k]| - 1] % (|runs| - k + 1)
    ensures AreWords(Flat(runs)) && ValidDraws(draws)
    ensures Derived(serverSeed, clientSeed, |runs| + 1, StreamOf(Flat(runs)) + after)
            == Ok(Dealt(seq(|runs| + 1, k => k), draws))
  {
    DrawsRead(runs, [], after);
    assert forall k :: 0 <= k < |draws| ==> draws[k] == DrawsOf(Used(runs))[k];
    hide AllDraws, OneDraw, StreamOf, Dealt, Walk, AcceptedWords, Flat;
    assert [] + StreamOf(Flat(runs)) + after == StreamOf(Flat(runs)) + after;
    assert draws == DrawsOf(Used(runs));
    WalkIsDealing(Identity(|runs| + 1), draws);
    assert Identity(|runs| + 1) == seq(|runs| + 1, k => k);
  }
}
