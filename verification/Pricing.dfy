/**
 * The published price statistics (packages/core/src/pricing.ts). Fractions are exact rationals; for
 * the quarters and the tenth the source uses, its floats give the same whole cents.
 */
module Pricing {
  import opened Wrappers
  import opened Arith

  const MIN_OBSERVATIONS: int := 3

  datatype PriceError = NegativePrice | EmptySet | FractionOutOfRange

  // ------------------------------------------------------------------ //
  // Sorting
  // ------------------------------------------------------------------ //

  ghost predicate Ascending(s: seq<int>) {
    forall i, j :: 0 <= i < j < |s| ==> s[i] <= s[j]
  }

  function InsertPrice(v: int, s: seq<int>): seq<int> {
    if |s| == 0 || v <= s[0] then [v] + s else [s[0]] + InsertPrice(v, s[1..])
  }

  /** `[...prices].sort((a, b) => a - b)`. */
  function Sort(s: seq<int>): seq<int> {
    if |s| == 0 then [] else InsertPrice(s[0], Sort(s[1..]))
  }

  /** How many observations are at most v. */
  function AtMost(s: seq<int>, v: int): nat {
    if |s| == 0 then 0 else (if s[0] <= v then 1 else 0) + AtMost(s[1..], v)
  }

  lemma {:induction false} InsertFacts(v: int, s: seq<int>, w: int)
    requires Ascending(s)
    ensures Ascending(InsertPrice(v, s)) && |InsertPrice(v, s)| == |s| + 1
    ensures AtMost(InsertPrice(v, s), w) == AtMost(s, w) + (if v <= w then 1 else 0)
    ensures forall x :: x in InsertPrice(v, s) ==> x == v || x in s
    decreases |s|
  {
    if |s| == 0 || v <= s[0] {
      assert ([v] + s)[1..] == s;
    } else {
      InsertFacts(v, s[1..], w);
      var rest := InsertPrice(v, s[1..]);
      assert ([s[0]] + rest)[1..] == rest;
      forall x | x in rest ensures s[0] <= x {
        assert x == v || x in s[1..];
      }
    }
  }

  lemma {:induction false} SortFacts(s: seq<int>, v: int)
    ensures Ascending(Sort(s)) && |Sort(s)| == |s|
    ensures AtMost(Sort(s), v) == AtMost(s, v)
    decreases |s|
  {
    if |s| == 0 {
    } else {
      SortFacts(s[1..], v);
      InsertFacts(s[0], Sort(s[1..]), v);
    }
  }

  lemma {:induction false} AtMostBound(s: seq<int>, v: int)
    ensures AtMost(s, v) <= |s|
    decreases |s|
  {
    if |s| == 0 {
    } else {
      AtMostBound(s[1..], v);
    }
  }

  /** In a sorted list, position k is at most v exactly when more than k entries are. */
  lemma {:induction false} Rank(s: seq<int>, k: nat, v: int)
    requires Ascending(s) && k < |s|
    ensures s[k] <= v <==> AtMost(s, v) > k
    decreases |s|
  {
    if s[0] > v {
      NoneAtMost(s, v);
    } else if k > 0 {
      Rank(s[1..], k - 1, v);
    }
  }

  lemma {:induction false} NoneAtMost(s: seq<int>, v: int)
    requires forall k :: 0 <= k < |s| ==> s[k] > v
    ensures AtMost(s, v) == 0
    decreases |s|
  {
    if |s| == 0 {
    } else {
      NoneAtMost(s[1..], v);
    }
  }

  lemma SortedRank(s: seq<int>, k: nat, v: int)
    requires k < |s|
    ensures |Sort(s)| == |s| && Ascending(Sort(s))
    ensures Sort(s)[k] <= v <==> AtMost(s, v) > k
  {
    SortFacts(s, v);
    Rank(Sort(s), k, v);
  }

  /** Two lists with the same counts sort to the same list. */
  lemma SameCountsSameSort(a: seq<int>, b: seq<int>)
    requires |a| == |b| && forall v :: AtMost(a, v) == AtMost(b, v)
    ensures Sort(a) == Sort(b)
  {
    SortFacts(a, 0);
    SortFacts(b, 0);
    forall k | 0 <= k < |a| ensures Sort(a)[k] == Sort(b)[k] {
      SortedRank(a, k, Sort(b)[k]);
      SortedRank(b, k, Sort(b)[k]);
      SortedRank(a, k, Sort(a)[k]);
      SortedRank(b, k, Sort(a)[k]);
    }
  }

  lemma {:induction false} AtMostOfConcat(a: seq<int>, b: seq<int>, v: int)
    ensures AtMost(a + b, v) == AtMost(a, v) + AtMost(b, v)
    decreases |a|
  {
    if |a| == 0 {
      assert a + b == b;
    } else {
      assert (a + b)[1..] == a[1..] + b;
      AtMostOfConcat(a[1..], b, v);
    }
  }

  lemma RemoveOne(b: seq<int>, j: nat, v: int)
    requires j < |b|
    ensures AtMost(b, v) == AtMost(b[..j] + b[j + 1..], v) + (if b[j] <= v then 1 else 0)
    ensures multiset(b[..j] + b[j + 1..]) == multiset(b) - multiset{b[j]}
  {
    assert b == b[..j] + ([b[j]] + b[j + 1..]);
    AtMostOfConcat(b[..j], [b[j]] + b[j + 1..], v);
    AtMostOfConcat(b[..j], b[j + 1..], v);
    assert ([b[j]] + b[j + 1..])[1..] == b[j + 1..];
  }

  lemma {:induction false} SameMultisetSameCounts(a: seq<int>, b: seq<int>, v: int)
    requires multiset(a) == multiset(b)
    ensures |a| == |b| && AtMost(a, v) == AtMost(b, v)
    decreases |a|
  {
    assert |multiset(a)| == |a| && |multiset(b)| == |b|;
    if |a| == 0 {
    } else {
      assert a[0] in multiset(b);
      var j :| 0 <= j < |b| && b[j] == a[0];
      RemoveOne(b, j, v);
      assert a == [a[0]] + a[1..];
      assert multiset(a[1..]) == multiset(a) - multiset{a[0]};
      SameMultisetSameCounts(a[1..], b[..j] + b[j + 1..], v);
    }
  }

  // ------------------------------------------------------------------ //
  // Percentiles
  // ------------------------------------------------------------------ //

  /** The interpolated value, times `den`, at position `at / den` of a sorted list. */
  function Interpolated(s: seq<int>, at: nat, den: nat): int
    requires den > 0 && at / den < |s| && (at % den > 0 ==> at / den + 1 < |s|)
  {
    var lower, over := at / den, at % den;
    if over == 0 then s[lower] * den
    else s[lower] * den + (s[lower + 1] - s[lower]) * over
  }

  lemma PositionFits(n: nat, at: nat, den: nat)
    requires n > 0 && den > 0 && at <= (n - 1) * den
    ensures at / den < n && (at % den > 0 ==> at / den + 1 < n)
  {
    DivBelow(at, den, n);
    MulStep(n - 1, den);
    if at / den + 1 >= n {
      assert at / den == n - 1;
      assert at == at / den * den + at % den;
    }
  }

  /** `(length - 1) * p`, times `den`. */
  function Position(n: nat, num: nat, den: nat): (at: nat)
    requires n > 0 && den > 0 && num <= den
    ensures at / den < n && (at % den > 0 ==> at / den + 1 < n)
  {
    TimesRange(n - 1, num, den);
    PositionFits(n, Times(n - 1, num), den);
    Times(n - 1, num)
  }

  function PercentileCents(sorted: seq<int>, num: int, den: nat): Result<int, PriceError>
    requires den > 0
  {
    if |sorted| == 0 then Err(EmptySet)
    else if num < 0 || num > den then Err(FractionOutOfRange)
    else if |sorted| == 1 then Ok(sorted[0])
    else
      var at := Position(|sorted|, num, den);
      var lower := at / den;
      var upper := if at % den == 0 then lower else lower + 1;
      var low, high := sorted[lower], sorted[upper];
      if lower == upper then Ok(low)
      else Ok(RoundDiv(low * den + (high - low) * (at % den), den))
  }

  /** Every case of the code is the rounded interpolation. */
  lemma PercentileIsInterpolation(s: seq<int>, num: nat, den: nat)
    requires |s| > 0 && 0 < den && num <= den
    ensures var at := Times(|s| - 1, num);
            && 0 <= at <= Times(|s| - 1, den)
            && at / den < |s| && (at % den > 0 ==> at / den + 1 < |s|)
            && PercentileCents(s, num, den) == Ok(RoundDiv(Interpolated(s, at, den), den))
  {
    TimesRange(|s| - 1, num, den);
    var at := Times(|s| - 1, num);
    assert at == Position(|s|, num, den) by { hide RoundDiv, Interpolated; }
    hide Times, RoundDiv, Position;
    if |s| == 1 { DivModUnique(0, den, 0, 0); }
    if at % den == 0 { RoundDivOfMultiple(s[at / den], den); }
  }

  /**
   * What a percentile is: the whole number of cents nearest the point a fraction of the way along the
   * list, between two entries in proportion, halves going up.
   */
  lemma PercentileIsNearest(s: seq<int>, num: nat, den: nat, i: nat, over: nat)
    requires |s| > 0 && 0 < den && num <= den && (|s| - 1) * num == i * den + over && over < den
    ensures i < |s| && (over > 0 ==> i + 1 < |s|) && PercentileCents(s, num, den).Ok?
    ensures var high := if over > 0 then s[i + 1] else s[i];
            var r := PercentileCents(s, num, den).value;
            0 < 2 * (r * den - (s[i] * den + (high - s[i]) * over)) + den <= 2 * den
  {
    var at := Times(|s| - 1, num);
    assert at == i * den + over;
    DivModUnique(at, den, i, over);
    hide PercentileCents, RoundDiv, Times;
    PercentileIsInterpolation(s, num, den);
    RoundDivIsNearest(Interpolated(s, at, den), den);
  }

  lemma TimesRange(n: nat, num: nat, den: nat)
    requires num <= den
    ensures 0 <= Times(n, num) <= Times(n, den) == n * den
    ensures n == 0 ==> Times(n, num) == 0
  {
    MulMono(num, den, n);
    MulNonNeg(n, num);
  }

  lemma NextPosition(at: nat, den: nat)
    requires den > 0
    ensures at % den + 1 < den ==> (at + 1) / den == at / den && (at + 1) % den == at % den + 1
    ensures at % den + 1 >= den ==> (at + 1) / den == at / den + 1 && (at + 1) % den == 0
  {
    var q, r := at / den, at % den;
    assert at == q * den + r;
    MulStep(q, den);
    if r + 1 < den { DivModUnique(at + 1, den, q, r + 1); } else { DivModUnique(at + 1, den, q + 1, 0); }
  }

  /** One step along the line between neighbours. */
  lemma LineStep(low: int, high: int, r: int, den: int)
    requires low <= high
    ensures low * den + (high - low) * r <= low * den + (high - low) * (r + 1)
    ensures low * den + (high - low) * 0 == low * den && low * den + (high - low) * den == high * den
  {
  }

  lemma InterpolatedAt(s: seq<int>, at: nat, den: nat, q: nat, r: nat)
    requires den > 0 && at / den == q && at % den == r && q + 1 < |s|
    ensures Interpolated(s, at, den) == s[q] * den + (s[q + 1] - s[q]) * r
  {
  }

  lemma InterpolationStep(s: seq<int>, at: nat, den: nat)
    requires |s| > 0 && den > 0 && at < Times(|s| - 1, den) && Ascending(s)
    ensures (at + 1) / den < |s| && ((at + 1) % den > 0 ==> (at + 1) / den + 1 < |s|)
    ensures at / den < |s| && (at % den > 0 ==> at / den + 1 < |s|)
    ensures Interpolated(s, at, den) <= Interpolated(s, at + 1, den)
  {
    PositionFits(|s|, at, den);
    PositionFits(|s|, at + 1, den);
    DivBelow(at, den, |s| - 1);
    NextPosition(at, den);
    var q, r := at / den, at % den;
    InterpolatedAt(s, at, den, q, r);
    LineStep(s[q], s[q + 1], r, den);
    if r + 1 < den {
      InterpolatedAt(s, at + 1, den, q, r + 1);
    }
  }

  lemma {:induction false} InterpolationRises(s: seq<int>, at: nat, end: nat, den: nat)
    requires |s| > 0 && den > 0 && at <= end <= Times(|s| - 1, den) && Ascending(s)
    ensures at / den < |s| && (at % den > 0 ==> at / den + 1 < |s|)
    ensures end / den < |s| && (end % den > 0 ==> end / den + 1 < |s|)
    ensures Interpolated(s, at, den) <= Interpolated(s, end, den)
    decreases end
  {
    hide Interpolated;
    PositionFits(|s|, at, den);
    PositionFits(|s|, end, den);
    if at == end {
    } else {
      InterpolationRises(s, at, end - 1, den);
      InterpolationStep(s, end - 1, den);
    }
  }

  /** A higher percentile of the same list is never lower, and none leaves the list's range. */
  lemma PercentilesRise(s: seq<int>, num: nat, more: nat, den: nat)
    requires |s| > 0 && Ascending(s) && den > 0 && num <= more <= den
    ensures PercentileCents(s, num, den).Ok? && PercentileCents(s, more, den).Ok?
    ensures s[0] <= PercentileCents(s, num, den).value <= PercentileCents(s, more, den).value <= s[|s| - 1]
  {
    hide PercentileCents, Interpolated, RoundDiv;
    PercentileIsInterpolation(s, num, den);
    PercentileIsInterpolation(s, more, den);
    var n := |s| - 1;
    MulMono(num, more, n);
    assert Times(n, num) <= Times(n, more);
    InterpolationRises(s, 0, Times(n, num), den);
    InterpolationRises(s, Times(n, num), Times(n, more), den);
    InterpolationRises(s, Times(n, more), Times(n, den), den);
    EndsOfInterpolation(s, den);
    RoundDivMono(Interpolated(s, Times(n, num), den), Interpolated(s, Times(n, more), den), den);
    RoundDivMono(Interpolated(s, 0, den), Interpolated(s, Times(n, num), den), den);
    RoundDivMono(Interpolated(s, Times(n, more), den), Interpolated(s, Times(n, den), den), den);
  }

  lemma EndsOfInterpolation(s: seq<int>, den: nat)
    requires |s| > 0 && den > 0
    ensures 0 / den == 0 && 0 % den == 0 && Times(|s| - 1, den) / den == |s| - 1 && Times(|s| - 1, den) % den == 0
    ensures RoundDiv(Interpolated(s, 0, den), den) == s[0]
    ensures Times(|s| - 1, den) >= 0 && RoundDiv(Interpolated(s, Times(|s| - 1, den), den), den) == s[|s| - 1]
  {
    MulNonNeg(|s| - 1, den);
    DivModUnique(0, den, 0, 0);
    DivModUnique(Times(|s| - 1, den), den, |s| - 1, 0);
    RoundDivOfMultiple(s[0], den);
    RoundDivOfMultiple(s[|s| - 1], den);
  }

  lemma InterpolationFollows(s: seq<int>, t: seq<int>, at: nat, den: nat)
    requires |s| == |t| && forall k :: 0 <= k < |s| ==> s[k] <= t[k]
    requires den > 0 && at / den < |s| && (at % den > 0 ==> at / den + 1 < |s|)
    ensures Interpolated(s, at, den) <= Interpolated(t, at, den)
  {
    var q, r := at / den, at % den;
    if r > 0 {
      MixFollows(s[q], s[q + 1], t[q], t[q + 1], r, den);
    } else {
      MulMono(s[q], t[q], den);
    }
  }

  /** The value lies between its position's two neighbours. */
  lemma PercentileBetweenNeighbours(s: seq<int>, num: nat, den: nat)
    requires |s| > 0 && Ascending(s) && den > 0 && num <= den
    ensures PercentileCents(s, num, den).Ok?
    ensures var at := Times(|s| - 1, num);
            var lower := at / den;
            var upper := if at % den == 0 then lower else lower + 1;
            0 <= lower <= upper < |s| && s[lower] <= PercentileCents(s, num, den).value <= s[upper]
  {
    hide PercentileCents, RoundDiv, Times, Interpolated;
    PercentileIsInterpolation(s, num, den);
    var at := Times(|s| - 1, num);
    InterpolationBetween(s, at, den);
    RoundDivBetween(Interpolated(s, at, den), den, s[at / den], s[if at % den == 0 then at / den else at / den + 1]);
  }

  lemma InterpolationBetween(s: seq<int>, at: nat, den: nat)
    requires den > 0 && Ascending(s) && at / den < |s| && (at % den > 0 ==> at / den + 1 < |s|)
    ensures s[at / den] * den <= Interpolated(s, at, den)
    ensures Interpolated(s, at, den) <= s[if at % den == 0 then at / den else at / den + 1] * den
  {
    var lower, over := at / den, at % den;
    if over > 0 { LineBetween(s[lower], s[lower + 1], over, den); }
  }

  lemma LineBetween(low: int, high: int, r: nat, den: nat)
    requires low <= high && r < den
    ensures low * den <= low * den + (high - low) * r <= high * den
  {
    MulMono(0, high - low, r);
    MulMono(r, den, high - low);
    assert low * den + (high - low) * den == high * den;
  }

  /** Raising entries raises every percentile or leaves it. */
  lemma PercentileFollows(s: seq<int>, t: seq<int>, num: nat, den: nat)
    requires |s| == |t| > 0 && den > 0 && num <= den && forall k :: 0 <= k < |s| ==> s[k] <= t[k]
    ensures PercentileCents(s, num, den).Ok? && PercentileCents(t, num, den).Ok?
    ensures PercentileCents(s, num, den).value <= PercentileCents(t, num, den).value
  {
    hide PercentileCents, RoundDiv, Interpolated, Times;
    PercentileIsInterpolation(s, num, den);
    PercentileIsInterpolation(t, num, den);
    var at := Times(|s| - 1, num);
    InterpolationFollows(s, t, at, den);
    RoundDivMono(Interpolated(s, at, den), Interpolated(t, at, den), den);
  }

  lemma MixFollows(a: int, b: int, c: int, d: int, r: nat, den: nat)
    requires a <= c && b <= d && r < den
    ensures a * den + (b - a) * r <= c * den + (d - c) * r
    ensures a * den <= c * den
  {
    MulMono(a, c, den - r);
    MulMono(b, d, r);
    MulMono(a, c, den);
    assert a * den + (b - a) * r == a * (den - r) + b * r;
    assert c * den + (d - c) * r == c * (den - r) + d * r;
  }

  // ------------------------------------------------------------------ //
  // The summary
  // ------------------------------------------------------------------ //

  datatype Fraction = Fraction(num: nat, den: nat)

  const TRIM_FRACTION := Fraction(1, 10)

  function TrimCount(n: nat, fraction: Fraction): nat
    requires fraction.den > 0
  {
    if n <= 2 then 0
    else
      MulNonNeg(n, fraction.num);
      DivMono(0, n * fraction.num, fraction.den);
      var perEnd := n * fraction.num / fraction.den;
      if perEnd < (n - 1) / 2 then perEnd else (n - 1) / 2
  }

  /** At a tenth a side, one observation of each ten goes from either end. */
  lemma TenthIsTrimmed(n: nat)
    ensures TrimCount(n, TRIM_FRACTION) == if n < 10 then 0 else n / 10
  {
    assert n * 1 / 10 == n / 10;
  }

  lemma TrimLeavesSome(n: nat, fraction: Fraction)
    requires fraction.den > 0 && n > 0
    ensures 2 * TrimCount(n, fraction) < n
  {
  }

  datatype PriceSummary = PriceSummary(
    medianCents: int, p25Cents: int, p75Cents: int, count: nat, trimmedCount: nat, lowCents: int, highCents: int)

  function Kept(observations: seq<int>, fraction: Fraction): seq<int>
    requires fraction.den > 0
  {
    SortFacts(observations, 0);
    if |observations| == 0 then []
    else
      TrimLeavesSome(|observations|, fraction);
      var drop := TrimCount(|observations|, fraction);
      Sort(observations)[drop..|observations| - drop]
  }

  /** Nothing below the minimum; the middle from the trimmed list, the ends from the whole one. */
  function SummarisePrices(observations: seq<int>, minObservations: int := MIN_OBSERVATIONS,
          fraction: Fraction := TRIM_FRACTION)
    : Result<Option<PriceSummary>, PriceError>
    requires fraction.den > 0
  {
    if exists k :: 0 <= k < |observations| && observations[k] < 0 then Err(NegativePrice)
    else if |observations| < minObservations then Ok(None)
    else
      SortFacts(observations, 0);
      var sorted := Sort(observations);
      if |sorted| == 0 then Err(EmptySet)
      else
        var kept := Kept(observations, fraction);
        match (PercentileCents(kept, 2, 4), PercentileCents(kept, 1, 4), PercentileCents(kept, 3, 4))
        case (Ok(median), Ok(p25), Ok(p75)) =>
          Ok(Some(PriceSummary(median, p25, p75, |observations|, 2 * TrimCount(|observations|, fraction),
                               sorted[0], sorted[|sorted| - 1])))
        case _ => Err(EmptySet)
  }

  ghost predicate AllPrices(observations: seq<int>) {
    forall k :: 0 <= k < |observations| ==> observations[k] >= 0
  }

  lemma KeptFacts(observations: seq<int>, fraction: Fraction)
    requires fraction.den > 0 && |observations| > 0
    ensures var drop := TrimCount(|observations|, fraction); var kept := Kept(observations, fraction);
            && 2 * drop < |observations| && |kept| == |observations| - 2 * drop && Ascending(kept)
            && |Sort(observations)| == |observations| && Ascending(Sort(observations))
            && forall k :: 0 <= k < |kept| ==> kept[k] == Sort(observations)[drop + k]
  {
    SortFacts(observations, 0);
    TrimLeavesSome(|observations|, fraction);
  }

  /** The summary exists exactly for non-negative prices in sufficient number, and never divides by nothing. */
  lemma SummaryExists(observations: seq<int>, minObservations: int, fraction: Fraction)
    requires fraction.den > 0
    ensures var r := SummarisePrices(observations, minObservations, fraction);
            && (r.Ok? && r.value.Some?
              <==> AllPrices(observations) && |observations| > 0 && |observations| >= minObservations)
            && (r.Ok? && r.value.None? <==> AllPrices(observations) && |observations| < minObservations)
            && (r == Err(EmptySet) <==> observations == [] && minObservations <= 0)
  {
    if |observations| > 0 {
      KeptFacts(observations, fraction);
      PercentilesRise(Kept(observations, fraction), 1, 2, 4);
      PercentilesRise(Kept(observations, fraction), 2, 3, 4);
    }
    hide Kept, PercentileCents, Sort, TrimCount;
  }

  /** Unless told otherwise: no summary of fewer than three prices, and a tenth trimmed from each end. */
  lemma SummaryByDefault(observations: seq<int>)
    ensures SummarisePrices(observations) == SummarisePrices(observations, 3, Fraction(1, 10))
    ensures AllPrices(observations) ==>
              (SummarisePrices(observations) == Ok(None) <==> |observations| < 3)
    ensures AllPrices(observations) && |observations| >= 3 ==>
              && SummarisePrices(observations).Ok? && SummarisePrices(observations).value.Some?
              && SummarisePrices(observations).value.value.trimmedCount
                 == 2 * (if |observations| < 10 then 0 else |observations| / 10)
  {
    SummaryExists(observations, 3, Fraction(1, 10));
    TenthIsTrimmed(|observations|);
    if AllPrices(observations) && |observations| >= 3 { SummaryParts(observations, 3, Fraction(1, 10)); }
    hide Kept, PercentileCents, Sort, TrimCount;
  }

  /** What a summary is made of. */
  lemma SummaryParts(observations: seq<int>, minObservations: int, fraction: Fraction)
    requires fraction.den > 0
    requires var r := SummarisePrices(observations, minObservations, fraction); r.Ok? && r.value.Some?
    ensures |Sort(observations)| == |observations| > 0
    ensures var s := SummarisePrices(observations, minObservations, fraction).value.value;
            var kept := Kept(observations, fraction);
            && PercentileCents(kept, 1, 4) == Ok(s.p25Cents) && PercentileCents(kept, 2, 4) == Ok(s.medianCents)
            && PercentileCents(kept, 3, 4) == Ok(s.p75Cents) && s.count == |observations|
            && s.lowCents == Sort(observations)[0] && s.highCents == Sort(observations)[|observations| - 1]
  {
    hide PercentileCents, Sort, Kept, TrimCount;
    SortFacts(observations, 0);
  }

  /** low <= p25 <= median <= p75 <= high. */
  lemma SummaryIsOrdered(observations: seq<int>, minObservations: int, fraction: Fraction)
    requires fraction.den > 0
    requires var r := SummarisePrices(observations, minObservations, fraction); r.Ok? && r.value.Some?
    ensures var s := SummarisePrices(observations, minObservations, fraction).value.value;
            s.lowCents <= s.p25Cents <= s.medianCents <= s.p75Cents <= s.highCents
  {
    hide Kept, PercentileCents, TrimCount, SummarisePrices, Sort;
    SummaryParts(observations, minObservations, fraction);
    KeptFacts(observations, fraction);
    var kept := Kept(observations, fraction);
    PercentilesRise(kept, 1, 2, 4);
    PercentilesRise(kept, 2, 3, 4);
    assert Sort(observations)[0] <= kept[0] && kept[|kept| - 1] <= Sort(observations)[|observations| - 1];
  }

  /**
   * The published median is one: at least half of all observations, trimmed ones included, are at most
   * it and at most half are below it.
   */
  lemma MedianSplitsInHalf(observations: seq<int>, minObservations: int, fraction: Fraction)
    requires fraction.den > 0
    requires var r := SummarisePrices(observations, minObservations, fraction); r.Ok? && r.value.Some?
    ensures var median := SummarisePrices(observations, minObservations, fraction).value.value.medianCents;
            2 * AtMost(observations, median) >= |observations| && 2 * AtMost(observations, median - 1) <= |observations|
  {
    hide SummarisePrices, PercentileCents, TrimCount, Kept, Sort, AtMost;
    SummaryParts(observations, minObservations, fraction);
    KeptFacts(observations, fraction);
    var kept, drop := Kept(observations, fraction), TrimCount(|observations|, fraction);
    MedianBetween(kept);
    var m := |kept| - 1;
    var median := PercentileCents(kept, 2, 4).value;
    var lower, upper := drop + m / 2, drop + (m + 1) / 2;
    assert Sort(observations)[lower] <= median <= Sort(observations)[upper];
    SortedRank(observations, lower, median);
    SortedRank(observations, upper, median - 1);
  }

  lemma MedianBetween(s: seq<int>)
    requires |s| > 0 && Ascending(s)
    ensures PercentileCents(s, 2, 4).Ok?
    ensures s[(|s| - 1) / 2] <= PercentileCents(s, 2, 4).value <= s[|s| / 2]
  {
    hide PercentileCents, Times;
    PercentileBetweenNeighbours(s, 2, 4);
    HalfPosition(|s| - 1);
  }

  lemma HalfPosition(m: nat)
    ensures Times(m, 2) / 4 == m / 2
    ensures (if Times(m, 2) % 4 == 0 then m / 2 else m / 2 + 1) == (m + 1) / 2
  {
  }

  /** Only which prices were seen, and how often, matters: not their order. */
  lemma OrderDoesNotMatter(a: seq<int>, b: seq<int>, minObservations: int, fraction: Fraction)
    requires fraction.den > 0 && multiset(a) == multiset(b)
    ensures SummarisePrices(a, minObservations, fraction) == SummarisePrices(b, minObservations, fraction)
  {
    hide Sort, PercentileCents, TrimCount, AtMost;
    forall v ensures AtMost(a, v) == AtMost(b, v) && |a| == |b| {
      SameMultisetSameCounts(a, b, v);
    }
    SameMultisetSameCounts(a, b, 0);
    SameCountsSameSort(a, b);
    SameSigns(a, b);
    SameSigns(b, a);
    SortFacts(a, 0);
    assert Kept(a, fraction) == Kept(b, fraction);
    hide Kept;
  }

  lemma SameSigns(a: seq<int>, b: seq<int>)
    requires multiset(a) == multiset(b)
    ensures (exists k :: 0 <= k < |a| && a[k] < 0) ==> exists k :: 0 <= k < |b| && b[k] < 0
  {
    if k :| 0 <= k < |a| && a[k] < 0 {
      assert a[k] in multiset(a);
      assert a[k] in b;
    }
  }

  lemma {:induction false} RaisedCounts(a: seq<int>, b: seq<int>, v: int)
    requires |a| == |b| && forall k :: 0 <= k < |a| ==> a[k] <= b[k]
    ensures AtMost(b, v) <= AtMost(a, v)
    decreases |a|
  {
    if |a| == 0 {
    } else {
      RaisedCounts(a[1..], b[1..], v);
    }
  }

  lemma RaisedSort(a: seq<int>, b: seq<int>, k: nat)
    requires |a| == |b| && k < |a| && forall i :: 0 <= i < |a| ==> a[i] <= b[i]
    ensures |Sort(a)| == |Sort(b)| == |a| && Sort(a)[k] <= Sort(b)[k]
  {
    SortFacts(b, 0);
    var v := Sort(b)[k];
    SortedRank(b, k, v);
    RaisedCounts(a, b, v);
    SortedRank(a, k, v);
  }

  /** Raising observations, each where it stands, never lowers any published statistic. */
  lemma RaisingNeverLowers(a: seq<int>, b: seq<int>, minObservations: int, fraction: Fraction)
    requires fraction.den > 0 && |a| == |b| && forall k :: 0 <= k < |a| ==> 0 <= a[k] <= b[k]
    requires |a| > 0 && |a| >= minObservations
    ensures var r := SummarisePrices(a, minObservations, fraction); r.Ok? && r.value.Some?
    ensures var r := SummarisePrices(b, minObservations, fraction); r.Ok? && r.value.Some?
    ensures var s := SummarisePrices(a, minObservations, fraction).value.value;
            var t := SummarisePrices(b, minObservations, fraction).value.value;
            && s.lowCents <= t.lowCents && s.p25Cents <= t.p25Cents && s.medianCents <= t.medianCents
            && s.p75Cents <= t.p75Cents && s.highCents <= t.highCents
  {
    hide Sort, PercentileCents, TrimCount, Kept, AtMost, SummarisePrices;
    SummaryExists(a, minObservations, fraction);
    SummaryExists(b, minObservations, fraction);
    SummaryParts(a, minObservations, fraction);
    SummaryParts(b, minObservations, fraction);
    KeptFacts(a, fraction);
    KeptFacts(b, fraction);
    forall k | 0 <= k < |a| ensures Sort(a)[k] <= Sort(b)[k] {
      RaisedSort(a, b, k);
    }
    PercentileFollows(Kept(a, fraction), Kept(b, fraction), 1, 4);
    PercentileFollows(Kept(a, fraction), Kept(b, fraction), 2, 4);
    PercentileFollows(Kept(a, fraction), Kept(b, fraction), 3, 4);
  }

  /** How many positions two lists differ in. */
  function Changed(a: seq<int>, b: seq<int>): nat
    requires |a| == |b|
  {
    if |a| == 0 then 0 else (if a[0] != b[0] then 1 else 0) + Changed(a[1..], b[1..])
  }

  lemma {:induction false} UntouchedCounts(a: seq<int>, b: seq<int>, lo: int, hi: int)
    requires |a| == |b| && forall k :: 0 <= k < |a| && a[k] == b[k] ==> lo <= a[k] <= hi
    ensures AtMost(b, hi) >= |b| - Changed(a, b) && AtMost(b, lo - 1) <= Changed(a, b)
    decreases |a|
  {
    if |a| == 0 {
    } else {
      UntouchedCounts(a[1..], b[1..], lo, hi);
    }
  }

  /**
   * However up to `TrimCount` observations are replaced, the quartiles and the median stay within the
   * range of the untouched ones.
   */
  lemma OutliersCannotMoveTheMiddle(a: seq<int>, b: seq<int>, lo: int, hi: int, minObservations: int,
          fraction: Fraction)
    requires fraction.den > 0 && |a| == |b| && Changed(a, b) <= TrimCount(|a|, fraction)
    requires forall k :: 0 <= k < |a| && a[k] == b[k] ==> lo <= a[k] <= hi
    requires var r := SummarisePrices(b, minObservations, fraction); r.Ok? && r.value.Some?
    ensures var s := SummarisePrices(b, minObservations, fraction).value.value;
            lo <= s.p25Cents <= s.medianCents <= s.p75Cents <= hi
  {
    hide PercentileCents, Sort, AtMost, Changed, TrimCount, SummarisePrices, Kept;
    SummaryParts(b, minObservations, fraction);
    KeptFacts(b, fraction);
    UntouchedCounts(a, b, lo, hi);
    var kept := Kept(b, fraction);
    var drop := TrimCount(|b|, fraction);
    SortedRank(b, |b| - 1 - drop, hi);
    SortedRank(b, drop, lo - 1);
    assert kept[0] == Sort(b)[drop] && kept[|kept| - 1] == Sort(b)[|b| - 1 - drop];
    PercentilesRise(kept, 1, 2, 4);
    PercentilesRise(kept, 2, 3, 4);
  }

  // ------------------------------------------------------------------ //
  // Source weights
  // ------------------------------------------------------------------ //

  datatype PriceSource = BreakPull | LiveSale | EbayApi | WalmartApi | UserReport

  datatype Observation = Observation(cents: int, source: PriceSource)

  function SourceWeight(source: PriceSource): nat {
    match source
    case BreakPull => 3
    case LiveSale => 3
    case EbayApi => 2
    case WalmartApi => 2
    case UserReport => 1
  }

  /** What counts most is what somebody saw happen; a report counts once. */
  lemma WeightsOfSources(source: PriceSource)
    ensures SourceWeight(source) in {1, 2, 3}
    ensures SourceWeight(source) == 3 <==> source == BreakPull || source == LiveSale
    ensures SourceWeight(source) == 1 <==> source == UserReport
  {
  }

  /** The total weight of the observations at most v. */
  function WeightAtMost(observations: seq<Observation>, v: int): nat {
    if |observations| == 0 then 0
    else
      var last := observations[|observations| - 1];
      WeightAtMost(observations[..|observations| - 1], v) + (if last.cents <= v then SourceWeight(last.source) else 0)
  }

  function TotalWeight(observations: seq<Observation>): nat {
    if |observations| == 0 then 0
    else TotalWeight(observations[..|observations| - 1]) + SourceWeight(observations[|observations| - 1].source)
  }

  /** Every observation as often as it weighs, so ranks in the result are ranks by weight. */
  method ApplySourceWeights(observations: seq<Observation>) returns (out: seq<int>)
    ensures |out| == TotalWeight(observations)
    ensures forall v :: AtMost(out, v) == WeightAtMost(observations, v)
  {
    out := [];
    for k := 0 to |observations|
      invariant |out| == TotalWeight(observations[..k])
      invariant forall v :: AtMost(out, v) == WeightAtMost(observations[..k], v)
    {
      var observation := observations[k];
      var weight := SourceWeight(observation.source);
      ghost var before := out;
      for i := 0 to weight
        invariant |out| == |before| + i
        invariant forall v :: AtMost(out, v) == AtMost(before, v) + (if observation.cents <= v then i else 0)
      {
        forall v
          ensures AtMost(out + [observation.cents], v) == AtMost(out, v) + (if observation.cents <= v then 1 else 0)
        {
          AtMostOfConcat(out, [observation.cents], v);
        }
        out := out + [observation.cents];
      }
      assert observations[..k + 1][..k] == observations[..k];
    }
    assert observations[..|observations|] == observations;
  }

  /** So the price at rank k of the expanded list is the lowest one that more than k units of weight do not exceed. */
  lemma WeightedRank(observations: seq<Observation>, expanded: seq<int>, k: nat, v: int)
    requires |expanded| == TotalWeight(observations) && forall w :: AtMost(expanded, w) == WeightAtMost(observations, w)
    requires k < |expanded|
    ensures |Sort(expanded)| == |expanded| && (Sort(expanded)[k] <= v <==> WeightAtMost(observations, v) > k)
  {
    SortedRank(expanded, k, v);
  }
}
