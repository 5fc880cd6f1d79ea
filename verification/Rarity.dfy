/**
 * Observed pull rates against published odds (packages/core/src/rarity.ts): the Wilson interval, the
 * verdict, and the correction for several comparisons. Exact reals; the square root and the normal
 * quantile `zFor` are parameters, of which only what the proofs need is required.
 */
module Rarity {
  import opened Wrappers

  const MIN_PACKS_FOR_ODDS: int := 30
  const MIN_EXPECTED_HITS: real := 5.0

  datatype PublishedOdds = PublishedOdds(numerator: int, denominator: int)

  datatype OddsVerdict = Unpublished | Insufficient | NotComparable | Consistent | Above | Below

  datatype OddsError = BadOdds | BadSuccesses | BadTrials

  datatype RarityComparison = RarityComparison(
    rarity: string, hits: int, packs: int, observedRate: Option<real>, published: Option<PublishedOdds>,
    publishedRate: Option<real>, lowRate: Option<real>, highRate: Option<real>, verdict: OddsVerdict)

  ghost predicate IsSquareRoot(sqrt: real -> real) {
    forall x :: x >= 0.0 ==> sqrt(x) >= 0.0 && sqrt(x) * sqrt(x) == x
  }

  /** The product, by a name the solver will not multiply out. */
  function Mul(a: real, b: real): (c: real)
    ensures a > 0.0 && b > 0.0 ==> c > 0.0
  {
    a * b
  }

  function Sq(z: real): real {
    Mul(z, z)
  }

  lemma SqGrows(a: real, b: real)
    requires 0.0 <= a <= b
    ensures Sq(a) <= Sq(b)
  {
    SquareInside(a, b);
  }

  function MaxReal(a: real, b: real): real {
    if a < b then b else a
  }

  function MinReal(a: real, b: real): real {
    if b < a then b else a
  }

  // ------------------------------------------------------------------ //
  // The interval
  // ------------------------------------------------------------------ //

  function Centre(phat: real, n: real, z: real): real
    requires n > 0.0
  {
    assert 1.0 + Sq(z) / n > 0.0 by { SquareOver(z, n); }
    (phat + Sq(z) / (2.0 * n)) / (1.0 + Sq(z) / n)
  }

  function Spread(phat: real, n: real, z: real, sqrt: real -> real): real
    requires n > 0.0
  {
    assert 1.0 + Sq(z) / n > 0.0 by { SquareOver(z, n); }
    z / (1.0 + Sq(z) / n) * sqrt(UnderRoot(phat, n, z))
  }

  function UnderRoot(phat: real, n: real, z: real): real
    requires n > 0.0
  {
    assert 4.0 * n * n > 0.0;
    phat * (1.0 - phat) / n + Sq(z) / (4.0 * n * n)
  }

  lemma SquareOver(z: real, n: real)
    requires n > 0.0
    ensures Sq(z) >= 0.0 && Sq(z) / n >= 0.0
  {
  }

  function WilsonInterval(successes: int, trials: int, z: real, sqrt: real -> real): Result<(real, real), OddsError> {
    if successes < 0 then Err(BadSuccesses)
    else if trials < 1 then Err(BadTrials)
    else if successes > trials then Err(BadSuccesses)
    else
      var phat, n := successes as real / trials as real, trials as real;
      Ok((MaxReal(0.0, Centre(phat, n, z) - Spread(phat, n, z, sqrt)),
          MinReal(1.0, Centre(phat, n, z) + Spread(phat, n, z, sqrt))))
  }

  // ------------------------------------------------------------------ //
  // The algebra, with q for z squared over n
  // ------------------------------------------------------------------ //

  /** How far p lies from the centre, scaled by the denominator 1 + q. */
  function Offset(p: real, phat: real, q: real): real {
    p * (1.0 + q) - phat - q / 2.0
  }

  function SpreadSquared(phat: real, q: real): real {
    q * (phat * (1.0 - phat)) + q * q / 4.0
  }

  /** The factorisation everything rests on. */
  lemma OffsetFactors(p: real, phat: real, q: real)
    ensures Offset(p, phat, q) * Offset(p, phat, q) - SpreadSquared(phat, q)
            == (1.0 + q) * ((p - phat) * (p - phat) - q * (p * (1.0 - p)))
  {
  }

  lemma Products(a: real, b: real)
    ensures a >= 0.0 && b >= 0.0 ==> a * b >= 0.0
    ensures a > 0.0 && b > 0.0 ==> a * b > 0.0
    ensures a > 0.0 && b < 0.0 ==> a * b < 0.0
    ensures a * a >= 0.0
  {
  }

  lemma SignOfProduct(a: real, b: real)
    requires a > 0.0
    ensures a * b <= 0.0 <==> b <= 0.0
  {
  }

  lemma SquareInside(x: real, s: real)
    requires -s <= x <= s
    ensures x * x <= s * s
  {
    Products(s - x, s + x);
    assert (s - x) * (s + x) == s * s - x * x;
  }

  lemma SquareAbove(x: real, s: real)
    requires 0.0 <= s < x
    ensures x * x > s * s
  {
    Products(x - s, x + s);
    assert (x - s) * (x + s) == x * x - s * s;
  }

  lemma SquareCompare(x: real, s: real)
    requires s >= 0.0
    ensures x * x <= s * s <==> -s <= x <= s
  {
    if x > s {
      SquareAbove(x, s);
    } else if x < -s {
      SquareAbove(-x, s);
      assert -x * -x == x * x;
    } else {
      SquareInside(x, s);
    }
  }

  /** The scaled spread, whose square is `SpreadSquared`. */
  lemma SpreadScaled(phat: real, n: real, z: real, sqrt: real -> real, q: real)
    requires n > 0.0 && z > 0.0 && 0.0 <= phat <= 1.0 && IsSquareRoot(sqrt) && q * n == Sq(z)
    ensures q > 0.0 && Sq(z) / n == q
    ensures (1.0 + q) * Spread(phat, n, z, sqrt) == z * sqrt(UnderRoot(phat, n, z)) >= 0.0
    ensures var s := z * sqrt(UnderRoot(phat, n, z)); s * s == SpreadSquared(phat, q)
    ensures forall p :: (1.0 + q) * (p - Centre(phat, n, z)) == Offset(p, phat, q)
  {
    QuotientIs(Sq(z), n, q);
    PositiveRatio(q, n, z);
    UnderRootIs(phat, n, z, q);
    var u := UnderRoot(phat, n, z);
    var s := z * sqrt(u);
    assert u >= 0.0;
    assert s * s == Sq(z) * (sqrt(u) * sqrt(u)) == q * n * u;
    SpreadTimes(z, 1.0 + q, sqrt(u));
    CentreTimes(phat, n, z, q);
    forall p ensures (1.0 + q) * (p - Centre(phat, n, z)) == Offset(p, phat, q) {
      assert (1.0 + q) * (p - Centre(phat, n, z)) == (1.0 + q) * p - (1.0 + q) * Centre(phat, n, z);
    }
  }

  lemma NotPositive(a: real, b: real)
    requires a <= 0.0 && b >= 0.0
    ensures a * b <= 0.0
  {
  }

  lemma PositiveRatio(q: real, n: real, z: real)
    requires n > 0.0 && z > 0.0 && q * n == Sq(z)
    ensures q > 0.0
  {
    PositiveFactor(q, n, Sq(z));
  }

  lemma PositiveFactor(q: real, n: real, x: real)
    requires n > 0.0 && x > 0.0 && q * n == x
    ensures q > 0.0
  {
    if q <= 0.0 { NotPositive(q, n); }
  }

  lemma QuotientIs(a: real, n: real, q: real)
    requires n > 0.0 && q * n == a
    ensures a / n == q
  {
  }

  lemma SpreadTimes(z: real, d: real, root: real)
    requires d > 0.0
    ensures d * (z / d * root) == z * root
  {
    assert d * (z / d) == z;
  }

  lemma QuarterOver(q: real, n: real, z2: real)
    requires n > 0.0 && q * n == z2
    ensures 4.0 * n * n > 0.0 && z2 / (4.0 * n * n) * n == q / 4.0
  {
    Products(n, n);
    var b := z2 / (4.0 * n * n);
    assert b * (4.0 * n * n) == z2;
    assert n * (4.0 * (b * n) - q) == 0.0;
    Products(n, 4.0 * (b * n) - q);
    Products(n, q - 4.0 * (b * n));
  }

  lemma UnderRootIs(phat: real, n: real, z: real, q: real)
    requires n > 0.0 && q * n == Sq(z) && 0.0 <= phat <= 1.0 && q >= 0.0
    ensures UnderRoot(phat, n, z) >= 0.0
    ensures q * n * UnderRoot(phat, n, z) == SpreadSquared(phat, q)
  {
    var v := phat * (1.0 - phat);
    Products(phat, 1.0 - phat);
    var a, b := v / n, Sq(z) / (4.0 * n * n);
    assert a * n == v;
    QuarterOver(q, n, Sq(z));
    assert b * n == q / 4.0;
    assert a >= 0.0 && b >= 0.0;
    assert q * n * (a + b) == q * (a * n) + q * (b * n);
  }

  lemma CentreTimes(phat: real, n: real, z: real, q: real)
    requires n > 0.0 && q * n == Sq(z) && q > 0.0
    ensures (1.0 + q) * Centre(phat, n, z) == phat + q / 2.0
  {
    QuotientIs(Sq(z), n, q);
    QuotientIs(Sq(z), 2.0 * n, q / 2.0);
  }

  /** The published rate lies between the unclamped bounds exactly when the score test does not reject it. */
  lemma InsideIff(p: real, phat: real, n: real, z: real, sqrt: real -> real)
    requires n > 0.0 && z > 0.0 && 0.0 <= phat <= 1.0 && IsSquareRoot(sqrt)
    ensures Centre(phat, n, z) - Spread(phat, n, z, sqrt) <= p <= Centre(phat, n, z) + Spread(phat, n, z, sqrt)
            <==> n * ((phat - p) * (phat - p)) <= Sq(z) * (p * (1.0 - p))
  {
    var q := Sq(z) / n;
    assert q * n == Sq(z);
    SpreadScaled(phat, n, z, sqrt, q);
    var s := z * sqrt(UnderRoot(phat, n, z));
    hide Centre, Spread, UnderRoot;
    BoundsScaled(p - Centre(phat, n, z), Spread(phat, n, z, sqrt), 1.0 + q, Offset(p, phat, q), s);
    var e := (p - phat) * (p - phat) - q * (p * (1.0 - p));
    TestIff(p, phat, q, s, e);
    SignOfProduct(n, e);
    TestScaled(p, phat, n, q, z);
  }

  lemma TestIff(p: real, phat: real, q: real, s: real, e: real)
    requires s >= 0.0 && q > 0.0 && s * s == SpreadSquared(phat, q)
    requires e == (p - phat) * (p - phat) - q * (p * (1.0 - p))
    ensures -s <= Offset(p, phat, q) <= s <==> e <= 0.0
  {
    OffsetFactors(p, phat, q);
    hide Offset, SpreadSquared;
    SquareCompare(Offset(p, phat, q), s);
    SignOfProduct(1.0 + q, e);
  }

  lemma BoundsScaled(x: real, spread: real, d: real, dx: real, ds: real)
    requires d > 0.0 && d * x == dx && d * spread == ds
    ensures -spread <= x <= spread <==> -ds <= dx <= ds
    ensures x < -spread <==> dx < -ds
    ensures x > spread <==> dx > ds
  {
    assert d * (x + spread) == dx + ds && d * (x - spread) == dx - ds;
    SignOfProduct(d, x - spread);
    SignOfProduct(d, -x - spread);
    assert d * (-x - spread) == -dx - ds;
  }

  lemma TestScaled(p: real, phat: real, n: real, q: real, z: real)
    requires q * n == Sq(z)
    ensures n * ((p - phat) * (p - phat) - q * (p * (1.0 - p)))
            == n * ((phat - p) * (phat - p)) - Sq(z) * (p * (1.0 - p))
  {
    var v, d := p * (1.0 - p), (p - phat) * (p - phat);
    assert d == (phat - p) * (phat - p);
    assert n * (d - q * v) == n * d - q * n * v;
  }

  /** The interval holds the observed rate and stays within [0, 1] by itself, so the clamps never act. */
  lemma ClampsNeverAct(phat: real, n: real, z: real, sqrt: real -> real)
    requires n > 0.0 && z > 0.0 && 0.0 <= phat <= 1.0 && IsSquareRoot(sqrt)
    ensures var low := Centre(phat, n, z) - Spread(phat, n, z, sqrt);
            var high := Centre(phat, n, z) + Spread(phat, n, z, sqrt);
            0.0 <= low <= phat <= high <= 1.0 && MaxReal(0.0, low) == low && MinReal(1.0, high) == high
  {
    InsideAtObserved(phat, n, z, sqrt);
    InsideEnds(phat, n, z, sqrt);
  }

  lemma InsideEnds(phat: real, n: real, z: real, sqrt: real -> real)
    requires n > 0.0 && z > 0.0 && 0.0 <= phat <= 1.0 && IsSquareRoot(sqrt)
    ensures 0.0 <= Centre(phat, n, z) - Spread(phat, n, z, sqrt) && Centre(phat, n, z) + Spread(phat, n, z, sqrt) <= 1.0
  {
    hide Centre, Spread, UnderRoot, Offset, SpreadSquared;
    var q := Sq(z) / n;
    assert q * n == Sq(z);
    SpreadScaled(phat, n, z, sqrt, q);
    hide IsSquareRoot;
    var s := z * sqrt(UnderRoot(phat, n, z));
    OutsideAtEnds(phat, q, s);
    var c, w := Centre(phat, n, z), Spread(phat, n, z, sqrt);
    EndsScaled(1.0 + q, c, w, Offset(0.0, phat, q), Offset(1.0, phat, q), s);
  }

  lemma EndsScaled(d: real, c: real, w: real, a: real, b: real, s: real)
    requires d > 0.0 && d * (0.0 - c) == a && d * (1.0 - c) == b && d * w == s && a + s <= 0.0 && s - b <= 0.0
    ensures w <= c && c + w <= 1.0
  {
    assert d * (w - c) == a + s;
    assert d * (c + w - 1.0) == s - b;
    SignOfProduct(d, w - c);
    SignOfProduct(d, c + w - 1.0);
  }

  lemma InsideAtObserved(phat: real, n: real, z: real, sqrt: real -> real)
    requires n > 0.0 && z > 0.0 && 0.0 <= phat <= 1.0 && IsSquareRoot(sqrt)
    ensures Centre(phat, n, z) - Spread(phat, n, z, sqrt) <= phat <= Centre(phat, n, z) + Spread(phat, n, z, sqrt)
  {
    InsideIff(phat, phat, n, z, sqrt);
    Products(phat, 1.0 - phat);
    Products(Sq(z), phat * (1.0 - phat));
  }

  lemma OutsideAtEnds(phat: real, q: real, s: real)
    requires 0.0 <= phat <= 1.0 && q > 0.0 && s >= 0.0 && s * s == SpreadSquared(phat, q)
    ensures Offset(0.0, phat, q) + s <= 0.0 && s - Offset(1.0, phat, q) <= 0.0
  {
    OffsetFactors(0.0, phat, q);
    OffsetFactors(1.0, phat, q);
    var a, b := Offset(0.0, phat, q), Offset(1.0, phat, q);
    assert a == -phat - q / 2.0 && b == 1.0 - phat + q / 2.0;
    Products(phat, phat);
    Products(1.0 - phat, 1.0 - phat);
    Products(1.0 + q, phat * phat);
    Products(1.0 + q, (1.0 - phat) * (1.0 - phat));
    assert (1.0 - phat) * (1.0 - phat) == (phat - 1.0) * (phat - 1.0);
    assert a * a >= s * s && b * b >= s * s;
    RootCompare(-a, s);
    RootCompare(b, s);
  }

  lemma RootCompare(x: real, s: real)
    requires x > 0.0 && s >= 0.0 && x * x >= s * s
    ensures x >= s
  {
    Products(s - x, s + x);
    assert (s - x) * (s + x) == s * s - x * x;
  }

  // ------------------------------------------------------------------ //
  // The verdict
  // ------------------------------------------------------------------ //

  function RatePerPack(odds: Option<PublishedOdds>): Result<Option<real>, OddsError> {
    match odds
    case None => Ok(None)
    case Some(o) =>
      if o.denominator < 1 || o.numerator < 0 then Err(BadOdds)
      else Ok(Some(o.numerator as real / o.denominator as real))
  }

  datatype Row = Row(rarity: string, hits: int, packs: int, published: Option<PublishedOdds>)

  function CompareToOdds(row: Row, z: real, sqrt: real -> real): Result<RarityComparison, OddsError> {
    match RatePerPack(row.published)
    case Err(e) => Err(e)
    case Ok(publishedRate) =>
      var observedRate := if row.packs > 0 then Some(row.hits as real / row.packs as real) else None;
      var base := RarityComparison(
        row.rarity, row.hits, row.packs, observedRate, row.published, publishedRate, None, None, Unpublished);
      if publishedRate == None then Ok(base)
      else if row.hits > row.packs then Ok(base.(verdict := NotComparable))
      else if row.packs < MIN_PACKS_FOR_ODDS || row.packs as real * publishedRate.value < MIN_EXPECTED_HITS then
        Ok(base.(verdict := Insufficient))
      else match WilsonInterval(row.hits, row.packs, z, sqrt)
        case Err(e) => Err(e)
        case Ok((low, high)) =>
          var p := publishedRate.value;
          var verdict := if p < low then Above else if p > high then Below else Consistent;
          Ok(base.(lowRate := Some(low), highRate := Some(high), verdict := verdict))
  }

  predicate Publishes(row: Row) {
    row.published.Some? && row.published.value.denominator >= 1 && row.published.value.numerator >= 0
  }

  function Rate(row: Row): real
    requires Publishes(row)
  {
    row.published.value.numerator as real / row.published.value.denominator as real
  }

  /** Enough packs, enough expected hits, and no more hits than packs. */
  predicate PassesFloors(row: Row)
    requires Publishes(row)
  {
    0 <= row.hits <= row.packs && row.packs >= 30 && row.packs as real * Rate(row) >= 5.0
  }

  lemma ObservedInUnit(hits: int, packs: int)
    requires 0 <= hits <= packs && packs > 0
    ensures 0.0 <= hits as real / packs as real <= 1.0
  {
    assert hits as real / packs as real * packs as real == hits as real;
  }

  /** The score test, cleared of division: n (observed - p)^2 <= z^2 p (1 - p). */
  predicate NotRejected(row: Row, z: real)
    requires Publishes(row) && row.packs > 0
  {
    var n, p, phat := row.packs as real, Rate(row), row.hits as real / row.packs as real;
    n * ((phat - p) * (phat - p)) <= Sq(z) * (p * (1.0 - p))
  }

  /** Past the floors: consistent exactly when the test does not reject, otherwise the side the observed rate is on. */
  lemma VerdictIff(row: Row, z: real, sqrt: real -> real)
    requires Publishes(row) && PassesFloors(row) && z > 0.0 && IsSquareRoot(sqrt)
    ensures CompareToOdds(row, z, sqrt).Ok?
    ensures var c := CompareToOdds(row, z, sqrt).value; var phat := row.hits as real / row.packs as real;
            && (c.verdict == Consistent <==> NotRejected(row, z))
            && (c.verdict == Above <==> !NotRejected(row, z) && phat > Rate(row))
            && (c.verdict == Below <==> !NotRejected(row, z) && phat < Rate(row))
            && c.lowRate.Some? && c.highRate.Some? && 0.0 <= c.lowRate.value <= phat <= c.highRate.value <= 1.0
  {
    hide Centre, Spread, IsSquareRoot;
    var n, p, phat := row.packs as real, Rate(row), row.hits as real / row.packs as real;
    ObservedInUnit(row.hits, row.packs);
    InsideIff(p, phat, n, z, sqrt);
    ClampsNeverAct(phat, n, z, sqrt);
    hide MaxReal, MinReal;
  }

  lemma FloorsDecide(row: Row, z: real, sqrt: real -> real)
    ensures var r := CompareToOdds(row, z, sqrt);
            && (r.Ok? && r.value.verdict == Unpublished <==> row.published == None)
            && (r == Err(BadOdds) <==> row.published.Some? && !Publishes(row))
            && (Publishes(row) ==>
                  && (r.Ok? && r.value.verdict == NotComparable <==> row.hits > row.packs)
                  && (r.Ok? && r.value.verdict == Insufficient <==>
                        row.hits <= row.packs
                        && (row.packs < MIN_PACKS_FOR_ODDS || row.packs as real * Rate(row) < MIN_EXPECTED_HITS))
                  && (r == Err(BadSuccesses) <==>
                        row.hits < 0 && row.packs >= MIN_PACKS_FOR_ODDS
                          && row.packs as real * Rate(row) >= MIN_EXPECTED_HITS))
  {
    hide Centre, Spread;
  }

  /** Which of the other verdicts, and the errors: what is refused, and why, does not depend on z. */
  lemma OtherVerdicts(row: Row, z: real, sqrt: real -> real)
    ensures var r := CompareToOdds(row, z, sqrt);
            && (r.Ok? && r.value.verdict == Unpublished <==> row.published == None)
            && (r == Err(BadOdds) <==> row.published.Some? && !Publishes(row))
            && (Publishes(row) ==>
                  && (r.Ok? && r.value.verdict == NotComparable <==> row.hits > row.packs)
                  && (r.Ok? && r.value.verdict == Insufficient <==>
                        row.hits <= row.packs
                        && (row.packs < 30 || row.packs as real * Rate(row) < 5.0))
                  && (r == Err(BadSuccesses) <==>
                        row.hits < 0 && row.packs >= 30 && row.packs as real * Rate(row) >= 5.0))
  {
    hide CompareToOdds, Publishes, Rate;
    FloorsDecide(row, z, sqrt);
  }

  /** A larger z never turns a consistent row into anything else. */
  lemma LargerZStaysConsistent(row: Row, z: real, wider: real, sqrt: real -> real)
    requires 0.0 < z <= wider && IsSquareRoot(sqrt)
    requires var r := CompareToOdds(row, z, sqrt); r.Ok? && r.value.verdict == Consistent
    ensures var r := CompareToOdds(row, wider, sqrt); r.Ok? && r.value.verdict == Consistent
  {
    hide CompareToOdds, IsSquareRoot, Sq, NotRejected, Rate;
    ConsistentPassed(row, z, sqrt);
    VerdictIff(row, z, sqrt);
    VerdictIff(row, wider, sqrt);
    NotRejectedGrows(row, z, wider);
  }

  lemma NotRejectedGrows(row: Row, z: real, wider: real)
    requires Publishes(row) && row.packs > 0 && 0.0 < z <= wider && NotRejected(row, z)
    ensures NotRejected(row, wider)
  {
    hide Sq, Rate;
    var n, p, phat := row.packs as real, Rate(row), row.hits as real / row.packs as real;
    ScoreGrows(n, p, phat, z, wider);
  }

  lemma ScoreGrows(n: real, p: real, phat: real, z: real, wider: real)
    requires n > 0.0 && 0.0 < z <= wider
    requires n * ((phat - p) * (phat - p)) <= Sq(z) * (p * (1.0 - p))
    ensures n * ((phat - p) * (phat - p)) <= Sq(wider) * (p * (1.0 - p))
  {
    hide Sq;
    Products(phat - p, 0.0);
    var d, v := (phat - p) * (phat - p), p * (1.0 - p);
    WiderAccepts(n, d, v, z, wider);
  }

  lemma ConsistentPassed(row: Row, z: real, sqrt: real -> real)
    requires var r := CompareToOdds(row, z, sqrt); r.Ok? && r.value.verdict == Consistent
    ensures Publishes(row) && PassesFloors(row)
  {
    hide Centre, Spread;
  }

  lemma WiderAccepts(n: real, d: real, v: real, z: real, wider: real)
    requires n > 0.0 && d >= 0.0 && 0.0 < z <= wider && n * d <= Sq(z) * v
    ensures n * d <= Sq(wider) * v
  {
    Products(n, d);
    SqGrows(z, wider);
    hide Sq;
    ScaleUp(Sq(z), Sq(wider), v, n * d);
  }

  lemma ScaleUp(a: real, b: real, v: real, x: real)
    requires 0.0 < a <= b && 0.0 <= x <= a * v
    ensures x <= b * v
  {
    Products(a, v);
    Products(b - a, v);
    assert (b - a) * v == b * v - a * v;
  }

  // ------------------------------------------------------------------ //
  // Several comparisons at once
  // ------------------------------------------------------------------ //

  function PublishedCount(rows: seq<Row>): nat {
    if |rows| == 0 then 0
    else PublishedCount(rows[..|rows| - 1]) + (if rows[|rows| - 1].published.Some? then 1 else 0)
  }

  function Comparisons(rows: seq<Row>): nat {
    if PublishedCount(rows) < 1 then 1 else PublishedCount(rows)
  }

  function CompareEach(rows: seq<Row>, z: real, sqrt: real -> real): Result<seq<RarityComparison>, OddsError> {
    if |rows| == 0 then Ok([])
    else match CompareToOdds(rows[0], z, sqrt)
      case Err(e) => Err(e)
      case Ok(c) =>
        match CompareEach(rows[1..], z, sqrt)
        case Err(e) => Err(e)
        case Ok(rest) => Ok([c] + rest)
  }

  function CompareRarities(rows: seq<Row>, zFor: nat -> real, sqrt: real -> real)
    : Result<seq<RarityComparison>, OddsError>
  {
    CompareEach(rows, zFor(Comparisons(rows)), sqrt)
  }

  ghost function Published(rows: seq<Row>): set<nat> {
    set k: nat | k < |rows| && rows[k].published.Some?
  }

  lemma {:induction false} PublishedIsCounted(rows: seq<Row>)
    ensures PublishedCount(rows) == |Published(rows)|
    decreases |rows|
  {
    if |rows| == 0 {
    } else {
      var n := |rows| - 1;
      PublishedIsCounted(rows[..n]);
      assert Published(rows) == if rows[n].published.Some? then Published(rows[..n]) + {n} else Published(rows[..n]);
    }
  }

  /** Each rarity is compared on its own, at the level for as many comparisons as publish odds, or one. */
  lemma EachIsComparedAlone(rows: seq<Row>, zFor: nat -> real, sqrt: real -> real, k: nat)
    requires CompareRarities(rows, zFor, sqrt).Ok? && k < |rows|
    ensures |CompareRarities(rows, zFor, sqrt).value| == |rows|
    ensures var count := |Published(rows)|;
            CompareToOdds(rows[k], zFor(if count == 0 then 1 else count), sqrt)
            == Ok(CompareRarities(rows, zFor, sqrt).value[k])
  {
    PublishedIsCounted(rows);
    EachOf(rows, zFor(Comparisons(rows)), sqrt, k);
    hide CompareEach, CompareToOdds, Published, PublishedCount;
  }

  lemma {:induction false} EachOf(rows: seq<Row>, z: real, sqrt: real -> real, k: nat)
    requires CompareEach(rows, z, sqrt).Ok? && k < |rows|
    ensures |CompareEach(rows, z, sqrt).value| == |rows|
    ensures CompareToOdds(rows[k], z, sqrt) == Ok(CompareEach(rows, z, sqrt).value[k])
    decreases |rows|
  {
    hide CompareToOdds;
    if k == 0 {
      if |rows| > 1 { EachOf(rows[1..], z, sqrt, 0); }
    } else {
      EachOf(rows[1..], z, sqrt, k - 1);
    }
  }

  /** The more comparisons, the wider the interval. */
  ghost predicate Widens(zFor: nat -> real) {
    (forall k :: zFor(k) > 0.0) && forall j: nat, k: nat :: j <= k ==> zFor(j) <= zFor(k)
  }

  lemma {:induction false} CompareEachRow(rows: seq<Row>, z: real, sqrt: real -> real, k: nat)
    requires k < |rows| && CompareEach(rows, z, sqrt).Ok?
    ensures |CompareEach(rows, z, sqrt).value| == |rows|
    ensures CompareToOdds(rows[k], z, sqrt) == Ok(CompareEach(rows, z, sqrt).value[k])
    decreases |rows|
  {
    hide CompareToOdds;
    if |rows| <= 1 {
    } else {
      CompareEachRow(rows[1..], z, sqrt, if k == 0 then 0 else k - 1);
    }
  }

  /** Comparing rarities together never makes a finding out of a row that was consistent on its own. */
  lemma TogetherNeverAccusesMore(rows: seq<Row>, zFor: nat -> real, sqrt: real -> real, k: nat)
    requires k < |rows| && IsSquareRoot(sqrt) && Widens(zFor) && CompareRarities(rows, zFor, sqrt).Ok?
    requires var alone := CompareToOdds(rows[k], zFor(1), sqrt); alone.Ok? && alone.value.verdict == Consistent
    ensures |CompareRarities(rows, zFor, sqrt).value| == |rows|
    ensures CompareRarities(rows, zFor, sqrt).value[k].verdict == Consistent
  {
    hide CompareToOdds, CompareEach, IsSquareRoot;
    var z := zFor(Comparisons(rows));
    CompareEachRow(rows, z, sqrt, k);
    assert zFor(1) <= z;
    LargerZStaysConsistent(rows[k], zFor(1), z, sqrt);
  }

  /** A rarity without published odds was never a test: with it or without it, every other row compares alike. */
  lemma UnpublishedRowsDoNotCount(rows: seq<Row>, extra: Row, zFor: nat -> real, sqrt: real -> real)
    requires extra.published == None && CompareRarities(rows, zFor, sqrt).Ok?
    ensures CompareRarities([extra] + rows, zFor, sqrt).Ok?
    ensures CompareRarities([extra] + rows, zFor, sqrt).value[1..] == CompareRarities(rows, zFor, sqrt).value
    ensures CompareRarities([extra] + rows, zFor, sqrt).value[0].verdict == Unpublished
  {
    CountSkipsFirst(extra, rows);
    var z := zFor(Comparisons(rows));
    OtherVerdicts(extra, z, sqrt);
    hide CompareToOdds;
    assert ([extra] + rows)[1..] == rows;
    assert RatePerPack(extra.published) == Ok(None);
  }

  lemma {:induction false} CountSkipsFirst(extra: Row, rows: seq<Row>)
    requires extra.published == None
    ensures PublishedCount([extra] + rows) == PublishedCount(rows)
    decreases |rows|
  {
    var all := [extra] + rows;
    if |rows| > 0 {
      CountSkipsFirst(extra, rows[..|rows| - 1]);
      assert all[..|all| - 1] == [extra] + rows[..|rows| - 1];
    } else {
      assert all[..0] == [];
    }
  }
}
