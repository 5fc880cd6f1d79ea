/** Division facts the solver does not find on its own, and JavaScript's `Math.round`. */
module Arith {

  lemma MulSign(d: int, b: nat)
    requires b > 0
    ensures d >= 1 ==> d * b >= b
    ensures d <= -1 ==> d * b + b <= 0
  {
    if d >= 1 {
      assert (d - 1) * b >= 0;
    } else if d <= -1 {
      assert (-d - 1) * b >= 0;
    }
  }

  lemma MulNonNeg(a: nat, b: nat)
    ensures a * b >= 0
    ensures a > 0 && b > 0 ==> a * b > 0
  {
    if a > 0 && b > 0 { MulSign(a, b); }
  }

  lemma MulStep(a: int, b: int)
    ensures (a + 1) * b == a * b + b
  {
  }

  lemma MulMono(a: int, b: int, c: nat)
    requires a <= b
    ensures a * c <= b * c
  {
    assert (b - a) * c >= 0;
  }

  /** Quotient and remainder are the only pair that recompose the number. */
  lemma DivModUnique(w: int, b: nat, q: int, r: nat)
    requires r < b && w == q * b + r
    ensures w / b == q && w % b == r
  {
    assert w == w / b * b + w % b;
    MulSign(w / b - q, b);
    assert (w / b - q) * b == w / b * b - q * b;
  }

  /** Comparing a quotient with a bound is comparing the number with a multiple. */
  lemma DivBelow(w: int, b: nat, q: int)
    requires b > 0
    ensures w / b < q <==> w < q * b
    ensures q <= w / b <==> q * b <= w
  {
    assert w == w / b * b + w % b;
    MulSign(w / b - q, b);
    assert (w / b - q) * b == w / b * b - q * b;
  }

  lemma DivMono(a: int, b: int, c: nat)
    requires c > 0 && a <= b
    ensures a / c <= b / c
  {
    DivBelow(b, c, a / c);
    assert a == a / c * c + a % c;
  }

  /** `Math.round(a / b)` in exact arithmetic: the nearest whole number, halves going up. */
  function RoundDiv(a: int, b: nat): int
    requires b > 0
  {
    (2 * a + b) / (2 * b)
  }

  /** Within half a unit of the quotient. */
  lemma RoundDivIsNearest(a: int, b: nat)
    requires b > 0
    ensures 0 < 2 * (RoundDiv(a, b) * b - a) + b <= 2 * b
  {
    var r := RoundDiv(a, b);
    assert 2 * a + b == r * (2 * b) + (2 * a + b) % (2 * b);
    assert r * (2 * b) == 2 * (r * b);
  }

  lemma RoundDivMono(a: int, a': int, b: nat)
    requires b > 0 && a <= a'
    ensures RoundDiv(a, b) <= RoundDiv(a', b)
  {
    DivMono(2 * a + b, 2 * a' + b, 2 * b);
  }

  lemma RoundDivOfMultiple(q: int, b: nat)
    requires b > 0
    ensures RoundDiv(q * b, b) == q
  {
    DivModUnique(2 * (q * b) + b, 2 * b, q, b);
  }

  /** A quotient between two whole numbers rounds to something between them. */
  lemma RoundDivBetween(a: int, b: nat, lo: int, hi: int)
    requires b > 0 && lo * b <= a <= hi * b
    ensures lo <= RoundDiv(a, b) <= hi
  {
    RoundDivOfMultiple(lo, b);
    RoundDivOfMultiple(hi, b);
    RoundDivMono(lo * b, a, b);
    RoundDivMono(a, hi * b, b);
  }

  /** The product of sizes, by a name the solver will not multiply out. */
  function Times(a: nat, b: nat): nat {
    MulNonNeg(a, b);
    a * b
  }

  lemma TimesStep(a: nat, b: nat)
    ensures Times(a + 1, b) == Times(a, b) + b && Times(0, b) == 0
  {
    MulStep(a, b);
  }

  function Max(a: int, b: int): int {
    if a < b then b else a
  }
}
