/**
 * Making a photograph smaller (packages/photos/src/reencode.ts): the stored size and the box filter
 * that fills it. Ratios and channel averages are exact rationals here, where the source uses floats;
 * how the boxes cover the picture is proved for starts rounded in any way as well.
 */
module Resample {
  import opened Arith
  import opened Bytes

  const DISPLAY_MAX_DIMENSION: nat := 1600

  // ------------------------------------------------------------------ //
  // The stored size
  // ------------------------------------------------------------------ //

  function Scaled(side: nat, longest: nat, max: nat): nat
    requires longest > 0
  {
    Max(1, RoundDiv(side * max, longest))
  }

  function DisplaySize(width: nat, height: nat, max: nat): (nat, nat) {
    var longest := Max(width, height);
    if longest <= max then (width, height) else (Scaled(width, longest, max), Scaled(height, longest, max))
  }

  lemma ScaledSide(side: nat, longest: nat, max: nat)
    requires 1 <= side <= longest && 1 <= max < longest
    ensures 1 <= Scaled(side, longest, max) <= side && Scaled(side, longest, max) <= max
    ensures side == longest ==> Scaled(side, longest, max) == max
    ensures Scaled(side, longest, max) > 1 ==>
              0 < 2 * (Scaled(side, longest, max) * longest - side * max) + longest <= 2 * longest
  {
    MulMono(max, longest, side);
    MulMono(side, longest, max);
    assert side * max == max * side && longest * max == max * longest && longest * side == side * longest;
    RoundDivBetween(side * max, longest, 0, side);
    RoundDivBetween(side * max, longest, 0, max);
    RoundDivOfMultiple(max, longest);
    RoundDivIsNearest(side * max, longest);
  }

  /**
   * Never enlarged, never empty, capped; when it shrinks, the longest side becomes the cap and the other
   * keeps its proportion to half a pixel.
   */
  lemma DisplaySizeFits(width: nat, height: nat, max: nat)
    requires width >= 1 && height >= 1 && max >= 1
    ensures var (w, h) := DisplaySize(width, height, max);
            && 1 <= w <= width && 1 <= h <= height && w <= max && h <= max
            && (Max(width, height) <= max ==> w == width && h == height)
            && (Max(width, height) > max ==> Max(w, h) == max)
            && (Max(width, height) > max && w > 1 ==>
                  0 < 2 * (w * Max(width, height) - width * max) + Max(width, height) <= 2 * Max(width, height))
            && (Max(width, height) > max && h > 1 ==>
                  0 < 2 * (h * Max(width, height) - height * max) + Max(width, height) <= 2 * Max(width, height))
  {
    var longest := Max(width, height);
    hide Scaled;
    if longest > max {
      ScaledSide(width, longest, max);
      ScaledSide(height, longest, max);
    }
  }

  // ------------------------------------------------------------------ //
  // Boxes
  // ------------------------------------------------------------------ //

  /** Where the box of output column (or row) x starts among `from` source ones, for `to` output ones. */
  function BoxStart(x: nat, from: nat, to: nat): nat
    requires to > 0
  {
    DivNat(x * from, to)
  }

  function DivNat(a: nat, b: nat): nat
    requires b > 0
  {
    a / b
  }

  function BoxEnd(x: nat, from: nat, to: nat): nat
    requires to > 0
  {
    Max(BoxStart(x, from, to) + 1, BoxStart(x + 1, from, to))
  }

  predicate InBox(s: nat, x: nat, from: nat, to: nat)
    requires to > 0
  {
    BoxStart(x, from, to) <= s < BoxEnd(x, from, to)
  }

  /** Boxes are never empty and never reach past the source, so the loops' second guards never bind. */
  lemma BoxWithin(x: nat, from: nat, to: nat)
    requires x < to && from >= 1
    ensures BoxStart(x, from, to) < BoxEnd(x, from, to) <= from
  {
    MulMono(x + 1, to, from);
    MulStep(x, from);
    assert to * from == from * to;
    DivBelow(x * from, to, from);
    DivBelow((x + 1) * from, to, from + 1);
    MulStep(from, to);
  }

  /** The output column a source column is read by. */
  function Reader(s: nat, from: nat, to: nat): nat
    requires from > 0 && to > 0
  {
    DivNat(LastBelow(s, to), from)
  }

  function LastBelow(s: nat, to: nat): nat
    requires to > 0
  {
    MulNonNeg(s, to);
    MulStep(s, to);
    (s + 1) * to - 1
  }

  /** Shrinking, every source column is read by one output column, which is `Reader`, and by no other. */
  lemma BoxesTile(s: nat, x: nat, from: nat, to: nat)
    requires 1 <= to <= from && s < from
    ensures Reader(s, from, to) < to
    ensures InBox(s, x, from, to) <==> x == Reader(s, from, to)
  {
    var n := LastBelow(s, to);
    MulStep(s, to);
    DivBelow(x * from, to, s + 1);
    DivBelow((x + 1) * from, to, s + 1);
    DivBelow(n, from, x);
    DivBelow(n, from, x + 1);
    MulStep(x, from);
    DivBelow((x + 1) * from, to, BoxStart(x, from, to) + 1);
    DivBelow(x * from, to, BoxStart(x, from, to) + 1);
    EndIsNextStart(x, from, to);
    MulMono(s + 1, from, to);
    assert from * to == to * from;
    DivBelow(n, from, to);
  }

  lemma EndIsNextStart(x: nat, from: nat, to: nat)
    requires 1 <= to <= from
    ensures BoxEnd(x, from, to) == BoxStart(x + 1, from, to)
  {
    var q := BoxStart(x, from, to);
    MulStep(x, from);
    MulStep(q, to);
    DivBelow(x * from, to, q);
    DivBelow((x + 1) * from, to, q + 1);
  }

  ghost predicate ReadOnce(s: nat, from: nat, to: nat)
    requires to > 0
  {
    exists x: nat :: x < to && InBox(s, x, from, to) && forall z: nat :: z < to && InBox(s, z, from, to) ==> z == x
  }

  /** With exact ratios the boxes tile the source exactly when the picture is not enlarged. */
  lemma TilesIffNotEnlarged(from: nat, to: nat)
    requires from >= 1 && to >= 1
    ensures (forall s: nat :: s < from ==> ReadOnce(s, from, to)) <==> to <= from
  {
    if to <= from {
      forall s: nat | s < from ensures ReadOnce(s, from, to) {
        BoxesTile(s, Reader(s, from, to), from, to);
        forall z: nat | z < to && InBox(s, z, from, to) ensures z == Reader(s, from, to) {
          BoxesTile(s, z, from, to);
        }
      }
    } else {
      assert InBox(0, 0, from, to) by { DivBelow(0, to, 1); }
      assert InBox(0, 1, from, to) by { DivBelow(from, to, 1); }
      assert !ReadOnce(0, from, to);
    }
  }

  /** So with them, at the stored size, every pixel of the upload is read by exactly one pixel of the stored photo. */
  lemma StoredPhotoReadsEveryPixelOnce(width: nat, height: nat, sx: nat, sy: nat)
    requires sx < width && sy < height
    ensures var (w, h) := DisplaySize(width, height, DISPLAY_MAX_DIMENSION);
            w > 0 && h > 0 && ReadOnce(sx, width, w) && ReadOnce(sy, height, h)
  {
    DisplaySizeFits(width, height, DISPLAY_MAX_DIMENSION);
    var (w, h) := DisplaySize(width, height, DISPLAY_MAX_DIMENSION);
    TilesIffNotEnlarged(width, w);
    TilesIffNotEnlarged(height, h);
  }

  // ------------------------------------------------------------------ //
  // Boxes from rounded ratios
  // ------------------------------------------------------------------ //

  // The code computes each start as the floor of a product of doubles. All that matters of it here is
  // that starts begin at zero and never go back.

  ghost predicate NeverGoBack(start: nat -> nat, to: nat) {
    start(0) == 0 && forall x: nat :: x < to ==> start(x) <= start(x + 1)
  }

  function EndFrom(start: nat -> nat, x: nat): nat {
    Max(start(x) + 1, start(x + 1))
  }

  predicate InBoxFrom(start: nat -> nat, s: nat, x: nat) {
    start(x) <= s < EndFrom(start, x)
  }

  ghost predicate ReadOnceFrom(start: nat -> nat, s: nat, to: nat) {
    exists x: nat :: x < to && InBoxFrom(start, s, x) && forall z: nat :: z < to && InBoxFrom(start, s, z) ==> z == x
  }

  /** No two boxes start at the same source column, and the last one reaches the end. */
  ghost predicate CoverOnce(start: nat -> nat, from: nat, to: nat)
    requires to >= 1
  {
    && EndFrom(start, to - 1) >= from
    && forall x: nat :: x + 1 < to && start(x) < from ==> start(x) < start(x + 1)
  }

  lemma {:induction false} StartsRise(start: nat -> nat, to: nat, x: nat, z: nat)
    requires NeverGoBack(start, to) && x <= z <= to
    ensures start(x) <= start(z)
    decreases z
  {
    if x == z {
    } else {
      StartsRise(start, to, x, z - 1);
    }
  }

  /** The last box among the first n that starts at or before s. */
  lemma {:induction false} LastStart(start: nat -> nat, n: nat, to: nat, s: nat) returns (x: nat)
    requires NeverGoBack(start, to) && 1 <= n <= to
    ensures x < n && start(x) <= s && (x + 1 < n ==> start(x + 1) > s)
    decreases n
  {
    if n == 1 {
      x := 0;
    } else if start(n - 1) <= s {
      x := n - 1;
    } else {
      x := LastStart(start, n - 1, to, s);
    }
  }

  lemma CoveredOnce(start: nat -> nat, from: nat, to: nat, s: nat)
    requires to >= 1 && NeverGoBack(start, to) && CoverOnce(start, from, to) && s < from
    ensures ReadOnceFrom(start, s, to)
  {
    var x := LastStart(start, to, to, s);
    assert InBoxFrom(start, s, x);
    forall z: nat | z < to && InBoxFrom(start, s, z) ensures z == x {
      if z < x {
        assert start(z) < start(z + 1);
        StartsRise(start, to, z + 1, x);
      } else if z > x {
        StartsRise(start, to, x + 1, z);
      }
    }
  }

  lemma TwiceOrNever(start: nat -> nat, from: nat, to: nat) returns (s: nat)
    requires to >= 1 && NeverGoBack(start, to) && !CoverOnce(start, from, to)
    ensures s < from && !ReadOnceFrom(start, s, to)
  {
    if EndFrom(start, to - 1) < from {
      s := EndFrom(start, to - 1);
      forall z: nat | z < to ensures !InBoxFrom(start, s, z) {
        StartsRise(start, to, z, to - 1);
        StartsRise(start, to, z + 1, to);
      }
    } else {
      var x: nat :| x + 1 < to && start(x) < from && start(x) >= start(x + 1);
      s := start(x);
      assert InBoxFrom(start, s, x) && InBoxFrom(start, s, x + 1);
    }
  }

  /** However the starts were rounded: every source column is read by exactly one output column exactly then. */
  lemma ReadOnceIffCovered(start: nat -> nat, from: nat, to: nat)
    requires to >= 1 && NeverGoBack(start, to)
    ensures (forall s: nat :: s < from ==> ReadOnceFrom(start, s, to)) <==> CoverOnce(start, from, to)
  {
    if CoverOnce(start, from, to) {
      forall s: nat | s < from ensures ReadOnceFrom(start, s, to) { CoveredOnce(start, from, to, s); }
    } else {
      var s := TwiceOrNever(start, from, to);
    }
  }

  /** Starts that always rise, as they do shrinking, read the columns before the last end and no others. */
  lemma ReadsUpToTheLastEnd(start: nat -> nat, from: nat, to: nat, s: nat)
    requires to >= 1 && start(0) == 0 && forall x: nat :: x < to ==> start(x) < start(x + 1)
    ensures ReadOnceFrom(start, s, to) <==> s < start(to)
    ensures (forall c: nat :: c < from ==> ReadOnceFrom(start, c, to)) <==> start(to) >= from
  {
    assert NeverGoBack(start, to);
    ReadOnceIffCovered(start, from, to);
    if s < start(to) {
      CoveredOnce(start, start(to), to, s);
    } else {
      forall z: nat | z < to ensures !InBoxFrom(start, s, z) { StartsRise(start, to, z + 1, to); }
    }
  }

  /** The whole number nearest to n / d, ties to even: how IEEE 754 rounds a result to its last place. */
  function Nearest(n: nat, d: nat): nat
    requires d > 0
  {
    var q, r := n / d, n % d;
    if 2 * r < d || (2 * r == d && q % 2 == 0) then q else q + 1
  }

  const TWO_42: nat := 0x400_0000_0000
  const TWO_52: nat := 0x10_0000_0000_0000

  /**
   * A side of 1606 pixels stored at 1600. The ratio is a double between 1 and 2, so a multiple of
   * 2^-52; its product with 1600 one between 2^10 and 2^11, so a multiple of 2^-42. The last box ends
   * at 1605, and the last column of the upload is read by none.
   */
  lemma DoublesLoseAColumn()
    ensures DISPLAY_MAX_DIMENSION == 1600 && DisplaySize(1606, 1606, DISPLAY_MAX_DIMENSION) == (1600, 1600)
    ensures var ratio := Nearest(1606 * TWO_52, 1600);
            var product := Nearest(1600 * ratio, 1024);
            && TWO_52 <= ratio < 2 * TWO_52 && 1024 * TWO_42 <= product < 2048 * TWO_42
            && product / TWO_42 == 1605
  {
    RoundDivOfMultiple(1600, 1606);
  }

  // ------------------------------------------------------------------ //
  // Pixels
  // ------------------------------------------------------------------ //

  /** RGBA, four bytes a pixel, row by row. */
  datatype Pixels = Pixels(width: nat, height: nat, data: seq<Byte>)

  predicate WellFormed(p: Pixels) {
    p.width >= 1 && p.height >= 1 && |p.data| == 4 * (p.height * p.width)
  }

  function PixelIndex(y: nat, x: nat, width: nat): nat {
    MulNonNeg(y, width);
    y * width + x
  }

  lemma PixelIndexBounds(y: nat, x: nat, width: nat, height: nat)
    requires y < height && x < width
    ensures PixelIndex(y, x, width) < height * width
    ensures PixelIndex(y, x, width) / width == y && PixelIndex(y, x, width) % width == x
  {
    MulMono(y + 1, height, width);
    MulStep(y, width);
    DivModUnique(PixelIndex(y, x, width), width, y, x);
  }

  function Channel(p: Pixels, y: nat, x: nat, channel: nat): Byte
    requires WellFormed(p) && y < p.height && x < p.width && channel < 4
  {
    PixelIndexBounds(y, x, p.width, p.height);
    p.data[4 * PixelIndex(y, x, p.width) + channel]
  }

  /** One channel over white, times 255: `255 * (c * alpha + 255 * (1 - alpha))`. */
  function OverWhite(c: Byte, alpha: Byte): nat {
    MulNonNeg(c, alpha);
    c * alpha + 255 * (255 - alpha)
  }

  function Composited(p: Pixels, y: nat, x: nat, channel: nat): nat
    requires WellFormed(p) && y < p.height && x < p.width && channel < 3
  {
    OverWhite(Channel(p, y, x, channel), Channel(p, y, x, 3))
  }

  lemma OverWhiteRange(c: Byte, alpha: Byte)
    ensures 0 <= OverWhite(c, alpha) <= 255 * 255
    ensures alpha == 255 ==> OverWhite(c, alpha) == c * 255
    ensures alpha == 0 ==> OverWhite(c, alpha) == 255 * 255
  {
    MulMono(c, 255, alpha);
  }

  function RowSum(p: Pixels, channel: nat, y: nat, a: nat, b: nat): nat
    requires WellFormed(p) && y < p.height && b <= p.width && channel < 3
  {
    if b <= a then 0 else RowSum(p, channel, y, a, b - 1) + Composited(p, y, b - 1, channel)
  }

  function BoxSum(p: Pixels, channel: nat, top: nat, bottom: nat, left: nat, right: nat): nat
    requires WellFormed(p) && bottom <= p.height && right <= p.width && channel < 3
  {
    if bottom <= top then 0
    else BoxSum(p, channel, top, bottom - 1, left, right) + RowSum(p, channel, bottom - 1, left, right)
  }

  ghost predicate RowWithin(p: Pixels, channel: nat, y: nat, a: nat, b: nat, lo: int, hi: int)
    requires WellFormed(p) && y < p.height && b <= p.width && channel < 3
  {
    forall x :: a <= x < b ==> lo <= Composited(p, y, x, channel) <= hi
  }

  /** Every white-composited value of a box lies in [lo, hi], in 255ths. */
  ghost predicate BoxValuesWithin(p: Pixels, channel: nat, top: nat, bottom: nat, left: nat, right: nat, lo: int,
          hi: int)
    requires WellFormed(p) && bottom <= p.height && right <= p.width && channel < 3
  {
    forall y :: top <= y < bottom ==> RowWithin(p, channel, y, left, right, lo, hi)
  }

  lemma {:induction false} RowSumWithin(p: Pixels, channel: nat, y: nat, a: nat, b: nat, lo: int, hi: int)
    requires WellFormed(p) && y < p.height && a <= b <= p.width && channel < 3
    requires RowWithin(p, channel, y, a, b, lo, hi)
    ensures lo * (b - a) <= RowSum(p, channel, y, a, b) <= hi * (b - a)
    decreases b
  {
    hide Composited;
    if a == b {
    } else {
      RowSumWithin(p, channel, y, a, b - 1, lo, hi);
      assert lo * (b - a) == lo * (b - 1 - a) + lo && hi * (b - a) == hi * (b - 1 - a) + hi;
    }
  }

  lemma {:induction false} BoxSumWithin(
      p: Pixels, channel: nat, top: nat, bottom: nat, left: nat, right: nat, lo: int, hi: int)
    requires WellFormed(p) && top <= bottom <= p.height && left <= right <= p.width && channel < 3
    requires BoxValuesWithin(p, channel, top, bottom, left, right, lo, hi)
    ensures var n := (bottom - top) * (right - left);
            lo * n <= BoxSum(p, channel, top, bottom, left, right) <= hi * n
    decreases bottom
  {
    hide RowSum, RowWithin;
    if top == bottom {
    } else {
      BoxSumWithin(p, channel, top, bottom - 1, left, right, lo, hi);
      RowSumWithin(p, channel, bottom - 1, left, right, lo, hi);
      AddRow(lo, hi, bottom - 1 - top, right - left,
             BoxSum(p, channel, top, bottom - 1, left, right), RowSum(p, channel, bottom - 1, left, right));
    }
  }

  lemma AddRow(lo: int, hi: int, rows: nat, width: nat, above: int, row: int)
    requires lo * (rows * width) <= above <= hi * (rows * width) && lo * width <= row <= hi * width
    ensures lo * ((rows + 1) * width) <= above + row <= hi * ((rows + 1) * width)
  {
    MulStep(rows, width);
    Distribute(rows * width, width, lo);
    Distribute(rows * width, width, hi);
  }

  /** `Math.round` of a box's average. */
  function BoxAverage(p: Pixels, channel: nat, top: nat, bottom: nat, left: nat, right: nat): int
    requires WellFormed(p) && top < bottom <= p.height && left < right <= p.width && channel < 3
  {
    MulNonNeg(bottom - top, right - left);
    RoundDiv(BoxSum(p, channel, top, bottom, left, right), 255 * ((bottom - top) * (right - left)))
  }

  /** An average rounds to something between the rounded extremes of its box; extremes are in 255ths. */
  lemma AverageWithinRoundedExtremes(
      p: Pixels, channel: nat, top: nat, bottom: nat, left: nat, right: nat, lo: int, hi: int)
    requires WellFormed(p) && top < bottom <= p.height && left < right <= p.width && channel < 3
    requires BoxValuesWithin(p, channel, top, bottom, left, right, lo, hi)
    ensures RoundDiv(lo, 255) <= BoxAverage(p, channel, top, bottom, left, right) <= RoundDiv(hi, 255)
  {
    hide BoxSum, BoxValuesWithin;
    BoxSumWithin(p, channel, top, bottom, left, right, lo, hi);
    MulNonNeg(bottom - top, right - left);
    AverageRounds(BoxSum(p, channel, top, bottom, left, right), (bottom - top) * (right - left), lo, hi);
  }

  lemma AverageRounds(sum: int, n: nat, lo: int, hi: int)
    requires n > 0 && lo * n <= sum <= hi * n
    ensures RoundDiv(lo, 255) <= RoundDiv(sum, 255 * n) <= RoundDiv(hi, 255)
  {
    RoundDivCancels(lo, 255, n);
    RoundDivCancels(hi, 255, n);
    RoundDivMono(lo * n, sum, 255 * n);
    RoundDivMono(sum, hi * n, 255 * n);
  }

  lemma Distribute(x: int, y: int, n: int)
    ensures (x + y) * n == x * n + y * n
  {
  }

  lemma Associate(x: int, y: int, n: int)
    ensures x * y * n == x * (y * n)
  {
  }

  lemma RoundDivCancels(a: int, b: nat, n: nat)
    requires b > 0 && n > 0
    ensures b * n > 0 && RoundDiv(a * n, b * n) == RoundDiv(a, b)
  {
    MulNonNeg(b, n);
    var q, r := (2 * a + b) / (2 * b), (2 * a + b) % (2 * b);
    var qb := q * (2 * b);
    assert 2 * a + b == qb + r;
    Distribute(2 * a, b, n);
    Distribute(qb, r, n);
    Associate(2, a, n);
    Associate(q, 2 * b, n);
    Associate(2, b, n);
    Remainder(r, 2 * b, n);
    DivModUnique(2 * (a * n) + b * n, 2 * (b * n), q, r * n);
  }

  lemma Remainder(r: nat, b: nat, n: nat)
    requires r < b && n > 0
    ensures 0 <= r * n < b * n
  {
    MulNonNeg(r, n);
    MulMono(r + 1, b, n);
    MulStep(r, n);
  }

  ghost predicate AveragesStayWithin(lo: int, hi: int) {
    forall p, channel: nat, top: nat, bottom: nat, left: nat, right: nat ::
      WellFormed(p) && top < bottom <= p.height && left < right <= p.width && channel < 3
      && BoxValuesWithin(p, channel, top, bottom, left, right, lo, hi)
      ==> lo <= 255 * BoxAverage(p, channel, top, bottom, left, right) <= hi
  }

  /** A one-pixel picture, the smallest box there is. */
  function OnePixel(c: Byte, alpha: Byte): Pixels {
    Pixels(1, 1, [c, c, c, alpha])
  }

  lemma FirstPixel(p: Pixels, channel: nat)
    requires WellFormed(p) && channel < 4
    ensures channel < |p.data| && Channel(p, 0, 0, channel) == p.data[channel]
  {
    PixelIndexBounds(0, 0, p.width, p.height);
  }

  lemma OnePixelValue(c: Byte, alpha: Byte)
    ensures WellFormed(OnePixel(c, alpha)) && Composited(OnePixel(c, alpha), 0, 0, 0) == OverWhite(c, alpha)
  {
    hide OverWhite, Channel;
    FirstPixel(OnePixel(c, alpha), 0);
    FirstPixel(OnePixel(c, alpha), 3);
  }

  lemma OneValueAverage(p: Pixels)
    requires WellFormed(p)
    ensures BoxAverage(p, 0, 0, 1, 0, 1) == RoundDiv(Composited(p, 0, 0, 0), 255)
  {
    hide Composited, RoundDiv;
    assert RowSum(p, 0, 0, 0, 1) == RowSum(p, 0, 0, 0, 0) + Composited(p, 0, 0, 0);
    assert BoxSum(p, 0, 0, 1, 0, 1) == BoxSum(p, 0, 0, 0, 0, 1) + RowSum(p, 0, 0, 0, 1);
  }

  lemma OnePixelAverage(c: Byte, alpha: Byte, lo: int, hi: int)
    requires lo <= OverWhite(c, alpha) <= hi
    ensures WellFormed(OnePixel(c, alpha))
    ensures BoxAverage(OnePixel(c, alpha), 0, 0, 1, 0, 1) == RoundDiv(OverWhite(c, alpha), 255)
    ensures BoxValuesWithin(OnePixel(c, alpha), 0, 0, 1, 0, 1, lo, hi)
  {
    hide OverWhite, BoxAverage, Composited;
    OnePixelValue(c, alpha);
    OneValueAverage(OnePixel(c, alpha));
  }

  /**
   * Between the smallest and the largest composited value of its box: not always, since rounding can
   * leave the range. It holds for all boxes of values in [lo, hi], where both are composited values,
   * exactly when neither end rounds outwards.
   */
  lemma AveragesStayWithinIff(c: Byte, alpha: Byte, d: Byte, beta: Byte)
    requires OverWhite(c, alpha) <= OverWhite(d, beta)
    ensures var lo, hi := OverWhite(c, alpha), OverWhite(d, beta);
            AveragesStayWithin(lo, hi) <==> 255 * RoundDiv(lo, 255) >= lo && 255 * RoundDiv(hi, 255) <= hi
  {
    hide OverWhite, BoxAverage, BoxValuesWithin, RoundDiv, AveragesStayWithin;
    var lo, hi := OverWhite(c, alpha), OverWhite(d, beta);
    RoundingInwardsSuffices(lo, hi);
    if AveragesStayWithin(lo, hi) {
      UniformBoxForces(c, alpha, lo, hi);
      UniformBoxForces(d, beta, lo, hi);
    }
  }

  lemma UniformBoxForces(c: Byte, alpha: Byte, lo: int, hi: int)
    requires AveragesStayWithin(lo, hi) && lo <= OverWhite(c, alpha) <= hi
    ensures lo <= 255 * RoundDiv(OverWhite(c, alpha), 255) <= hi
  {
    hide OverWhite, BoxAverage, BoxValuesWithin, RoundDiv, WellFormed;
    OnePixelAverage(c, alpha, lo, hi);
    var p := OnePixel(c, alpha);
    assert BoxValuesWithin(p, 0, 0, 1, 0, 1, lo, hi);
  }

  lemma RoundingInwardsSuffices(lo: int, hi: int)
    ensures 255 * RoundDiv(lo, 255) >= lo && 255 * RoundDiv(hi, 255) <= hi ==> AveragesStayWithin(lo, hi)
  {
    hide BoxAverage, BoxValuesWithin, RoundDiv, WellFormed;
    if 255 * RoundDiv(lo, 255) >= lo && 255 * RoundDiv(hi, 255) <= hi {
      forall p, channel: nat, top: nat, bottom: nat, left: nat, right: nat |
        WellFormed(p) && top < bottom <= p.height && left < right <= p.width && channel < 3
        && BoxValuesWithin(p, channel, top, bottom, left, right, lo, hi)
        ensures lo <= 255 * BoxAverage(p, channel, top, bottom, left, right) <= hi
      {
        AverageWithinRoundedExtremes(p, channel, top, bottom, left, right, lo, hi);
      }
    }
  }

  /** For opaque pictures it does hold: between bytes `lo` and `hi` the average is between them too. */
  lemma OpaqueAveragesStayWithin(lo: Byte, hi: Byte)
    requires lo <= hi
    ensures OverWhite(lo, 255) == lo * 255 && OverWhite(hi, 255) == hi * 255
    ensures AveragesStayWithin(lo * 255, hi * 255)
  {
    hide AveragesStayWithin, RoundDiv;
    RoundDivOfMultiple(lo, 255);
    RoundDivOfMultiple(hi, 255);
    RoundingInwardsSuffices(lo * 255, hi * 255);
  }

  /** A nearly black pixel at half transparency composites to 32513/255 and rounds above it. */
  lemma RoundingLeavesTheRange()
    ensures !AveragesStayWithin(OverWhite(1, 128), OverWhite(1, 128))
  {
    assert OverWhite(1, 128) == 32513;
    assert RoundDiv(32513, 255) == 128;
    hide OverWhite, AveragesStayWithin;
    AveragesStayWithinIff(1, 128, 1, 128);
  }

  // ------------------------------------------------------------------ //
  // The filter
  // ------------------------------------------------------------------ //

  /** The colour channel of an output pixel: the average of its box. */
  function Sampled(source: Pixels, width: nat, height: nat, channel: nat, y: nat, x: nat): int
    requires WellFormed(source) && y < height && x < width && channel < 3
  {
    BoxWithin(x, source.width, width);
    BoxWithin(y, source.height, height);
    BoxAverage(source, channel, BoxStart(y, source.height, height), BoxEnd(y, source.height, height),
               BoxStart(x, source.width, width), BoxEnd(x, source.width, width))
  }

  lemma SampledIsByte(source: Pixels, width: nat, height: nat, channel: nat, y: nat, x: nat)
    requires WellFormed(source) && y < height && x < width && channel < 3
    ensures 0 <= Sampled(source, width, height, channel, y, x) < 256
  {
    BoxWithin(x, source.width, width);
    BoxWithin(y, source.height, height);
    var top, bottom := BoxStart(y, source.height, height), BoxEnd(y, source.height, height);
    var left, right := BoxStart(x, source.width, width), BoxEnd(x, source.width, width);
    assert BoxValuesWithin(source, channel, top, bottom, left, right, 0, 65025) by {
      forall sy, sx | top <= sy < bottom && left <= sx < right
        ensures 0 <= Composited(source, sy, sx, channel) <= 65025
      {
        OverWhiteRange(Channel(source, sy, sx, channel), Channel(source, sy, sx, 3));
      }
    }
    hide BoxAverage, BoxValuesWithin, BoxStart, BoxEnd, WellFormed;
    AverageWithinRoundedExtremes(source, channel, top, bottom, left, right, 0, 65025);
  }

  ghost predicate PixelDone(source: Pixels, width: nat, height: nat, data: seq<Byte>, y: nat, x: nat)
    requires WellFormed(source) && y < height && x < width && |data| == 4 * (height * width)
  {
    PixelIndexBounds(y, x, width, height);
    var k := 4 * PixelIndex(y, x, width);
    && data[k] == Sampled(source, width, height, 0, y, x)
    && data[k + 1] == Sampled(source, width, height, 1, y, x)
    && data[k + 2] == Sampled(source, width, height, 2, y, x)
    && data[k + 3] == 255
  }

  lemma PixelIsDone(source: Pixels, width: nat, height: nat, data: seq<Byte>, y: nat, x: nat)
    requires WellFormed(source) && y < height && x < width && |data| == 4 * (height * width)
    requires PixelIndex(y, x, width) < height * width
    requires data[4 * PixelIndex(y, x, width)] == Sampled(source, width, height, 0, y, x)
    requires data[4 * PixelIndex(y, x, width) + 1] == Sampled(source, width, height, 1, y, x)
    requires data[4 * PixelIndex(y, x, width) + 2] == Sampled(source, width, height, 2, y, x)
    requires data[4 * PixelIndex(y, x, width) + 3] == 255
    ensures PixelDone(source, width, height, data, y, x)
  {
    hide Sampled, PixelIndex, WellFormed;
  }

  /** The pixels written before (y, x), in the order the loops visit them. */
  ghost predicate DoneUpTo(source: Pixels, width: nat, height: nat, data: seq<Byte>, y: nat, x: nat)
    requires WellFormed(source) && y <= height && x <= width && |data| == 4 * (height * width)
  {
    forall i: nat, j: nat :: i < height && j < width && (i < y || (i == y && j < x)) ==>
      PixelDone(source, width, height, data, i, j)
  }

  lemma EarlierPixel(i: nat, j: nat, y: nat, x: nat, width: nat)
    requires j < width && (i < y || (i == y && j < x))
    ensures PixelIndex(i, j, width) + 1 <= PixelIndex(y, x, width)
  {
    if i < y { MulMono(i + 1, y, width); MulStep(i, width); }
  }

  /** Writing one pixel leaves the earlier ones done. */
  lemma WriteExtends(source: Pixels, width: nat, height: nat, before: seq<Byte>, after: seq<Byte>, y: nat, x: nat)
    requires WellFormed(source) && y < height && x < width && |before| == |after| == 4 * (height * width)
    requires DoneUpTo(source, width, height, before, y, x) && PixelDone(source, width, height, after, y, x)
    requires forall k :: 0 <= k < 4 * PixelIndex(y, x, width) && k < |before| ==> after[k] == before[k]
    ensures DoneUpTo(source, width, height, after, y, x + 1)
  {
    hide Sampled, WellFormed, PixelIndex;
    forall i: nat, j: nat | i < height && j < width && (i < y || (i == y && j < x + 1))
      ensures PixelDone(source, width, height, after, i, j)
    {
      if i != y || j != x {
        assert PixelDone(source, width, height, before, i, j);
        PixelIndexBounds(i, j, width, height);
        EarlierPixel(i, j, y, x, width);
      }
    }
  }

  lemma NextRow(source: Pixels, width: nat, height: nat, data: seq<Byte>, y: nat)
    requires WellFormed(source) && y < height && |data| == 4 * (height * width)
    ensures DoneUpTo(source, width, height, data, y, width) <==> DoneUpTo(source, width, height, data, y + 1, 0)
  {
    hide PixelDone;
  }

  lemma NothingDone(source: Pixels, width: nat, height: nat, data: seq<Byte>)
    requires WellFormed(source) && |data| == 4 * (height * width)
    ensures DoneUpTo(source, width, height, data, 0, 0)
  {
  }

  lemma AllDone(source: Pixels, width: nat, height: nat, data: seq<Byte>)
    requires WellFormed(source) && |data| == 4 * (height * width) && DoneUpTo(source, width, height, data, height, 0)
    ensures forall y: nat, x: nat :: y < height && x < width ==> PixelDone(source, width, height, data, y, x)
  {
    hide PixelDone;
  }

  lemma BoxStarts(p: Pixels, top: nat, left: nat, right: nat)
    requires WellFormed(p) && top <= p.height && left <= right <= p.width
    ensures forall c: nat :: c < 3 ==> BoxSum(p, c, top, top, left, right) == 0
    ensures Times(top - top, right - left) == 0
  {
  }

  lemma RowStarts(p: Pixels, y: nat, left: nat)
    requires WellFormed(p) && y < p.height && left <= p.width
    ensures forall c: nat :: c < 3 ==> RowSum(p, c, y, left, left) == 0
  {
  }

  lemma RowNext(p: Pixels, y: nat, left: nat, x: nat)
    requires WellFormed(p) && y < p.height && left <= x < p.width
    ensures forall c: nat :: c < 3 ==>
              RowSum(p, c, y, left, x + 1)
              == RowSum(p, c, y, left, x) + OverWhite(Channel(p, y, x, c), Channel(p, y, x, 3))
  {
    hide OverWhite, Channel;
  }

  lemma BoxNext(p: Pixels, top: nat, y: nat, left: nat, right: nat)
    requires WellFormed(p) && top <= y < p.height && left <= right <= p.width
    ensures forall c: nat :: c < 3 ==>
              BoxSum(p, c, top, y + 1, left, right) == BoxSum(p, c, top, y, left, right) + RowSum(p, c, y, left, right)
    ensures Times(y + 1 - top, right - left) == Times(y - top, right - left) + (right - left)
  {
    hide RowSum;
  }

  /** The four sums of a finished box give the output pixel, and its channels fit a byte. */
  lemma AveragesAreSampled(source: Pixels, width: nat, height: nat, y: nat, x: nat, n: int)
    requires WellFormed(source) && y < height && x < width
    requires var y0, y1 := BoxStart(y, source.height, height), BoxEnd(y, source.height, height);
             var x0, x1 := BoxStart(x, source.width, width), BoxEnd(x, source.width, width);
             y0 <= y1 && x0 <= x1 && n == Times(y1 - y0, x1 - x0)
    ensures n > 0
    ensures BoxEnd(y, source.height, height) <= source.height && BoxEnd(x, source.width, width) <= source.width
    ensures var y0, y1 := BoxStart(y, source.height, height), BoxEnd(y, source.height, height);
            var x0, x1 := BoxStart(x, source.width, width), BoxEnd(x, source.width, width);
            forall c: nat :: c < 3 ==>
              RoundDiv(BoxSum(source, c, y0, y1, x0, x1), 255 * n) == Sampled(source, width, height, c, y, x)
    ensures forall c: nat :: c < 3 ==> 0 <= Sampled(source, width, height, c, y, x) < 256
  {
    hide BoxSum, RoundDiv, BoxStart, BoxEnd;
    BoxWithin(y, source.height, height);
    BoxWithin(x, source.width, width);
    MulNonNeg(BoxEnd(y, source.height, height) - BoxStart(y, source.height, height),
              BoxEnd(x, source.width, width) - BoxStart(x, source.width, width));
    forall c: nat | c < 3 ensures 0 <= Sampled(source, width, height, c, y, x) < 256 {
      SampledIsByte(source, width, height, c, y, x);
    }
  }

  method Resample(source: Pixels, width: nat, height: nat) returns (out: array<Byte>)
    requires WellFormed(source) && width >= 1 && height >= 1
    ensures out.Length == 4 * (height * width)
    ensures forall y: nat, x: nat :: y < height && x < width ==> PixelDone(source, width, height, out[..], y, x)
  {
    hide RowSum, BoxSum, Composited, RoundDiv, BoxStart, BoxEnd, PixelIndex, PixelDone, DoneUpTo, Sampled;
    MulNonNeg(height, width);
    out := new Byte[4 * (height * width)](_ => 0);
    NothingDone(source, width, height, out[..]);
    for y := 0 to height
      invariant DoneUpTo(source, width, height, out[..], y, 0)
    {
      var y0, y1 := BoxStart(y, source.height, height), BoxEnd(y, source.height, height);
      BoxWithin(y, source.height, height);
      for x := 0 to width
        invariant DoneUpTo(source, width, height, out[..], y, x)
      {
        var x0, x1 := BoxStart(x, source.width, width), BoxEnd(x, source.width, width);
        BoxWithin(x, source.width, width);
        var r, g, b, n := 0, 0, 0, 0;
        ghost var before := out[..];
        var sy := y0;
        BoxStarts(source, y0, x0, x1);
        while sy < y1 && sy < source.height
          invariant y0 <= sy <= y1 && out[..] == before
          invariant r == BoxSum(source, 0, y0, sy, x0, x1)
          invariant g == BoxSum(source, 1, y0, sy, x0, x1)
          invariant b == BoxSum(source, 2, y0, sy, x0, x1)
          invariant n == Times(sy - y0, x1 - x0)
        {
          var sx := x0;
          RowStarts(source, sy, x0);
          while sx < x1 && sx < source.width
            invariant x0 <= sx <= x1 && out[..] == before
            invariant r == BoxSum(source, 0, y0, sy, x0, x1) + RowSum(source, 0, sy, x0, sx)
            invariant g == BoxSum(source, 1, y0, sy, x0, x1) + RowSum(source, 1, sy, x0, sx)
            invariant b == BoxSum(source, 2, y0, sy, x0, x1) + RowSum(source, 2, sy, x0, sx)
            invariant n == Times(sy - y0, x1 - x0) + (sx - x0)
          {
            RowNext(source, sy, x0, sx);
            var alpha := Channel(source, sy, sx, 3);
            r := r + OverWhite(Channel(source, sy, sx, 0), alpha);
            g := g + OverWhite(Channel(source, sy, sx, 1), alpha);
            b := b + OverWhite(Channel(source, sy, sx, 2), alpha);
            n := n + 1;
            sx := sx + 1;
          }
          BoxNext(source, y0, sy, x0, x1);
          sy := sy + 1;
        }
        AveragesAreSampled(source, width, height, y, x, n);
        PixelIndexBounds(y, x, width, height);
        var to := 4 * PixelIndex(y, x, width);
        assert RoundDiv(r, 255 * n) == Sampled(source, width, height, 0, y, x);
        assert RoundDiv(g, 255 * n) == Sampled(source, width, height, 1, y, x);
        assert RoundDiv(b, 255 * n) == Sampled(source, width, height, 2, y, x);
        out[to], out[to + 1], out[to + 2] := RoundDiv(r, 255 * n), RoundDiv(g, 255 * n), RoundDiv(b, 255 * n);
        out[to + 3] := 255;
        PixelIsDone(source, width, height, out[..], y, x);
        WriteExtends(source, width, height, before, out[..], y, x);
      }
      NextRow(source, width, height, out[..], y);
    }
    AllDone(source, width, height, out[..]);
  }
}
