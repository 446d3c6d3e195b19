/** Why the quotient loop and the half comparison of `emela_emb_float_parse` round correctly, also
    when digits beyond the 800th were dropped. */
module Rounding {
  import opened Powers
  import opened Binary64

  // Patterns count units of 2^-1074; midpoints are multiples of 2^-1075.

  /** No multiple of `w / 2^1075` lies strictly between `n` and `n + 1`: dropping the digits after
      those of `n` cannot cross a rounding boundary. */
  ghost predicate NoBoundaryWithin(n: nat, w: nat) {
    forall h: nat :: n * Pow(2, 1075) < h * w ==> (n + 1) * Pow(2, 1075) <= h * w
  }

  /** Multiples of 2^1075 do not fall between multiples of 2^1075. */
  lemma NoBoundaryBetweenMultiples(n: nat, w: nat, k: nat)
    requires w == k * Pow(2, 1075)
    ensures NoBoundaryWithin(n, w)
  {
    hide Pow;
    var p := Pow(2, 1075);
    PowPositive(2, 1075);
    forall h: nat | n * p < h * w ensures (n + 1) * p <= h * w {
      assert h * w == (h * k) * p by {
        MulAssociate(h, k, p);
      }
      MulSign(h, k);
      MulCancel(n, h * k, p);
      MulCancel(n + 1, h * k, p);
    }
  }

  /** `n / d` in units of 2^scale, as quotient and remainder of `n * 2^1074` by `w = d * 2^scale`. */
  ghost predicate Divided(n: nat, w: nat, quotient: nat, remainder: nat) {
    remainder < w && n * Pow(2, 1075) == 2 * (quotient * w + remainder)
  }

  /** The true numerator over the common denominator: `rest` is what was dropped after `n`. */
  function TrueNumerator(n: nat, unit: nat, rest: nat): nat {
    MulSign(n, unit);
    n * unit + rest
  }

  /** Comparisons with a boundary carry over from `n / d` to the true value. */
  lemma BoundaryTransfers(n: nat, w: nat, h: nat, unit: nat, rest: nat)
    requires rest < unit && (rest > 0 ==> NoBoundaryWithin(n, w))
    ensures n * Pow(2, 1075) < h * w ==> TrueNumerator(n, unit, rest) * Pow(2, 1075) < (h * w) * unit
    ensures n * Pow(2, 1075) > h * w ==> TrueNumerator(n, unit, rest) * Pow(2, 1075) > (h * w) * unit
    ensures n * Pow(2, 1075) == h * w ==>
              TrueNumerator(n, unit, rest) * Pow(2, 1075) >= (h * w) * unit &&
              (TrueNumerator(n, unit, rest) * Pow(2, 1075) == (h * w) * unit <==> rest == 0)
  {
    hide Pow;
    var p := Pow(2, 1075);
    PowPositive(2, 1075);
    var x, b := n * p, h * w;
    assert TrueNumerator(n, unit, rest) * p == x * unit + rest * p by {
      MulDistribute(n * unit, rest, p);
      MulAssociate(n, unit, p);
      MulAssociate(n, p, unit);
    }
    MulMonotone(0, rest, p);
    if x < b {
      if rest == 0 {
        MulStrict(x, b, unit);
      } else {
        assert x + p <= b by {
          MulDistribute(n, 1, p);
        }
        MulStrict(rest, unit, p);
        MulMonotone(x + p, b, unit);
        MulDistribute(x, p, unit);
      }
    } else if x > b {
      MulStrict(b, x, unit);
    } else {
      MulEqual(x, b, unit);
      if rest > 0 {
        MulPositive(rest, p);
      }
    }
  }

  /** The boundary above pattern `p`, over the common denominator. */
  lemma MidpointAt(p: nat, scale: nat, quotient: nat, d: nat, unit: nat)
    requires Scaled(p) == quotient * Pow(2, scale) && Scaled(p + 1) == (quotient + 1) * Pow(2, scale)
    ensures Midpoint2(p) * (d * unit) == ((2 * quotient + 1) * (d * Pow(2, scale))) * unit
  {
    hide Pow, Scaled;
    var u := Pow(2, scale);
    MulDistribute(quotient, quotient + 1, u);
    ScaleOver(2 * quotient + 1, u, d, unit);
    MulEqual(Midpoint2(p), (2 * quotient + 1) * u, d * unit);
  }

  lemma ScaleOver(h: int, u: int, d: int, unit: int)
    ensures (h * u) * (d * unit) == (h * (d * u)) * unit
  {
    MulAssociate(h * u, d, unit);
    assert (h * u) * d == h * (d * u) by {
      MulAssociate(h, u, d);
    }
  }

  /** The boundary above a pattern whose value is `h / 2` units lies above it. */
  lemma UpperWide(m: nat, h: nat, scale: nat, d: nat, unit: nat)
    requires 2 * Scaled(m) == h * Pow(2, scale) && Scaled(m + 1) > Scaled(m) && d > 0 && unit > 0
    ensures Midpoint2(m) * (d * unit) > (h * (d * Pow(2, scale))) * unit
  {
    hide Pow, Scaled;
    MulPositive(d, unit);
    ScaleOver(h, Pow(2, scale), d, unit);
    MulStrict(h * Pow(2, scale), Midpoint2(m), d * unit);
  }

  lemma LowerWide(m: nat, h: nat, scale: nat, d: nat, unit: nat)
    requires m > 0 && 2 * Scaled(m) == h * Pow(2, scale) && Scaled(m) > Scaled(m - 1) && d > 0 && unit > 0
    ensures Midpoint2(m - 1) * (d * unit) < (h * (d * Pow(2, scale))) * unit
  {
    hide Pow, Scaled;
    MulPositive(d, unit);
    ScaleOver(h, Pow(2, scale), d, unit);
    MulStrict(Midpoint2(m - 1), h * Pow(2, scale), d * unit);
  }

  lemma HalfUnits(quotient: int, remainder: int, w: int)
    ensures 2 * (quotient * w + remainder) == (2 * quotient) * w + 2 * remainder
    ensures (2 * quotient + 1) * w == (2 * quotient) * w + w
    ensures (2 * quotient + 2) * w == (2 * quotient) * w + 2 * w
  {
  }

  /** The core of the conversion.  The kept digits give `quotient` units of 2^scale and a remainder;
      rounding up exactly when the remainder is above half, or at half with something dropped or an
      odd quotient, rounds the true value correctly. */
  lemma RoundQuotient(n: nat, d: nat, scale: nat, quotient: nat, remainder: nat, unit: nat, rest: nat, up: bool)
    requires d > 0 && rest < unit
    requires Divided(n, d * Pow(2, scale), quotient, remainder)
    requires rest > 0 ==> NoBoundaryWithin(n, d * Pow(2, scale))
    requires scale <= 2045 && quotient < 2 * HIDDEN && (scale == 0 || HIDDEN <= quotient)
    requires up <==> 2 * remainder > d * Pow(2, scale) ||
                     (2 * remainder == d * Pow(2, scale) && (rest > 0 || quotient % 2 == 1))
    ensures RoundsTo(TrueNumerator(n, unit, rest), d * unit, scale * HIDDEN + quotient + if up then 1 else 0)
  {
    hide Pow, Scaled, Midpoint2, TrueNumerator, AboveLower, BelowUpper, Divided, NoBoundaryWithin;
    var p := scale * HIDDEN + quotient;
    MulPositive(d, unit);
    CompareHalf(n, d, scale, quotient, remainder, unit, rest);
    if up {
      PatternParity(scale, quotient + 1);
      AtLeastHalf(TrueNumerator(n, unit, rest), d * unit, p);
      BelowNext(n, d, scale, quotient, remainder, unit, rest);
    } else {
      PatternParity(scale, quotient);
      AtMostHalf(TrueNumerator(n, unit, rest), d * unit, p);
      AbovePrevious(n, d, scale, quotient, remainder, unit, rest);
    }
  }

  lemma AtLeastHalf(num: nat, den: nat, p: nat)
    requires num * Pow(2, 1075) >= Midpoint2(p) * den
    requires num * Pow(2, 1075) == Midpoint2(p) * den ==> (p + 1) % 2 == 0
    ensures AboveLower(num, den, p + 1)
  {
    hide Pow, Scaled, Midpoint2;
  }

  lemma AtMostHalf(num: nat, den: nat, p: nat)
    requires num * Pow(2, 1075) <= Midpoint2(p) * den
    requires num * Pow(2, 1075) == Midpoint2(p) * den ==> p % 2 == 0
    ensures BelowUpper(num, den, p)
  {
    hide Pow, Scaled, Midpoint2;
  }

  /** The half comparison decides on which side of the boundary above the quotient the true value
      lies. */
  lemma CompareHalf(n: nat, d: nat, scale: nat, quotient: nat, remainder: nat, unit: nat, rest: nat)
    requires d > 0 && rest < unit && Divided(n, d * Pow(2, scale), quotient, remainder)
    requires rest > 0 ==> NoBoundaryWithin(n, d * Pow(2, scale))
    requires quotient < 2 * HIDDEN && (scale == 0 || HIDDEN <= quotient)
    ensures var w := d * Pow(2, scale);
            var x := TrueNumerator(n, unit, rest) * Pow(2, 1075);
            var half := Midpoint2(scale * HIDDEN + quotient) * (d * unit);
            && (2 * remainder < w ==> x < half)
            && (2 * remainder > w ==> x > half)
            && (2 * remainder == w ==> x >= half && (x == half <==> rest == 0))
  {
    hide Pow, Scaled, Midpoint2, TrueNumerator;
    var w, p := d * Pow(2, scale), scale * HIDDEN + quotient;
    ScaledParts(scale, quotient);
    ScaledParts(scale, quotient + 1);
    HalfUnits(quotient, remainder, w);
    MidpointAt(p, scale, quotient, d, unit);
    BoundaryTransfers(n, w, 2 * quotient + 1, unit, rest);
  }

  lemma BelowNext(n: nat, d: nat, scale: nat, quotient: nat, remainder: nat, unit: nat, rest: nat)
    requires d > 0 && rest < unit && Divided(n, d * Pow(2, scale), quotient, remainder)
    requires rest > 0 ==> NoBoundaryWithin(n, d * Pow(2, scale))
    requires scale <= 2045 && quotient < 2 * HIDDEN && (scale == 0 || HIDDEN <= quotient)
    ensures BelowUpper(TrueNumerator(n, unit, rest), d * unit, scale * HIDDEN + quotient + 1)
  {
    hide Pow, Scaled, Midpoint2, TrueNumerator;
    var p, w := scale * HIDDEN + quotient, d * Pow(2, scale);
    ScaledParts(scale, quotient + 1);
    HalfUnits(quotient, remainder, w);
    BoundaryTransfers(n, w, 2 * quotient + 2, unit, rest);
    if p + 1 < INFINITY {
      StepUp(p, scale, quotient, d, unit);
    }
  }

  lemma AbovePrevious(n: nat, d: nat, scale: nat, quotient: nat, remainder: nat, unit: nat, rest: nat)
    requires d > 0 && rest < unit && Divided(n, d * Pow(2, scale), quotient, remainder)
    requires rest > 0 ==> NoBoundaryWithin(n, d * Pow(2, scale))
    requires scale <= 2045 && quotient < 2 * HIDDEN && (scale == 0 || HIDDEN <= quotient)
    ensures AboveLower(TrueNumerator(n, unit, rest), d * unit, scale * HIDDEN + quotient)
  {
    hide Pow, Scaled, Midpoint2, TrueNumerator;
    var p, w := scale * HIDDEN + quotient, d * Pow(2, scale);
    ScaledParts(scale, quotient);
    HalfUnits(quotient, remainder, w);
    BoundaryTransfers(n, w, 2 * quotient, unit, rest);
    StepDown(p, scale, quotient, d, unit);
  }

  lemma StepUp(p: nat, scale: nat, quotient: nat, d: nat, unit: nat)
    requires p < INFINITY && Scaled(p + 1) == (quotient + 1) * Pow(2, scale) && d > 0 && unit > 0
    ensures Midpoint2(p + 1) * (d * unit) > ((2 * quotient + 2) * (d * Pow(2, scale))) * unit
  {
    hide Pow, Scaled, Midpoint2;
    DoubleScaled(quotient, Pow(2, scale));
    ScaledStep(p + 1);
    UpperWide(p + 1, 2 * quotient + 2, scale, d, unit);
  }

  lemma StepDown(p: nat, scale: nat, quotient: nat, d: nat, unit: nat)
    requires Scaled(p) == quotient * Pow(2, scale) && d > 0 && unit > 0
    ensures p > 0 ==> Midpoint2(p - 1) * (d * unit) < ((2 * quotient) * (d * Pow(2, scale))) * unit
  {
    hide Pow, Scaled, Midpoint2;
    DoubleScaled(quotient, Pow(2, scale));
    if p > 0 {
      ScaledStep(p - 1);
      LowerWide(p, 2 * quotient, scale, d, unit);
    }
  }

  lemma DoubleScaled(quotient: int, u: int)
    ensures 2 * (quotient * u) == (2 * quotient) * u
    ensures 2 * ((quotient + 1) * u) == (2 * quotient + 2) * u
  {
  }

  lemma PatternParity(scale: nat, mantissa: nat)
    ensures (scale * HIDDEN + mantissa) % 2 == mantissa % 2
  {
    var k := scale * 0x8_0000_0000_0000;
    assert scale * HIDDEN == 2 * k;
    EvenShift(k, mantissa);
  }

  lemma EvenShift(k: int, r: int)
    ensures (2 * k + r) % 2 == r % 2
  {
  }
}
