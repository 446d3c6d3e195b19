/** The rounding interval of a pattern, as `emela_emb_float_to_string` computes it, and how many
    digits are enough to get inside. */
module Interval {
  import opened Powers
  import opened BigNat
  import opened Binary64
  import opened Magnitudes
  import opened DecimalText
  import opened FloatSearch

  /** The pattern is a power of two whose lower neighbour is only half as far as the upper one. */
  predicate Lopsided(m: nat) {
    2 * HIDDEN <= m && m % HIDDEN == 0
  }

  predicate Finite(m: nat) {
    0 < m < INFINITY
  }

  lemma ScaleRange(m: nat)
    requires Finite(m)
    ensures 0 < Mantissa(m) < 2 * HIDDEN && Scale(m) <= 2045
    ensures Lopsided(m) <==> Mantissa(m) == HIDDEN && Scale(m) > 0
    ensures m % 2 == Mantissa(m) % 2
  {
    assert m == HIDDEN * (m / HIDDEN) + m % HIDDEN;
  }

  /** The boundary above, as mantissa and exponent. */
  lemma MidpointAbove(m: nat)
    ensures Midpoint2(m) == (2 * Mantissa(m) + 1) * Pow(2, Scale(m))
  {
    hide Pow;
    ScaledStep(m);
    var u := Pow(2, Scale(m));
    MulDistribute(2 * Mantissa(m), 1, u);
    MulAssociate(2, Mantissa(m), u);
  }

  lemma ScaleBelow(m: nat)
    requires Finite(m)
    ensures Scale(m - 1) == if Lopsided(m) then Scale(m) - 1 else Scale(m)
  {
    var k, r := m / HIDDEN, m % HIDDEN;
    assert m == HIDDEN * k + r;
    if m > HIDDEN {
      if r == 0 {
        DivUnique(m - 1, HIDDEN, k - 1, HIDDEN - 1);
      } else {
        DivUnique(m - 1, HIDDEN, k, r - 1);
      }
    }
  }

  /** The boundary below, as mantissa and exponent. */
  lemma MidpointBelow(m: nat)
    requires Finite(m)
    ensures Midpoint2(m - 1) == 2 * Scaled(m) - Pow(2, Scale(m - 1))
    ensures Lopsided(m) ==> Midpoint2(m - 1) == (4 * Mantissa(m) - 1) * Pow(2, Scale(m) - 1)
    ensures !Lopsided(m) ==> Midpoint2(m - 1) == (2 * Mantissa(m) - 1) * Pow(2, Scale(m))
  {
    hide Pow;
    ScaledStep(m - 1);
    ScaleBelow(m);
    ScaleRange(m);
    var mantissa, u := Mantissa(m), Pow(2, Scale(m));
    if Lopsided(m) {
      var half := Pow(2, Scale(m) - 1);
      PowNext(1, 2, Scale(m) - 1);
      MulAssociate(mantissa, 2, half);
      MulDistribute(4 * mantissa, -1, half);
      MulAssociate(2, mantissa * 2, half);
    } else {
      MulDistribute(2 * mantissa, -1, u);
      MulAssociate(2, mantissa, u);
    }
  }

  /** The two comparisons of the search decide whether the decimal rounds back. */
  lemma InsideRoundsBack(c: nat, e: int, m: nat)
    requires Finite(m)
    ensures var lower, upper, even := DecimalSign(c, e, Midpoint2(m - 1)), DecimalSign(c, e, Midpoint2(m)), m % 2 == 0;
            DecimalRoundsTo(c, e, m) <==> (lower > 0 || (even && lower == 0)) && (upper < 0 || (even && upper == 0))
  {
    hide Pow, Midpoint2, Scaled;
    PowPositive(10, Up(-e));
  }

  /** `10^e` in units of 2^-1075, up to the common denominator. */
  function Unit(e: int): nat {
    MulSign(Pow(10, Up(e)), Pow(2, 1075));
    Pow(10, Up(e)) * Pow(2, 1075)
  }

  function Denominator(e: int): nat {
    Pow(10, Up(-e))
  }

  /** `q` is the decimal with exponent `e` nearest to pattern `m`. */
  ghost predicate NearestDecimal(m: nat, e: int, q: nat) {
    Nearest(2 * Scaled(m) * Denominator(e), Unit(e), q)
  }

  /** `order` is the decimal order of pattern `m`. */
  ghost predicate HasOrder(m: nat, order: int) {
    DecimalSign(1, order, 2 * Scaled(m)) <= 0 && DecimalSign(1, order + 1, 2 * Scaled(m)) > 0
  }

  /** The candidate with `digits` digits. */
  ghost predicate Candidate(m: nat, order: int, digits: nat, q: nat) {
    NearestDecimal(m, order - digits + 1, q)
  }

  lemma SignOverUnit(c: nat, e: int, h: nat)
    ensures DecimalSign(c, e, h) == Sign(c * Unit(e), h * Denominator(e))
  {
    hide Pow, Sign;
    DecimalSignParts(c, e, h);
  }

  lemma UnitPositive(e: int)
    ensures Unit(e) > 0 && Denominator(e) > 0
  {
    hide Pow;
    PowPositive(10, Up(e));
    PowPositive(10, Up(-e));
    PowPositive(2, 1075);
    MulPositive(Pow(10, Up(e)), Pow(2, 1075));
  }

  /** With `digits` digits, the value is between `10^(digits - 1)` and `10^digits` units. */
  lemma OrderInUnits(m: nat, order: int, digits: nat)
    requires HasOrder(m, order) && 0 < digits
    ensures var e := order - digits + 1;
            var x := 2 * Scaled(m) * Denominator(e);
            Pow(10, digits - 1) * Unit(e) <= x < Pow(10, digits) * Unit(e)
  {
    hide Pow, DecimalSign, Scaled, Unit, Denominator;
    var e, h := order - digits + 1, 2 * Scaled(m);
    DecimalShift(1, e, digits - 1, h);
    DecimalShift(1, e, digits, h);
    SignOverUnit(Pow(10, digits - 1), e, h);
    SignOverUnit(Pow(10, digits), e, h);
  }

  /** A candidate has the right number of digits, or is the next power of ten. */
  lemma CandidateRange(m: nat, order: int, digits: nat, q: nat)
    requires HasOrder(m, order) && 0 < digits && Candidate(m, order, digits, q)
    ensures 0 < Pow(10, digits - 1) <= q <= Pow(10, digits)
  {
    hide Pow, Nearest, Scaled, Unit, Denominator;
    var e := order - digits + 1;
    OrderInUnits(m, order, digits);
    PowPositive(10, digits - 1);
    NearestRange(2 * Scaled(m) * Denominator(e), Unit(e), q, Pow(10, digits - 1), Pow(10, digits));
  }

  // ---------- seventeen digits are enough ----------

  /** The distance to the boundary below is more than 2^-55 of the value. */
  lemma GapBelow(m: nat)
    requires Finite(m)
    ensures 2 * Scaled(m) <= Pow(2, 54) * Pow(2, Scale(m - 1))
    ensures Pow(2, Scale(m - 1)) <= Pow(2, Scale(m))
  {
    hide Pow;
    ScaleRange(m);
    ScaleBelow(m);
    PowHidden();
    PowNext(1, 2, 52);
    PowNext(1, 2, 53);
    var u, low := Pow(2, Scale(m)), Pow(2, Scale(m - 1));
    PowMonotone(2, Scale(m - 1), Scale(m));
    if Lopsided(m) {
      PowNext(1, 2, Scale(m) - 1);
      MulAssociate(HIDDEN, 2, low);
      MulAssociate(2, 2 * HIDDEN, low);
    } else {
      MulAssociate(2, Mantissa(m), u);
      MulMonotone(2 * Mantissa(m), 4 * HIDDEN, u);
    }
  }

  /** With seventeen digits the unit is less than twice the distance to either boundary. */
  lemma UnitIsSmall(m: nat, order: int)
    requires Finite(m) && HasOrder(m, order)
    ensures Unit(order - 16) < 2 * (Pow(2, Scale(m - 1)) * Denominator(order - 16))
  {
    hide Pow, Unit, Denominator, Scaled, HasOrder;
    var e := order - 16;
    var t, d, gap := Unit(e), Denominator(e), Pow(2, Scale(m - 1));
    UnitPositive(e);
    OrderInUnits(m, order, 17);
    GapBelow(m);
    TwoPowers();
    assert Pow(10, 16) == 1_0000_0000_0000_0000 by {
      TenPowers();
      PowNext(1, 10, 16);
    }
    MulMonotone(2 * Scaled(m), Pow(2, 54) * gap, d);
    MulAssociate(Pow(2, 54), gap, d);
  }

  lemma SeventeenSuffice(m: nat, order: int, q: nat)
    requires Finite(m) && HasOrder(m, order) && Candidate(m, order, 17, q)
    ensures DecimalRoundsTo(q, order - 16, m)
  {
    hide Pow, Unit, Denominator, Scaled, HasOrder, Midpoint2, DecimalSign, DecimalRoundsTo;
    var e := order - 16;
    var t, d := Unit(e), Denominator(e);
    UnitPositive(e);
    UnitIsSmall(m, order);
    GapBelow(m);
    MidpointBelow(m);
    assert Midpoint2(m) == 2 * Scaled(m) + Pow(2, Scale(m)) by {
      MidpointSum(m);
    }
    StrictlyInside(2 * Scaled(m), Pow(2, Scale(m - 1)), Pow(2, Scale(m)), d, t, q);
    SignOverUnit(q, e, Midpoint2(m - 1));
    SignOverUnit(q, e, Midpoint2(m));
    InsideRoundsBack(q, e, m);
  }

  lemma MidpointSum(m: nat)
    ensures Midpoint2(m) == 2 * Scaled(m) + Pow(2, Scale(m))
  {
    hide Pow, Scaled;
    ScaledStep(m);
  }

  lemma StrictlyInside(h: nat, below: nat, above: nat, d: nat, t: nat, q: nat)
    requires Nearest(h * d, t, q) && 0 < below <= above && below <= h && d > 0 && t < 2 * (below * d)
    ensures (h - below) * d < q * t < (h + above) * d
  {
    MulDistribute(h, -(below as int), d);
    MulDistribute(h, above, d);
    MulMonotone(below, above, d);
    MulAssociate(2, q, t);
    MulAssociate(2, h, d);
  }

  // ---------- fewer digits ----------

  /** Some decimal of at most `digits` significant digits rounds to `m`. */
  ghost predicate EnoughDigits(m: nat, digits: nat) {
    exists c: nat, e: int :: c <= Pow(10, digits) && DecimalRoundsTo(c, e, m)
  }

  /** Rounding back, compared over one unit. */
  lemma InsideInUnits(c: nat, e: int, m: nat)
    requires Finite(m)
    ensures var x, low, high := 2 * Scaled(m) * Denominator(e), Midpoint2(m - 1) * Denominator(e), Midpoint2(m) * Denominator(e);
            && low < x < high && x - low <= high - x && (!Lopsided(m) ==> x - low == high - x)
            && (DecimalRoundsTo(c, e, m) <==> low <= c * Unit(e) <= high && (low == c * Unit(e) || c * Unit(e) == high ==> m % 2 == 0))
  {
    hide Pow, Unit, Denominator, Scaled, Midpoint2, DecimalSign, DecimalRoundsTo;
    InsideRoundsBack(c, e, m);
    SignOverUnit(c, e, Midpoint2(m - 1));
    SignOverUnit(c, e, Midpoint2(m));
    MidpointBelow(m);
    MidpointSum(m);
    GapBelow(m);
    ScaleBelow(m);
    PowPositive(2, Scale(m - 1));
    PowPositive(2, Scale(m));
    var h, low, high, d := 2 * Scaled(m), Midpoint2(m - 1), Midpoint2(m), Denominator(e);
    UnitPositive(e);
    MulStrict(low, h, d);
    MulStrict(h, high, d);
    MulMonotone(h - low, high - h, d);
    MulDistribute(h - low, low, d);
    MulDistribute(high - h, h, d);
    if !Lopsided(m) {
      MulEqual(h - low, high - h, d);
    }
  }

  /** Among decimals of one exponent, being inside is decided by the nearest and the next one up. */
  lemma NearestOrNext(x: nat, low: nat, high: nat, t: nat, q: nat, c: nat, even: bool)
    requires Nearest(x, t, q) && low < x < high && x - low <= high - x
    requires low <= c * t <= high && (low == c * t || c * t == high ==> even)
    ensures (low <= q * t <= high && (low == q * t || q * t == high ==> even)) ||
            (q < c && q * t < x && low <= (q + 1) * t <= high && (low == (q + 1) * t || (q + 1) * t == high ==> even))
    ensures x - low == high - x ==> low <= q * t <= high && (low == q * t || q * t == high ==> even)
  {
    MulAssociate(2, q, t);
    MulDistribute(q, 1, t);
    if c < q {
      MulMonotone(c + 1, q, t);
      MulDistribute(c, 1, t);
    } else if c > q {
      MulMonotone(q + 1, c, t);
    }
  }

  /** A decimal of at most `digits` digits that rounds back can be taken from the grid the search
      looks at. */
  lemma OnTheGrid(m: nat, order: int, digits: nat, c: nat, e: int) returns (c': nat)
    requires Finite(m) && HasOrder(m, order) && 0 < digits && c <= Pow(10, digits) && DecimalRoundsTo(c, e, m)
    ensures DecimalRoundsTo(c', order - digits + 1, m)
  {
    hide Pow, DecimalSign, Midpoint2, Scaled, DecimalRoundsTo, Unit, Denominator;
    var grid := order - digits + 1;
    InsideRoundsBack(c, e, m);
    if e >= grid {
      c' := c * Pow(10, e - grid);
      MulSign(c, Pow(10, e - grid));
      DecimalShift(c, grid, e - grid, Midpoint2(m - 1));
      DecimalShift(c, grid, e - grid, Midpoint2(m));
      InsideRoundsBack(c', grid, m);
    } else {
      c' := Pow(10, digits - 1);
      var wide := Pow(10, order - e);
      PowMonotone(10, digits, order - e);
      InsideInUnits(c, e, m);
      InsideInUnits(wide, e, m);
      MulMonotone(c, wide, Unit(e));
      DecimalShift(1, e, order - e, 2 * Scaled(m));
      SignOverUnit(wide, e, 2 * Scaled(m));
      assert DecimalRoundsTo(wide, e, m);
      InsideRoundsBack(wide, e, m);
      InsideRoundsBack(c', grid, m);
      SameOnGrid(e, order, digits, Midpoint2(m - 1));
      SameOnGrid(e, order, digits, Midpoint2(m));
    }
  }

  lemma SameOnGrid(e: int, order: int, digits: nat, h: nat)
    requires 0 < digits && e <= order
    ensures DecimalSign(Pow(10, order - e), e, h) == DecimalSign(Pow(10, digits - 1), order - digits + 1, h)
  {
    hide Pow, DecimalSign;
    DecimalShift(1, e, order - e, h);
    DecimalShift(1, order - digits + 1, digits - 1, h);
  }

  /** Exactly when `digits` digits are enough: when the nearest candidate rounds back, or the next one
      up does.  The search looks at the nearest only. */
  lemma EnoughDigitsExactly(m: nat, order: int, digits: nat, q: nat)
    requires Finite(m) && HasOrder(m, order) && 0 < digits && Candidate(m, order, digits, q)
    ensures var e := order - digits + 1;
            EnoughDigits(m, digits) <==> DecimalRoundsTo(q, e, m) || (q < Pow(10, digits) && DecimalRoundsTo(q + 1, e, m))
    ensures !Lopsided(m) ==> (EnoughDigits(m, digits) <==> DecimalRoundsTo(q, order - digits + 1, m))
  {
    hide Pow, DecimalSign, Midpoint2, Scaled, DecimalRoundsTo, Unit, Denominator, HasOrder, Nearest;
    var e := order - digits + 1;
    CandidateRange(m, order, digits, q);
    if EnoughDigits(m, digits) {
      var c: nat, f: int :| c <= Pow(10, digits) && DecimalRoundsTo(c, f, m);
      var c' := OnTheGrid(m, order, digits, c, f);
      InsideInUnits(c', e, m);
      InsideInUnits(q, e, m);
      InsideInUnits(q + 1, e, m);
      var x, d := 2 * Scaled(m) * Denominator(e), Denominator(e);
      NearestOrNext(x, Midpoint2(m - 1) * d, Midpoint2(m) * d, Unit(e), q, c', m % 2 == 0);
      OrderInUnits(m, order, digits);
      if q >= Pow(10, digits) {
        MulMonotone(Pow(10, digits), q, Unit(e));
      }
    }
  }
}
