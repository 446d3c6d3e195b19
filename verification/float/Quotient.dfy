/** The shifted division of `emela_emb_float_parse`: how far to shift so that the quotient is the
    significand, and why 800 digits are enough. */
module Quotient {
  import opened Powers
  import opened Rounding
  import opened Magnitudes

  /** The exponent of the unit the significand is counted in, above 2^-1074. */
  function UnitScale(binaryExponent: int): nat {
    Up(binaryExponent + 1022)
  }

  /** After the shift, the quotient has at most 53 bits, exactly 53 for a normal number. */
  lemma QuotientRange(n: nat, d: nat, exponent: int, n': nat, d': nat)
    requires Bracket(n, d, exponent) && -1075 <= exponent <= 1023
    requires Shifts(n, d, exponent, n', d')
    ensures n' < d' * Pow(2, 53)
    ensures exponent >= -1022 ==> d' * Pow(2, 52) <= n'
  {
    hide Pow;
    PowZero(2);
    if exponent >= -1022 {
      if exponent <= 52 {
        ShiftCompare(2, n, d, Up(-exponent - 1), Up(exponent + 1), 52 - exponent, 53);
        ShiftCompare(2, n, d, Up(-exponent), Up(exponent), 52 - exponent, 52);
      } else {
        ShiftCompare(2, n, d, Up(-exponent - 1), Up(exponent + 1), 0, exponent + 1);
        ShiftCompare(2, n, d, Up(-exponent), Up(exponent), 0, exponent);
        PowAdd(2, exponent - 52, 53);
        PowAdd(2, exponent - 52, 52);
        MulAssociate(d, Pow(2, exponent - 52), Pow(2, 53));
        MulAssociate(d, Pow(2, exponent - 52), Pow(2, 52));
      }
    } else {
      ShiftCompare(2, n, d, Up(-exponent - 1), Up(exponent + 1), 1074, 1075 + exponent);
      PowMonotone(2, 1075 + exponent, 53);
      MulMonotone(Pow(2, 1075 + exponent), Pow(2, 53), d);
    }
  }

  /** How numerator and denominator are shifted for binary exponent `exponent`. */
  ghost predicate Shifts(n: nat, d: nat, exponent: int, n': nat, d': nat) {
    if exponent < -1022 then n' == n * Pow(2, 1074) && d' == d
    else if exponent <= 52 then n' == n * Pow(2, 52 - exponent) && d' == d
    else n' == n && d' == d * Pow(2, exponent - 52)
  }

  /** The remainder of the shifted division, in units of 2^-1075 over the denominator. */
  function RemainderUnits(exponent: int, remainder: nat): nat {
    MulSign(remainder, Pow(2, if exponent <= 52 then UnitScale(exponent) else 1074));
    remainder * Pow(2, if exponent <= 52 then UnitScale(exponent) else 1074)
  }

  /** Dividing the shifted numbers divides the quotient itself in units of 2^(UnitScale - 1074). */
  lemma ShiftedDivision(n: nat, d: nat, exponent: int, n': nat, d': nat, quotient: nat, remainder: nat)
    requires Shifts(n, d, exponent, n', d') && remainder < d' && n' == quotient * d' + remainder
    ensures Divided(n, d * Pow(2, UnitScale(exponent)), quotient, RemainderUnits(exponent, remainder))
    ensures 2 * RemainderUnits(exponent, remainder) < d * Pow(2, UnitScale(exponent)) <==> 2 * remainder < d'
    ensures 2 * RemainderUnits(exponent, remainder) > d * Pow(2, UnitScale(exponent)) <==> 2 * remainder > d'
  {
    hide Pow;
    var scale := UnitScale(exponent);
    if exponent <= 52 {
      DivisionSmall(n, n', d, scale, quotient, remainder);
    } else {
      DivisionLarge(n, d, exponent, d', quotient, remainder);
    }
  }

  lemma DivisionSmall(n: nat, n': nat, d: nat, scale: nat, quotient: nat, remainder: nat)
    requires scale <= 1074 && n' == n * Pow(2, 1074 - scale) && remainder < d && n' == quotient * d + remainder
    ensures var u := Pow(2, scale);
            && n * Pow(2, 1075) == 2 * (quotient * (d * u) + remainder * u) && remainder * u < d * u
            && (2 * (remainder * u) < d * u <==> 2 * remainder < d)
            && (2 * (remainder * u) > d * u <==> 2 * remainder > d)
  {
    hide Pow;
    var u := Pow(2, scale);
    PowPositive(2, scale);
    PowAdd(2, 1074 - scale, scale);
    MulAssociate(n, Pow(2, 1074 - scale), u);
    DivisionTimes(n', d, quotient, remainder, u);
    DoubleUnit(n);
  }

  lemma DivisionLarge(n: nat, d: nat, exponent: int, d': nat, quotient: nat, remainder: nat)
    requires exponent > 52 && d' == d * Pow(2, exponent - 52) && remainder < d' && n == quotient * d' + remainder
    ensures var u, w := Pow(2, 1074), d * Pow(2, exponent + 1022);
            && n * Pow(2, 1075) == 2 * (quotient * w + remainder * u) && remainder * u < w
            && (2 * (remainder * u) < w <==> 2 * remainder < d')
            && (2 * (remainder * u) > w <==> 2 * remainder > d')
  {
    hide Pow;
    var u := Pow(2, 1074);
    PowPositive(2, 1074);
    PowAdd(2, exponent - 52, 1074);
    MulAssociate(d, Pow(2, exponent - 52), u);
    DivisionTimes(n, d', quotient, remainder, u);
    DoubleUnit(n);
  }

  lemma DoubleUnit(n: nat)
    ensures n * Pow(2, 1075) == 2 * (n * Pow(2, 1074))
  {
    hide Pow;
    PowNext(n, 2, 1074);
  }

  lemma DivisionTimes(n: nat, d: nat, quotient: nat, remainder: nat, u: nat)
    requires u > 0 && remainder < d && n == quotient * d + remainder
    ensures n * u == quotient * (d * u) + remainder * u && remainder * u < d * u
    ensures 2 * (remainder * u) < d * u <==> 2 * remainder < d
    ensures 2 * (remainder * u) > d * u <==> 2 * remainder > d
  {
    MulDistribute(quotient * d, remainder, u);
    MulAssociate(quotient, d, u);
    MulStrict(remainder, d, u);
    MulCancel(2 * remainder, d, u);
    MulCancel(d, 2 * remainder, u);
    MulAssociate(2, remainder, u);
  }

  /** With all 800 digits in use, the denominator has enough factors of two that no rounding boundary
      falls between the kept digits and the next number of 800 digits. */
  lemma DroppedDigitsDoNotMatter(n: nat, a: nat, exponent: int)
    requires Pow(10, 799) <= n && 491 <= a <= 1124
    requires Bracket(n, Pow(10, a), exponent)
    ensures NoBoundaryWithin(n, Pow(10, a) * Pow(2, UnitScale(exponent)))
  {
    hide Pow;
    var scale := UnitScale(exponent);
    EnoughTwos(n, a, exponent);
    var k := a + scale - 1075;
    PowProduct(2, 5, a);
    PowAdd(2, a, scale);
    PowAdd(2, k, 1075);
    PowPositive(5, a);
    PowPositive(2, k);
    MulPositive(Pow(5, a), Pow(2, k));
    assert Pow(10, a) * Pow(2, scale) == (Pow(5, a) * Pow(2, k)) * Pow(2, 1075) by {
      var t, f := Pow(2, a), Pow(5, a);
      assert (t * f) * Pow(2, scale) == f * (t * Pow(2, scale)) by {
        MulAssociate(f, t, Pow(2, scale));
      }
      MulAssociate(f, Pow(2, k), Pow(2, 1075));
    }
    NoBoundaryBetweenMultiples(n, Pow(10, a) * Pow(2, scale), Pow(5, a) * Pow(2, k));
  }

  lemma EnoughTwos(n: nat, a: nat, exponent: int)
    requires Pow(10, 799) <= n && 491 <= a <= 1124
    requires Bracket(n, Pow(10, a), exponent)
    ensures a + UnitScale(exponent) >= 1075
  {
    hide Pow;
    if a + UnitScale(exponent) < 1075 {
      // Then n / 10^a < 2^(53 - a), too little for 800 digits.
      PowZero(2);
      PowMonotone(2, a - 53, -exponent - 1);
      MulMonotone(Pow(2, a - 53), Pow(2, -exponent - 1), n);
      MulMonotone(Pow(10, 799), n, Pow(2, a - 53));
      DigitsAgainstBits(a);
    }
  }

  lemma DigitsAgainstBits(a: nat)
    requires 53 <= a <= 1074
    ensures Pow(10, a) <= Pow(10, 799) * Pow(2, a - 53)
  {
    hide Pow;
    PowPositive(2, a - 53);
    if a <= 799 {
      PowMonotone(10, a, 799);
      MulMonotone(1, Pow(2, a - 53), Pow(10, 799));
    } else {
      PowAdd(10, 799, a - 799);
      TenBelowTwo(a - 799);
      PowMonotone(2, 10 * ((a - 797) / 3), a - 53);
      MulMonotone(Pow(10, a - 799), Pow(2, a - 53), Pow(10, 799));
    }
  }
}
