/** The digit search of `emela_emb_float_to_string`, and how short its result is. */
module FloatDigits {
  import opened Powers
  import opened Binary64
  import opened Magnitudes
  import opened DecimalText
  import opened FloatSearch
  import opened Interval

  /** The search stopped at `digits`: its candidate rounds back and no earlier candidate does. */
  ghost predicate Found(m: nat, order: int, digits: nat, decimal: nat) {
    && HasOrder(m, order) && -325 <= order <= 308 && 1 <= digits <= 17
    && Candidate(m, order, digits, decimal) && DecimalRoundsTo(decimal, order - digits + 1, m)
    && forall k, q: nat {:trigger Candidate(m, order, k, q)} :: 1 <= k < digits && Candidate(m, order, k, q) ==> !DecimalRoundsTo(q, order - k + 1, m)
  }

  lemma CandidateUnique(m: nat, order: int, digits: nat, q: nat, q': nat)
    requires Candidate(m, order, digits, q) && Candidate(m, order, digits, q')
    ensures q == q'
  {
    hide Pow, Scaled, Unit, Denominator;
    var e := order - digits + 1;
    if q < q' {
      NearestOnce(2 * Scaled(m) * Denominator(e), Unit(e), q, q');
    } else if q' < q {
      NearestOnce(2 * Scaled(m) * Denominator(e), Unit(e), q', q);
    }
  }

  lemma NearestOnce(num: nat, den: nat, q: nat, q': nat)
    requires Nearest(num, den, q) && q < q'
    ensures !Nearest(num, den, q')
  {
    if q' > q + 1 {
      MulMonotone(2 * q + 4, 2 * q', den);
    }
    MulDistribute(2 * q, 2, den);
    MulDistribute(2 * q, 4, den);
  }

  /** The mantissa, exponent and order as the search has them. */
  lemma PatternParts(m: nat)
    requires Finite(m)
    ensures Doubled(Mantissa(m), Scale(m) - 1074, 2 * Scaled(m))
    ensures Lopsided(m) <==> m / HIDDEN != 0 && m / HIDDEN != 1 && m % HIDDEN == 0
  {
    hide Pow;
    ScaleRange(m);
    PowNext(1, 2, Scale(m));
    MulAssociate(Mantissa(m), 2, Pow(2, Scale(m)));
  }

  /** A candidate fits 64 bits. */
  lemma CandidateFits(m: nat, order: int, digits: nat, q: nat)
    requires HasOrder(m, order) && 1 <= digits <= 17 && Candidate(m, order, digits, q)
    ensures 0 < q < WIDE && q <= Pow(10, 17)
  {
    hide Pow;
    CandidateRange(m, order, digits, q);
    PowMonotone(10, digits, 17);
    TenPowers();
  }

  lemma Scales(m: nat, order: int, digits: nat)
    requires Finite(m) && HasOrder(m, order) && -325 <= order <= 308 && 1 <= digits <= 17
    ensures Scalable(Mantissa(m), Scale(m) - 1074, order - digits + 1, 2 * Scaled(m))
  {
    hide Pow, DecimalSign, Scaled;
    PatternParts(m);
    var e, h := order - digits + 1, 2 * Scaled(m);
    OrderInUnits(m, order, digits);
    PowPositive(10, digits - 1);
    PowMonotone(10, digits, 17);
    UnitPositive(e);
    MulMonotone(1, Pow(10, digits - 1), Unit(e));
    MulMonotone(Pow(10, digits), Pow(10, 17), Unit(e));
    SignOverUnit(1, e, h);
    DecimalShift(1, e, 17, h);
    SignOverUnit(Pow(10, 17), e, h);
  }

  /** Whether a candidate lies inside the rounding interval. */
  method Inside(m: nat, candidate: nat, e: int) returns (inside: bool)
    requires Finite(m) && 0 < candidate < WIDE && -400 <= e <= 400
    ensures inside <==> DecimalRoundsTo(candidate, e, m)
  {
    hide Pow, DecimalSign, Midpoint2, Scaled, DecimalRoundsTo;
    ScaleRange(m);
    MidpointAbove(m);
    MidpointBelow(m);
    InsideRoundsBack(candidate, e, m);
    var exponentBits, fraction := m / HIDDEN, m % HIDDEN;
    PatternParts(m);
    var mantissa, binaryExponent := Mantissa(m), Scale(m) - 1074;
    var lopsided := exponentBits != 0 && exponentBits != 1 && fraction == 0;
    var lowerMantissa := if lopsided then mantissa * 4 - 1 else mantissa * 2 - 1;
    var lowerExponent := if lopsided then binaryExponent - 2 else binaryExponent - 1;
    var upperMantissa := mantissa * 2 + 1;
    var upperExponent := binaryExponent - 1;
    var inclusive := mantissa % 2 == 0;
    var lower := CompareDecimalBinary(candidate, e, lowerMantissa, lowerExponent);
    var upper := CompareDecimalBinary(candidate, e, upperMantissa, upperExponent);
    inside := (lower > 0 || (inclusive && lower == 0)) && (upper < 0 || (inclusive && upper == 0));
  }

  /** The search: the nearest decimal of one digit, then of two, and so on, until one rounds back.
      It always finds one. */
  method FindDigits(m: nat) returns (decimal: nat, decimalExponent: int, ghost order: int, ghost digits: nat)
    requires Finite(m)
    ensures Found(m, order, digits, decimal) && decimalExponent == order - digits + 1
    ensures DecimalRoundsTo(decimal, decimalExponent, m)
  {
    hide Pow, DecimalSign, Midpoint2, Scaled, DecimalRoundsTo, HasOrder, Candidate, Doubled;
    PatternParts(m);
    var mantissa, binaryExponent := Mantissa(m), Scale(m) - 1074;
    var decimalOrder := DecimalOrder(mantissa, binaryExponent, 2 * Scaled(m));
    order := decimalOrder;
    assert HasOrder(m, order) by {
      OrderIs(m, order);
    }
    var count := 1;
    while count <= 17
      invariant 1 <= count <= 17
      invariant forall k, q: nat {:trigger Candidate(m, order, k, q)} :: 1 <= k < count && Candidate(m, order, k, q) ==> !DecimalRoundsTo(q, order - k + 1, m)
    {
      var candidateExponent := decimalOrder - count + 1;
      Scales(m, order, count);
      var candidate := RoundScaled(mantissa, binaryExponent, candidateExponent, 2 * Scaled(m));
      CandidateIs(m, order, count, candidate);
      CandidateFits(m, order, count, candidate);
      if count == 17 {
        SeventeenSuffice(m, order, candidate);
      }
      var inside := Inside(m, candidate, candidateExponent);
      if inside {
        digits := count;
        return candidate, candidateExponent, order, digits;
      }
      forall q: nat | Candidate(m, order, count, q) ensures !DecimalRoundsTo(q, order - count + 1, m) {
        CandidateUnique(m, order, count, q, candidate);
      }
      count := count + 1;
    }
    assert false;
  }

  lemma OrderIs(m: nat, order: int)
    requires DecimalSign(1, order, 2 * Scaled(m)) <= 0 && DecimalSign(1, order + 1, 2 * Scaled(m)) > 0
    ensures HasOrder(m, order)
  {
  }

  lemma CandidateIs(m: nat, order: int, digits: nat, q: nat)
    requires Nearest(2 * Scaled(m) * Pow(10, Up(-(order - digits + 1))), Pow(10, Up(order - digits + 1)) * Pow(2, 1075), q)
    ensures Candidate(m, order, digits, q)
  {
  }

  // ---------- how short the result is ----------

  /** No decimal with fewer significant digits rounds to `m`. */
  ghost predicate Shortest(m: nat, digits: nat) {
    forall k: nat {:trigger EnoughDigits(m, k)} :: 0 < k < digits ==> !EnoughDigits(m, k)
  }

  lemma EnoughDigitsMonotone(m: nat, k: nat, l: nat)
    requires EnoughDigits(m, k) && k <= l
    ensures EnoughDigits(m, l)
  {
    hide Pow, DecimalRoundsTo;
    var c: nat, e: int :| c <= Pow(10, k) && DecimalRoundsTo(c, e, m);
    PowMonotone(10, k, l);
  }

  /** The result is shortest except when, one digit earlier, the decimal just above the candidate
      would have rounded back. */
  lemma ShortestExactly(m: nat, order: int, digits: nat, decimal: nat, q: nat)
    requires Finite(m) && Found(m, order, digits, decimal) && 1 < digits && Candidate(m, order, digits - 1, q)
    ensures Shortest(m, digits) <==> !(q < Pow(10, digits - 1) && DecimalRoundsTo(q + 1, order - digits + 2, m))
  {
    hide Pow, DecimalRoundsTo, EnoughDigits, HasOrder, Candidate;
    EnoughDigitsExactly(m, order, digits - 1, q);
    assert order - (digits - 1) + 1 == order - digits + 2;
    forall k | 0 < k < digits && EnoughDigits(m, k) ensures EnoughDigits(m, digits - 1) {
      EnoughDigitsMonotone(m, k, digits - 1);
    }
  }

  /** The nearest decimal of `k` digits rounds back. */
  ghost predicate NearestBack(m: nat, order: int, k: nat) {
    exists q: nat {:trigger Candidate(m, order, k, q)} :: Candidate(m, order, k, q) && DecimalRoundsTo(q, order - k + 1, m)
  }

  /** The decimal of `k` digits just above the nearest one rounds back. */
  ghost predicate NextBack(m: nat, order: int, k: nat) {
    exists q: nat {:trigger Candidate(m, order, k, q)} :: Candidate(m, order, k, q) && q < Pow(10, k) && DecimalRoundsTo(q + 1, order - k + 1, m)
  }

  /** Whether the result is shortest, before searching: exactly when wherever the decimal just above the
      nearest one rounds back, a nearest one of no more digits does. */
  lemma ShortestWhen(m: nat, order: int, digits: nat, decimal: nat)
    requires Finite(m) && Found(m, order, digits, decimal)
    ensures Shortest(m, digits) <==> forall k :: 1 <= k <= 16 && NextBack(m, order, k) ==> exists j :: 1 <= j <= k && NearestBack(m, order, j)
  {
    hide Pow, DecimalRoundsTo, EnoughDigits, HasOrder, Candidate;
    assert NearestBack(m, order, digits);
    forall k: nat | 0 < k ensures EnoughDigits(m, k) <==> NearestBack(m, order, k) || NextBack(m, order, k) {
      var q := NearestExists(m, order, k);
      EnoughDigitsExactly(m, order, k, q);
      forall q': nat | Candidate(m, order, k, q') ensures q' == q {
        CandidateUnique(m, order, k, q, q');
      }
    }
  }

  /** Where the interval is symmetric the result is shortest. */
  lemma SymmetricIsShortest(m: nat, order: int, digits: nat, decimal: nat)
    requires Finite(m) && !Lopsided(m) && Found(m, order, digits, decimal)
    ensures Shortest(m, digits)
  {
    hide Pow, DecimalRoundsTo, EnoughDigits, HasOrder, Candidate;
    forall k | 0 < k < digits ensures !EnoughDigits(m, k) {
      var q := NearestExists(m, order, k);
      EnoughDigitsExactly(m, order, k, q);
    }
  }

  lemma NearestExists(m: nat, order: int, digits: nat) returns (q: nat)
    ensures Candidate(m, order, digits, q)
  {
    hide Pow, Scaled, Denominator, Unit;
    var e := order - digits + 1;
    UnitPositive(e);
    var num, den := 2 * Scaled(m) * Denominator(e), Unit(e);
    var quotient, remainder := num / den, num % den;
    NearestFromDivision(num, den, quotient, remainder);
    q := if 2 * remainder > den || (2 * remainder == den && quotient % 2 == 1) then quotient + 1 else quotient;
  }

  // ---------- where it is not ----------

  const TWO_TO_MINUS_44: nat := 979 * HIDDEN
  const SIXTEEN_DIGITS: nat := 5684341886080802

  lemma OrderUnique(m: nat, a: int, b: int)
    requires HasOrder(m, a) && a < b
    ensures !HasOrder(m, b)
  {
    hide Pow, Scaled, DecimalSign, Unit, Denominator;
    var h, k := 2 * Scaled(m), b - a - 1;
    DecimalShift(1, a + 1, k, h);
    SignOverUnit(1, a + 1, h);
    SignOverUnit(Pow(10, k), a + 1, h);
    PowPositive(10, k);
    UnitPositive(a + 1);
    MulMonotone(1, Pow(10, k), Unit(a + 1));
  }

  /** The value and its boundaries in units of `u = 2^977`. */
  lemma TwoToMinus44(u: nat)
    requires u == Pow(2, 977)
    ensures var m := TWO_TO_MINUS_44;
            && u > 0 && Finite(m) && Scaled(m) == 0x20_0000_0000_0000 * u && m % 2 == 0
            && Midpoint2(m - 1) == 0x3f_ffff_ffff_ffff * u && Midpoint2(m) == 0x40_0000_0000_0002 * u
            && Pow(2, 1075) == 316912650057057350374175801344 * u
  {
    hide Pow;
    var m := TWO_TO_MINUS_44;
    PowPositive(2, 977);
    DivUnique(m, HIDDEN, 979, 0);
    PowNext(1, 2, 977);
    MulAssociate(HIDDEN, 2, u);
    MidpointBelow(m);
    MidpointAbove(m);
    MulAssociate(2 * HIDDEN + 1, 2, u);
    TwoPowers();
    PowAdd(2, 5, 93);
    assert Pow(2, 5) == 32 by {
      FiveBits();
    }
    PowAdd(2, 98, 977);
  }

  lemma FiveBits()
    ensures Pow(2, 5) == 32
  {
  }

  lemma TenPowersNear44()
    ensures Pow(10, 29) == 100_000_000_000_000_000_000_000_000_000
    ensures Pow(10, 14) == 100_0000_0000_0000 && Pow(10, 13) == 10_0000_0000_0000 && Pow(10, 16) == 1_0000_0000_0000_0000
  {
    hide Pow;
    TenPowers();
    SmallPowers();
    PowNext(1, 10, 28);
    PowAdd(10, 7, 7);
    PowNext(1, 10, 13);
    PowNext(1, 10, 16);
  }

  /** On the grid of sixteen digits only one decimal rounds to 2^-44, and it is not the nearest. */
  lemma OneOfSixteen(c: nat)
    ensures DecimalRoundsTo(c, -29, TWO_TO_MINUS_44) <==> c == SIXTEEN_DIGITS
    ensures !NearestDecimal(TWO_TO_MINUS_44, -29, SIXTEEN_DIGITS)
  {
    hide Pow, Scaled, Midpoint2, DecimalRoundsTo;
    var m, u := TWO_TO_MINUS_44, Pow(2, 977);
    TwoToMinus44(u);
    TenPowersNear44();
    PowZero(10);
    InsideInUnits(c, -29, m);
    assert Unit(-29) == 316912650057057350374175801344 * u && Denominator(-29) == 100_000_000_000_000_000_000_000_000_000;
    MulAssociate(c, 316912650057057350374175801344, u);
    Between(c, u);
  }

  lemma Between(c: nat, u: nat)
    requires u > 0
    ensures && 0x3f_ffff_ffff_ffff * 100_000_000_000_000_000_000_000_000_000 * u <= c * 316912650057057350374175801344 * u
            && c * 316912650057057350374175801344 * u <= 0x40_0000_0000_0002 * 100_000_000_000_000_000_000_000_000_000 * u
            <==> c == SIXTEEN_DIGITS
  {
    MulCancel(0x3f_ffff_ffff_ffff * 100_000_000_000_000_000_000_000_000_000, c * 316912650057057350374175801344, u);
    MulCancel(c * 316912650057057350374175801344, 0x40_0000_0000_0002 * 100_000_000_000_000_000_000_000_000_000, u);
  }

  lemma OrderOf44()
    ensures HasOrder(TWO_TO_MINUS_44, -14)
  {
    hide Pow, Scaled;
    TwoToMinus44(Pow(2, 977));
    TenPowersNear44();
    PowZero(10);
  }

  /** "Shortest" has exceptions: 2^-44 is printed with seventeen digits although 5684341886080802e-29,
      with sixteen, rounds to it. */
  lemma NotAlwaysShortest(order: int, digits: nat, decimal: nat)
    requires Found(TWO_TO_MINUS_44, order, digits, decimal)
    ensures digits == 17 && EnoughDigits(TWO_TO_MINUS_44, 16)
  {
    hide Pow, Scaled, DecimalRoundsTo, HasOrder, NearestDecimal;
    var m := TWO_TO_MINUS_44;
    OrderOf44();
    if order < -14 {
      OrderUnique(m, order, -14);
    } else if order > -14 {
      OrderUnique(m, -14, order);
    }
    TenPowersNear44();
    OneOfSixteen(SIXTEEN_DIGITS);
    if digits <= 16 {
      SameDecimal(decimal, -29, 16 - digits, m);
      OneOfSixteen(decimal * Pow(10, 16 - digits));
      if digits < 16 {
        PowNext(decimal, 10, 15 - digits);
      } else {
        PowZero(10);
      }
    }
  }

  /** Moving zeros between the digits and the exponent does not change a decimal. */
  lemma SameDecimal(c: nat, e: int, k: nat, m: nat)
    requires Finite(m)
    ensures DecimalRoundsTo(c * Pow(10, k), e, m) <==> DecimalRoundsTo(c, e + k, m)
  {
    hide Pow, Midpoint2, Scaled, DecimalSign, DecimalRoundsTo;
    MulSign(c, Pow(10, k));
    DecimalShift(c, e, k, Midpoint2(m - 1));
    DecimalShift(c, e, k, Midpoint2(m));
    InsideRoundsBack(c * Pow(10, k), e, m);
    InsideRoundsBack(c, e + k, m);
  }
}
