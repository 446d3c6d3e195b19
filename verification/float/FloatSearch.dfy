/** The arithmetic of `emela_emb_float_to_string`: exact comparison of decimal with binary, the
    decimal order, the nearest decimal with a given number of digits, and the search for the first
    number of digits that is enough. */
module FloatSearch {
  import opened Powers
  import opened Limbs
  import opened BigNat
  import opened Binary64
  import opened Magnitudes

  const FORMAT_LIMBS: nat := 48
  const WIDE: nat := BASE * BASE     // 2^64

  // ---------- decimal against binary ----------

  /** `c * 10^e` against `h` units of 2^-1075. */
  function DecimalSign(c: nat, e: int, h: nat): int {
    Sign(c * Pow(10, Up(e)) * Pow(2, 1075), h * Pow(10, Up(-e)))
  }

  lemma TenIsFiveTwos(c: nat, k: nat, s: nat)
    ensures c * Pow(10, k) * Pow(2, s) == (c * Pow(5, k)) * Pow(2, k + s)
    ensures (c * Pow(2, s)) * Pow(10, k) == (c * Pow(5, k)) * Pow(2, k + s)
  {
    hide Pow;
    PowProduct(2, 5, k);
    PowAdd(2, k, s);
    var t, f, u := Pow(2, k), Pow(5, k), Pow(2, s);
    assert c * (t * f) == (c * f) * t by {
      MulAssociate(c, f, t);
    }
    MulAssociate(c * f, t, u);
    assert (c * u) * (t * f) == (c * (t * f)) * u by {
      MulAssociate(c, u, t * f);
      MulAssociate(c, t * f, u);
    }
  }

  lemma EightIsThreeBits()
    ensures Pow(2, 3) == 8
  {
  }

  lemma FivePowerFits(value: nat, exponent: nat)
    requires value < WIDE && exponent <= 400
    ensures value * Pow(5, exponent) < Pow(2, 64 + 3 * exponent) && Pow(2, 64 + 3 * exponent) <= Power(FORMAT_LIMBS)
  {
    hide Pow;
    assert Pow(2, 64) == WIDE by {
      BaseIsPower();
      PowAdd(2, 32, 32);
    }
    EightIsThreeBits();
    PowPower(2, 3, exponent);
    PowBase(5, 8, exponent);
    PowPositive(5, exponent);
    MulStrict(value, WIDE, Pow(5, exponent));
    MulMonotone(Pow(5, exponent), Pow(8, exponent), WIDE);
    PowAdd(2, 64, 3 * exponent);
    PowerBits(FORMAT_LIMBS);
    PowMonotone(2, 64 + 3 * exponent, 1536);
  }

  /** `left * 2^leftExponent` against `right * 2^rightExponent`. */
  method CompareBinary(left: Big, leftExponent: int, right: Big, rightExponent: int) returns (order: int)
    requires left.Valid() && right.Valid() && left.Val() > 0 && right.Val() > 0
    ensures order == Sign(left.Val() * Pow(2, Up(leftExponent - rightExponent)), right.Val() * Pow(2, Up(rightExponent - leftExponent)))
  {
    if leftExponent >= rightExponent {
      order := CompareShifted(left, leftExponent - rightExponent, right, 0);
    } else {
      order := CompareShifted(left, 0, right, rightExponent - leftExponent);
    }
  }

  /** Exact, and never short of workspace in the range the conversion uses. */
  method CompareDecimalBinary(decimal: nat, decimalExponent: int, binary: nat, binaryExponent: int) returns (order: int)
    requires 0 < decimal < WIDE && 0 < binary < WIDE && -400 <= decimalExponent <= 400 && -1075 <= binaryExponent
    ensures order == DecimalSign(decimal, decimalExponent, binary * Pow(2, binaryExponent + 1075))
  {
    hide Pow, Limbs.Value, Sign, DecimalSign;
    var left := new Big(FORMAT_LIMBS, decimal);
    var right := new Big(FORMAT_LIMBS, binary);
    var leftExponent, rightExponent := 0, binaryExponent;
    ghost var fives := Pow(5, if decimalExponent < 0 then -decimalExponent else decimalExponent);
    PowPositive(5, if decimalExponent < 0 then -decimalExponent else decimalExponent);
    if decimalExponent >= 0 {
      FivePowerFits(decimal, decimalExponent);
      MulPositive(decimal, fives);
      var fits := left.MultiplyPower(5, decimalExponent);
      assert fits;
      leftExponent := decimalExponent;
      TimesOne(binary);
    } else {
      FivePowerFits(binary, -decimalExponent);
      MulPositive(binary, fives);
      var fits := right.MultiplyPower(5, -decimalExponent);
      assert fits;
      rightExponent := rightExponent - decimalExponent;
      TimesOne(decimal);
    }
    hide *;
    assert left.Val() == decimal * Pow(5, Up(decimalExponent)) && right.Val() == binary * Pow(5, Up(-decimalExponent));
    order := CompareBinary(left, leftExponent, right, rightExponent);
    DecimalSignIs(decimal, decimalExponent, binary, binaryExponent);
  }

  lemma TimesOne(n: nat)
    ensures n * Pow(5, 0) == n
  {
    hide Pow;
    PowZero(5);
  }

  lemma DecimalSignIs(c: nat, e: int, b: nat, f: int)
    requires -1075 <= f
    ensures DecimalSign(c, e, b * Pow(2, f + 1075)) ==
            Sign((c * Pow(5, Up(e))) * Pow(2, Up(e - f)), (b * Pow(5, Up(-e))) * Pow(2, Up(f - e)))
    ensures Pow(5, 0) == 1
  {
    hide Pow, Sign;
    PowZero(5);
    TenIsFiveTwos(c, Up(e), 1075);
    TenIsFiveTwos(b, Up(-e), f + 1075);
    SignShift(2, c * Pow(5, Up(e)), b * Pow(5, Up(-e)), Up(e) + 1075, Up(-e) + (f + 1075), Up(e - f), Up(f - e));
  }

  lemma SignShift(base: nat, n: nat, d: nat, x: nat, y: nat, x': nat, y': nat)
    requires base > 0 && x as int - y == x' as int - y'
    ensures Sign(n * Pow(base, x), d * Pow(base, y)) == Sign(n * Pow(base, x'), d * Pow(base, y'))
  {
    hide Pow;
    ShiftCompare(base, n, d, x, y, x', y');
    SignSame(n * Pow(base, x), d * Pow(base, y), n * Pow(base, x'), d * Pow(base, y'));
  }

  lemma SignSame(a: int, b: int, a': int, b': int)
    requires (a < b <==> a' < b') && (b < a <==> b' < a')
    ensures Sign(a, b) == Sign(a', b')
  {
  }

  /** Ten times the number with one exponent less is the same decimal. */
  lemma DecimalShift(c: nat, e: int, k: nat, h: nat)
    ensures DecimalSign(c, e + k, h) == DecimalSign(c * Pow(10, k), e, h)
  {
    hide Pow, Sign, DecimalSign;
    var t := Pow(2, 1075);
    DecimalSignMoved(c, e + k, h);
    DecimalSignMoved(c * Pow(10, k), e, h);
    PowAdd(10, k, Up(e));
    MulGroup(c, Pow(10, k), t, Pow(10, Up(e)));
    SignShift(10, c * t, h, Up(e + k), Up(-(e + k)), k + Up(e), Up(-e));
  }

  lemma DecimalSignMoved(c: nat, e: int, h: nat)
    ensures DecimalSign(c, e, h) == Sign((c * Pow(2, 1075)) * Pow(10, Up(e)), h * Pow(10, Up(-e)))
  {
    hide Pow, Sign;
    MulMoveLast(c, Pow(10, Up(e)), Pow(2, 1075));
  }

  lemma MulGroup(a: int, b: int, c: int, d: int)
    ensures ((a * b) * c) * d == (a * c) * (b * d)
  {
    MulMoveLast(a, b, c);
    MulAssociate(a * c, b, d);
  }

  lemma MulMoveLast(a: int, b: int, c: int)
    ensures a * b * c == (a * c) * b
  {
    MulAssociate(a, b, c);
    MulAssociate(a, c, b);
  }

  // ---------- the decimal order ----------

  /** The doubled value of a finite pattern, in units of 2^-1075. */
  ghost predicate Doubled(mantissa: nat, binaryExponent: int, h: nat) {
    0 < mantissa < 2 * HIDDEN && -1074 <= binaryExponent <= 971 && h == mantissa * Pow(2, binaryExponent + 1075)
  }

  lemma DoubledBounds(mantissa: nat, binaryExponent: int, h: nat)
    requires Doubled(mantissa, binaryExponent, h)
    ensures Pow(2, binaryExponent + 1075) <= h < Pow(2, binaryExponent + 1128)
    ensures 2 <= h < Pow(2, 2099)
    ensures 0 < BitLength(mantissa) <= 53
  {
    hide Pow, BitLength;
    var unit := Pow(2, binaryExponent + 1075);
    PowHidden();
    PowNext(1, 2, 52);
    SmallPowers();
    PowMonotone(2, 1, binaryExponent + 1075);
    MulMonotone(1, mantissa, unit);
    MulStrict(mantissa, Pow(2, 53), unit);
    PowAdd(2, 53, binaryExponent + 1075);
    PowMonotone(2, binaryExponent + 1128, 2099);
    if BitLength(mantissa) > 53 {
      BitLengthBounds(mantissa);
      PowMonotone(2, 53, BitLength(mantissa) - 1);
    }
    BitLengthNonzero(mantissa);
  }

  lemma BitLengthNonzero(value: nat)
    requires value > 0
    ensures BitLength(value) > 0
  {
  }

  /** Every finite nonzero value lies between 10^-325 and 10^309. */
  lemma OrderRange(mantissa: nat, binaryExponent: int, h: nat, e: int)
    requires Doubled(mantissa, binaryExponent, h)
    ensures DecimalSign(1, e, h) > 0 ==> e > -325
    ensures DecimalSign(1, e, h) <= 0 ==> e <= 308
  {
    hide Pow;
    DoubledBounds(mantissa, binaryExponent, h);
    TenAboveTwo();
    PowZero(10);
    if e <= -325 {
      PowMonotone(10, 325, -e);
      MulMonotone(1, h, Pow(10, -e));
    }
    if e >= 309 {
      PowMonotone(10, 309, e);
      PowAdd(2, 1024, 1075);
      PowPositive(2, 1075);
      MulMonotone(Pow(2, 1024), Pow(10, e), Pow(2, 1075));
    }
  }

  /** `10^order <= x < 10^(order + 1)`, from an estimate by the binary order. */
  method DecimalOrder(mantissa: nat, binaryExponent: int, ghost h: nat) returns (order: int)
    requires Doubled(mantissa, binaryExponent, h)
    ensures DecimalSign(1, order, h) <= 0 && DecimalSign(1, order + 1, h) > 0
    ensures -325 <= order <= 308
  {
    hide Pow, BitLength, DecimalSign;
    DoubledBounds(mantissa, binaryExponent, h);
    var binaryOrder := BinaryOrder(mantissa, binaryExponent);
    var product := binaryOrder * 30103;
    order := if product < 0 then -(-product / 100000) else product / 100000;
    if product < 0 && -product % 100000 != 0 {
      order := order - 1;
    }
    var comparison := CompareDecimalBinary(1, order, mantissa, binaryExponent);
    while comparison > 0
      invariant -325 <= order <= 308 && comparison == DecimalSign(1, order, h)
      decreases order + 325
    {
      OrderRange(mantissa, binaryExponent, h, order);
      order := order - 1;
      comparison := CompareDecimalBinary(1, order, mantissa, binaryExponent);
    }
    comparison := CompareDecimalBinary(1, order + 1, mantissa, binaryExponent);
    while comparison <= 0
      invariant -325 <= order <= 308 && comparison == DecimalSign(1, order + 1, h) && DecimalSign(1, order, h) <= 0
      decreases 308 - order
    {
      OrderRange(mantissa, binaryExponent, h, order + 1);
      order := order + 1;
      comparison := CompareDecimalBinary(1, order + 1, mantissa, binaryExponent);
    }
  }

  method BinaryOrder(mantissa: nat, binaryExponent: int) returns (order: int)
    ensures order == binaryExponent + BitLength(mantissa) - 1
  {
    order := binaryExponent;
    var rest := mantissa;
    while rest != 0
      invariant order + BitLength(rest) == binaryExponent + BitLength(mantissa)
    {
      order := order + 1;
      rest := rest / 2;
    }
    order := order - 1;
  }

  // ---------- the nearest decimal ----------

  /** `q` is the integer nearest to `num / den`, the even one of two. */
  ghost predicate Nearest(num: nat, den: nat, q: nat) {
    && den > 0 && (2 * q) * den <= 2 * num + den && 2 * num <= (2 * q) * den + den
    && ((2 * q) * den == 2 * num + den || 2 * num == (2 * q) * den + den ==> q % 2 == 0)
  }

  lemma NearestFromDivision(num: nat, den: nat, quotient: nat, remainder: nat)
    requires remainder < den && num == quotient * den + remainder
    ensures 2 * remainder > den || (2 * remainder == den && quotient % 2 == 1) ==> Nearest(num, den, quotient + 1)
    ensures !(2 * remainder > den || (2 * remainder == den && quotient % 2 == 1)) ==> Nearest(num, den, quotient)
  {
    MulAssociate(2, quotient, den);
    MulDistribute(2 * quotient, 2, den);
  }

  lemma NearestScaled(num: nat, den: nat, factor: nat, q: nat)
    requires Nearest(num, den, q) && factor > 0
    ensures Nearest(num * factor, den * factor, q)
  {
    var a := (2 * q) * den;
    MulAssociate(2 * q, den, factor);
    MulPositive(den, factor);
    MulMonotone(a, 2 * num + den, factor);
    MulMonotone(2 * num, a + den, factor);
    MulDistribute(2 * num, den, factor);
    MulDistribute(a, den, factor);
    MulCancel(2 * num + den, a, factor);
    MulCancel(a + den, 2 * num, factor);
    MulAssociate(2, num, factor);
  }

  lemma NearestRange(num: nat, den: nat, q: nat, low: nat, high: nat)
    requires Nearest(num, den, q) && low * den <= num < high * den
    ensures low <= q <= high
  {
    MulAssociate(2, q, den);
    if q < low {
      MulMonotone(q + 1, low, den);
      MulDistribute(q, 1, den);
    } else if q > high {
      MulMonotone(high + 1, q, den);
      MulDistribute(high, 1, den);
    }
  }

  /** What the caller of `RoundScaled` guarantees: the quotient has one to seventeen digits. */
  ghost predicate Scalable(mantissa: nat, binaryExponent: int, e: int, h: nat) {
    && Doubled(mantissa, binaryExponent, h) && -341 <= e <= 308
    && DecimalSign(1, e, h) <= 0 && DecimalSign(1, e + 17, h) > 0
  }

  /** The binary exponent a scaled number can have, which is why the workspace suffices. */
  lemma ScaledExponent(mantissa: nat, binaryExponent: int, e: int, h: nat)
    requires Scalable(mantissa, binaryExponent, e, h)
    ensures e >= 0 ==> -53 < binaryExponent
    ensures e < 0 ==> binaryExponent < 57
  {
    hide Pow, DecimalSign;
    DoubledBounds(mantissa, binaryExponent, h);
    if e >= 0 && binaryExponent <= -53 {
      PowMonotone(2, binaryExponent + 1128, 1075);
      AtLeastOne(e, h);
    }
    if e < 0 && binaryExponent >= 57 {
      PowMonotone(2, 1132, binaryExponent + 1075);
      BelowSeventeenDigits(e, h);
    }
  }

  lemma AtLeastOne(e: nat, h: nat)
    requires DecimalSign(1, e, h) <= 0
    ensures Pow(2, 1075) <= h
  {
    hide Pow;
    PowZero(10);
    PowPositive(2, 1075);
    PowPositive(10, e);
    MulMonotone(1, Pow(10, e), Pow(2, 1075));
  }

  lemma BelowSeventeenDigits(e: int, h: nat)
    requires e < 0 && DecimalSign(1, e + 17, h) > 0
    ensures h < Pow(2, 1132)
  {
    hide Pow;
    var up, down := Pow(10, Up(e + 17)), Pow(10, Up(-(e + 17)));
    SeventeenDigits();
    PowAdd(2, 57, 1075);
    PowMonotone(10, Up(e + 17), 17);
    PowPositive(2, 1075);
    PowPositive(10, Up(-(e + 17)));
    MulMonotone(1, down, h);
    MulMonotone(up, Pow(2, 57), Pow(2, 1075));
  }

  lemma SeventeenDigits()
    ensures Pow(10, 17) < Pow(2, 57)
  {
    hide Pow;
    TenPowers();
    TwoPowers();
    PowNext(1, 2, 56);
  }

  /** The scaled quotient, without common factors of two. */
  ghost predicate Reduced(mantissa: nat, binaryExponent: int, e: int, n: nat, d: nat) {
    && n == (mantissa * Pow(5, Up(-e))) * Pow(2, Up(binaryExponent - e))
    && d == Pow(5, Up(e)) * Pow(2, Up(e - binaryExponent))
  }

  lemma ReducedQuotient(mantissa: nat, binaryExponent: int, e: int, h: nat, n: nat, d: nat) returns (k: nat)
    requires Doubled(mantissa, binaryExponent, h) && -400 <= e <= 400 && Reduced(mantissa, binaryExponent, e, n, d)
    ensures h * Pow(10, Up(-e)) == n * Pow(2, k) && Pow(10, Up(e)) * Pow(2, 1075) == d * Pow(2, k)
    ensures n > 0 && d > 0
  {
    hide Pow;
    k := Up(e) + 1075 - Up(e - binaryExponent);
    TenIsFiveTwos(mantissa, Up(-e), binaryExponent + 1075);
    TenIsFiveTwos(1, Up(e), 1075);
    var top, five := mantissa * Pow(5, Up(-e)), Pow(5, Up(e));
    PowPositive(5, Up(-e));
    MulPositive(mantissa, Pow(5, Up(-e)));
    PowPositive(5, Up(e));
    PowPositive(2, Up(binaryExponent - e));
    PowPositive(2, Up(e - binaryExponent));
    MulPositive(top, Pow(2, Up(binaryExponent - e)));
    MulPositive(five, Pow(2, Up(e - binaryExponent)));
    SplitShift(top, Up(binaryExponent - e), k);
    SplitShift(five, Up(e - binaryExponent), k);
  }

  lemma SplitShift(value: nat, shift: nat, k: nat)
    ensures value * Pow(2, shift + k) == (value * Pow(2, shift)) * Pow(2, k)
  {
    hide Pow;
    PowAdd(2, shift, k);
    MulAssociate(value, Pow(2, shift), Pow(2, k));
  }

  /** The quotient is at least one and below 10^17. */
  lemma QuotientBounds(mantissa: nat, binaryExponent: int, e: int, h: nat, n: nat, d: nat)
    requires Scalable(mantissa, binaryExponent, e, h) && Reduced(mantissa, binaryExponent, e, n, d)
    ensures 0 < d <= n < Pow(10, 17) * d
  {
    hide Pow, DecimalSign, Reduced;
    var k := ReducedQuotient(mantissa, binaryExponent, e, h, n, d);
    DecimalSignParts(1, e, h);
    DecimalShift(1, e, 17, h);
    DecimalSignParts(Pow(10, 17), e, h);
    PowPositive(2, k);
    MulAssociate(Pow(10, 17), d, Pow(2, k));
    MulAssociate(Pow(10, 17), Pow(10, Up(e)), Pow(2, 1075));
    MulCancel(d, n, Pow(2, k));
    MulCancel(n, Pow(10, 17) * d, Pow(2, k));
  }

  lemma DecimalSignParts(c: nat, e: int, h: nat)
    ensures DecimalSign(c, e, h) == Sign(c * (Pow(10, Up(e)) * Pow(2, 1075)), h * Pow(10, Up(-e)))
  {
    hide Pow, Sign;
    MulAssociate(c, Pow(10, Up(e)), Pow(2, 1075));
  }

  /** A quotient of at most seventeen digits starts at bit 57 or lower. */
  lemma QuotientBits(n: nat, d: nat)
    requires 0 < d <= n < Pow(10, 17) * d
    ensures 0 <= BitLength(n) - BitLength(d) < 64
    ensures n < d * Pow(2, BitLength(n) - BitLength(d) + 1)
  {
    hide Pow, BitLength;
    if BitLength(n) < BitLength(d) {
      BitLengthOrder(n, d);
    }
    BitDifference(n, d);
    PowZero(2);
    var shift := BitLength(n) - BitLength(d);
    if shift >= 58 {
      PowMonotone(2, 57, shift - 1);
      SeventeenDigits();
      MulMonotone(Pow(2, 57), Pow(2, shift - 1), d);
      MulMonotone(Pow(10, 17), Pow(2, 57), d);
    }
  }

  /** The nearest integer to the number over `10^decimalExponent`. */
  method RoundScaled(mantissa: nat, binaryExponent: int, decimalExponent: int, ghost h: nat) returns (rounded: nat)
    requires Scalable(mantissa, binaryExponent, decimalExponent, h)
    ensures Nearest(h * Pow(10, Up(-decimalExponent)), Pow(10, Up(decimalExponent)) * Pow(2, 1075), rounded)
  {
    hide Pow, BitLength, Limbs.Value, DecimalSign, Nearest;
    var numerator := new Big(FORMAT_LIMBS, mantissa);
    var denominator := new Big(FORMAT_LIMBS, 1);
    ScaleOperands(numerator, denominator, mantissa, binaryExponent, decimalExponent, h);
    ghost var n, d := numerator.Val(), denominator.Val();
    QuotientBounds(mantissa, binaryExponent, decimalExponent, h, n, d);
    QuotientBits(n, d);
    var numeratorBits := numerator.BitCount();
    var denominatorBits := denominator.BitCount();
    var shift := numeratorBits as int - denominatorBits;
    assert shift < 64;
    var quotient := Divide(numerator, denominator, shift + 1);
    OneBitMore(numerator.Val(), d);
    var midpoint := CompareShifted(numerator, 1, denominator, 0);
    NearestFromDivision(n, d, quotient, numerator.Val());
    if midpoint > 0 || (midpoint == 0 && quotient % 2 != 0) {
      quotient := quotient + 1;
    }
    ghost var k := ReducedQuotient(mantissa, binaryExponent, decimalExponent, h, n, d);
    PowPositive(2, k);
    NearestScaled(n, d, Pow(2, k), quotient);
    rounded := quotient;
  }

  /** The first half of `emela_emb_float_format_round_scaled`: powers of five, then one shift. */
  method ScaleOperands(numerator: Big, denominator: Big, mantissa: nat, binaryExponent: int, decimalExponent: int, ghost h: nat)
    requires numerator.Valid() && denominator.Valid() && numerator != denominator && numerator.words != denominator.words
    requires numerator.words.Length == FORMAT_LIMBS && denominator.words.Length == FORMAT_LIMBS
    requires numerator.Val() == mantissa && denominator.Val() == 1
    requires Scalable(mantissa, binaryExponent, decimalExponent, h)
    modifies numerator, numerator.words, denominator, denominator.words
    ensures numerator.Valid() && denominator.Valid()
    ensures Reduced(mantissa, binaryExponent, decimalExponent, numerator.Val(), denominator.Val())
  {
    hide Pow, BitLength, Limbs.Value, DecimalSign;
    PowZero(5);
    PowZero(2);
    ScaledExponent(mantissa, binaryExponent, decimalExponent, h);
    var twoExponent := binaryExponent - decimalExponent;
    FivesFit(mantissa, Up(-decimalExponent));
    FivesFit(1, Up(decimalExponent));
    if decimalExponent >= 0 {
      var fits := denominator.MultiplyPower(5, decimalExponent);
      assert fits;
    } else {
      var fits := numerator.MultiplyPower(5, -decimalExponent);
      assert fits;
    }
    if twoExponent >= 0 {
      var fits := numerator.ShiftLeft(twoExponent);
      assert fits;
    } else {
      var fits := denominator.ShiftLeft(-twoExponent);
      assert fits;
    }
  }

  lemma FivesFit(value: nat, exponent: nat)
    requires value < 2 * HIDDEN && exponent <= 341
    ensures value * Pow(5, exponent) < Power(FORMAT_LIMBS)
    ensures BitLength(value * Pow(5, exponent)) <= 53 + 3 * exponent
    ensures value == 1 ==> BitLength(value * Pow(5, exponent)) <= 1 + 3 * exponent
  {
    hide Pow, BitLength;
    FivePowerFits(value, exponent);
    PowHidden();
    PowNext(1, 2, 52);
    FivesBelow(value, 53, exponent);
    if value == 1 {
      SmallPowers();
      FivesBelow(value, 1, exponent);
    }
  }

  lemma FivesBelow(value: nat, bits: nat, exponent: nat)
    requires value < Pow(2, bits)
    ensures BitLength(value * Pow(5, exponent)) <= bits + 3 * exponent
  {
    hide Pow, BitLength;
    EightIsThreeBits();
    PowPower(2, 3, exponent);
    PowBase(5, 8, exponent);
    PowPositive(5, exponent);
    PowPositive(2, bits);
    MulStrict(value, Pow(2, bits), Pow(5, exponent));
    MulMonotone(Pow(5, exponent), Pow(8, exponent), Pow(2, bits));
    PowAdd(2, bits, 3 * exponent);
    BitsAtMost(value * Pow(5, exponent), bits + 3 * exponent);
  }
}
