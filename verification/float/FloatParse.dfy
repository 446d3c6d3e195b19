/** `emela_emb_float_parse`: decimal text to the nearest binary64, exactly. */
module FloatParse {
  import opened Powers
  import opened Limbs
  import opened BigNat
  import opened Binary64
  import opened Rounding
  import opened Magnitudes
  import opened Quotient
  import opened DecimalText
  import opened FloatScan

  // ---------- sizes ----------

  /** The kept digits `value` scaled by a power of ten, as numerator and denominator. */
  ghost predicate Operands(n: nat, d: nat, value: nat, scale: int) {
    n == value * Pow(10, Up(scale)) && d == Pow(10, Up(-scale))
  }

  /** What the digits before the conversion satisfy. */
  ghost predicate Kept(value: nat, kept: nat, order: int) {
    0 < kept <= DIGITS && Pow(10, kept - 1) <= value < Pow(10, kept) && -325 <= order <= 308
  }

  lemma OperandSizes(n: nat, d: nat, value: nat, kept: nat, order: int)
    requires Kept(value, kept, order) && Operands(n, d, value, order - kept + 1)
    ensures 0 < n < Pow(2, 2671) && 0 < d < Pow(2, 3734)
    ensures BitLength(n) <= 2671 && BitLength(d) <= 3734
    ensures Pow(2, 2671) <= Power(LIMBS) && Pow(2, 3734) <= Power(LIMBS)
  {
    hide Pow, BitLength;
    var scale := order - kept + 1;
    var up := Up(scale);
    PowPositive(10, kept - 1);
    PowPositive(10, up);
    MulPositive(value, Pow(10, up));
    MulStrict(value, Pow(10, kept), Pow(10, up));
    PowAdd(10, kept, up);
    DigitsFit(kept + up);
    PowMonotone(10, Up(-scale), 1124);
    LargestDenominator();
    PowerBits(LIMBS);
    PowMonotone(2, 3734, 3840);
    BitsAtMost(n, 2671);
    BitsAtMost(d, 3734);
  }

  lemma ScalingFits(value: nat, kept: nat, order: int, n: nat, d: nat)
    requires Kept(value, kept, order) && Operands(n, d, value, order - kept + 1)
    ensures n < Power(LIMBS) && d < Power(LIMBS)
    ensures order - kept + 1 >= 0 ==> n == value * Pow(10, order - kept + 1) && d == 1
    ensures order - kept + 1 < 0 ==> n == value && d == 1 * Pow(10, kept - 1 - order)
  {
    hide Pow;
    OperandSizes(n, d, value, kept, order);
    PowZero(10);
  }

  // ---------- steps ----------

  /** The binary exponent of the quotient: the difference of bit lengths, less one if that is too
      many. */
  method BinaryExponent(numerator: Big, denominator: Big) returns (exponent: int)
    requires numerator.Valid() && denominator.Valid() && numerator.Val() > 0 && denominator.Val() > 0
    ensures Bracket(numerator.Val(), denominator.Val(), exponent)
    ensures 0 <= BitLength(numerator.Val()) - BitLength(denominator.Val()) - exponent <= 1
  {
    hide Pow, BitLength, Limbs.Value;
    ghost var n, d := numerator.Val(), denominator.Val();
    var numeratorBits := numerator.BitCount();
    var denominatorBits := denominator.BitCount();
    exponent := numeratorBits as int - denominatorBits;
    BitDifference(n, d);
    PowZero(2);
    if exponent >= 0 {
      var order := CompareShifted(numerator, 0, denominator, exponent);
      if order < 0 {
        exponent := exponent - 1;
      }
    } else {
      var order := CompareShifted(numerator, -exponent, denominator, 0);
      if order < 0 {
        exponent := exponent - 1;
      }
    }
  }

  /** Shifts numerator or denominator so that the quotient counts units of the result. */
  method Align(numerator: Big, denominator: Big, exponent: int)
    requires numerator.Valid() && denominator.Valid() && numerator != denominator && numerator.words != denominator.words
    requires numerator.words.Length == LIMBS && denominator.words.Length == LIMBS
    requires BitLength(numerator.Val()) <= 2671 && BitLength(denominator.Val()) <= 3734
    requires 0 <= BitLength(numerator.Val()) - BitLength(denominator.Val()) - exponent <= 1
    requires -1075 <= exponent <= 1023
    modifies numerator, numerator.words, denominator, denominator.words
    ensures numerator.Valid() && denominator.Valid()
    ensures Shifts(old(numerator.Val()), old(denominator.Val()), exponent, numerator.Val(), denominator.Val())
  {
    hide Pow, BitLength, Limbs.Value;
    PowZero(2);
    if exponent >= -1022 {
      var shift := 52 - exponent;
      if shift >= 0 {
        var fits := numerator.ShiftLeft(shift);
        assert fits;
      } else {
        var fits := denominator.ShiftLeft(-shift);
        assert fits;
      }
    } else {
      var fits := numerator.ShiftLeft(1074);
      assert fits;
    }
  }

  /** Puts the pattern together; a significand of 54 bits carries into the exponent, which may reach
      infinity. */
  method Assemble(exponent: int, significand: nat) returns (m: nat)
    requires -1075 <= exponent <= 1023 && significand <= 2 * HIDDEN && (exponent >= -1022 ==> HIDDEN <= significand)
    ensures m == UnitScale(exponent) * HIDDEN + significand
  {
    m := significand;
    if exponent >= -1022 {
      var exponent', significand' := exponent, significand;
      if significand == 2 * HIDDEN {
        significand' := significand / 2;
        exponent' := exponent + 1;
      }
      if exponent' > 1023 {
        m := INFINITY;
      } else {
        m := (exponent' + 1023) * HIDDEN + (significand' - HIDDEN);
      }
    }
  }

  // ---------- the conversion ----------

  /** Rounding the scaled operands rounds the decimal number. */
  lemma OperandsDenote(n: nat, d: nat, value: nat, scale: int, dropped: nat, rest: nat, m: nat)
    requires Operands(n, d, value, scale) && (dropped > 0 ==> scale < 0) && rest < Pow(10, dropped)
    requires RoundsTo(TrueNumerator(n, Pow(10, dropped), rest), d * Pow(10, dropped), m)
    ensures DecimalRoundsTo(TrueNumerator(value, Pow(10, dropped), rest), scale - dropped, m)
  {
    hide Pow, Scaled, AboveLower, BelowUpper;
    PowZero(10);
    if dropped > 0 {
      PowAdd(10, Up(-scale), dropped);
      assert Up(scale - dropped) == 0 && Up(-(scale - dropped)) == Up(-scale) + dropped;
    }
  }

  /** A quotient of at least 2^1024 is infinite, whatever was dropped. */
  lemma OverflowRounds(n: nat, d: nat, exponent: int, unit: nat, rest: nat)
    requires d > 0 && Bracket(n, d, exponent) && exponent > 1023 && rest < unit
    ensures RoundsTo(TrueNumerator(n, unit, rest), d * unit, INFINITY)
  {
    hide Pow, RoundsTo;
    PowZero(2);
    PowMonotone(2, 1024, exponent);
    MulMonotone(Pow(2, 1024), Pow(2, exponent), d);
    MulMonotone(d * Pow(2, 1024), n, unit);
    MulPositive(d, unit);
    assert (d * unit) * Pow(2, 1024) == (d * Pow(2, 1024)) * unit by {
      MulAssociate(d, unit, Pow(2, 1024));
      MulAssociate(d, Pow(2, 1024), unit);
    }
    LargeIsInfinite(TrueNumerator(n, unit, rest), d * unit);
  }

  /** A quotient below 2^-1075 is zero, whatever was dropped. */
  lemma UnderflowRounds(n: nat, d: nat, exponent: int, unit: nat, rest: nat)
    requires d > 0 && Bracket(n, d, exponent) && exponent < -1075 && rest < unit
    requires rest > 0 ==> NoBoundaryWithin(n, d)
    ensures RoundsTo(TrueNumerator(n, unit, rest), d * unit, 0)
  {
    hide Pow, RoundsTo;
    PowZero(2);
    PowMonotone(2, 1075, -exponent - 1);
    MulMonotone(Pow(2, 1075), Pow(2, -exponent - 1), n);
    MulPositive(d, unit);
    BoundaryTransfers(n, d, 1, unit, rest);
    SmallIsZero(TrueNumerator(n, unit, rest), d * unit);
  }

  /** When digits were dropped, no boundary lies among the numbers with the kept digits. */
  lemma DroppedSafely(n: nat, d: nat, value: nat, kept: nat, order: int, exponent: int)
    requires Kept(value, kept, order) && Operands(n, d, value, order - kept + 1) && Bracket(n, d, exponent) && kept == DIGITS
    ensures NoBoundaryWithin(n, d * Pow(2, UnitScale(exponent)))
  {
    hide Pow, NoBoundaryWithin;
    PowZero(10);
    DroppedDigitsDoNotMatter(n, 799 - order, exponent);
  }

  /** The division and the half comparison give the correctly rounded pattern. */
  lemma QuotientRounds(n: nat, d: nat, exponent: int, n': nat, d': nat, quotient: nat, remainder: nat, unit: nat, rest: nat, up: bool)
    requires d > 0 && Bracket(n, d, exponent) && -1075 <= exponent <= 1023 && rest < unit
    requires Shifts(n, d, exponent, n', d') && n' == quotient * d' + remainder && remainder < d'
    requires rest > 0 ==> NoBoundaryWithin(n, d * Pow(2, UnitScale(exponent)))
    requires up <==> 2 * remainder > d' || (2 * remainder == d' && (rest > 0 || quotient % 2 == 1))
    ensures quotient < 2 * HIDDEN && (exponent >= -1022 ==> HIDDEN <= quotient)
    ensures RoundsTo(TrueNumerator(n, unit, rest), d * unit, UnitScale(exponent) * HIDDEN + quotient + if up then 1 else 0)
  {
    hide Pow, RoundsTo, TrueNumerator, Shifts, Divided, NoBoundaryWithin, RemainderUnits;
    QuotientRange(n, d, exponent, n', d');
    PowHidden();
    PowNext(1, 2, 52);
    QuotientBelow(quotient, remainder, d', 2 * HIDDEN);
    if exponent >= -1022 {
      QuotientAbove(quotient, remainder, d', HIDDEN);
    }
    ShiftedDivision(n, d, exponent, n', d', quotient, remainder);
    RoundQuotient(n, d, UnitScale(exponent), quotient, RemainderUnits(exponent, remainder), unit, rest, up);
  }

  lemma QuotientBelow(quotient: nat, remainder: nat, d: nat, bound: nat)
    requires quotient * d + remainder < d * bound
    ensures quotient < bound
  {
    if quotient >= bound {
      MulMonotone(bound, quotient, d);
    }
  }

  lemma QuotientAbove(quotient: nat, remainder: nat, d: nat, bound: nat)
    requires d * bound <= quotient * d + remainder && remainder < d
    ensures bound <= quotient
  {
    if quotient < bound {
      MulMonotone(quotient + 1, bound, d);
      MulDistribute(quotient, 1, d);
    }
  }

  /** The exact case: align, divide, compare with half, round, assemble. */
  method InRange(numerator: Big, denominator: Big, exponent: int, sticky: bool, ghost unit: nat, ghost rest: nat) returns (m: nat)
    requires numerator.Valid() && denominator.Valid() && numerator != denominator && numerator.words != denominator.words
    requires numerator.words.Length == LIMBS && denominator.words.Length == LIMBS
    requires BitLength(numerator.Val()) <= 2671 && BitLength(denominator.Val()) <= 3734
    requires 0 <= BitLength(numerator.Val()) - BitLength(denominator.Val()) - exponent <= 1
    requires denominator.Val() > 0 && Bracket(numerator.Val(), denominator.Val(), exponent) && -1075 <= exponent <= 1023
    requires rest < unit && (sticky <==> rest > 0)
    requires rest > 0 ==> NoBoundaryWithin(numerator.Val(), denominator.Val() * Pow(2, UnitScale(exponent)))
    modifies numerator, numerator.words, denominator, denominator.words
    ensures RoundsTo(TrueNumerator(old(numerator.Val()), unit, rest), old(denominator.Val()) * unit, m)
  {
    hide Pow, BitLength, Limbs.Value, RoundsTo, TrueNumerator, Shifts, NoBoundaryWithin, Bracket;
    ghost var n, d := numerator.Val(), denominator.Val();
    Align(numerator, denominator, exponent);
    ghost var n', d' := numerator.Val(), denominator.Val();
    Aligned(n, d, exponent, n', d');
    var significand := Divide(numerator, denominator, 54);
    ghost var remainder := numerator.Val();
    OneBitMore(remainder, d');
    var half := CompareShifted(numerator, 1, denominator, 0);
    var up := half > 0 || (half == 0 && (sticky || significand % 2 == 1));
    QuotientRounds(n, d, exponent, n', d', significand, remainder, unit, rest, up);
    if up {
      significand := significand + 1;
    }
    m := Assemble(exponent, significand);
  }

  /** From the scanned digits to the pattern.  `kept` of the digits are in the numerator; `dropped`
      more, of value `rest`, are not, and `sticky` says whether they matter. */
  method Convert(numerator: Big, denominator: Big, order: int, kept: nat, sticky: bool, ghost dropped: nat, ghost rest: nat)
    returns (m: nat)
    requires numerator.Valid() && denominator.Valid() && numerator != denominator && numerator.words != denominator.words
    requires numerator.words.Length == LIMBS && denominator.words.Length == LIMBS
    requires Kept(numerator.Val(), kept, order) && denominator.Val() == 1
    requires (dropped > 0 ==> kept == DIGITS) && rest < Pow(10, dropped) && (sticky <==> rest > 0)
    modifies numerator, numerator.words, denominator, denominator.words
    ensures DecimalRoundsTo(TrueNumerator(old(numerator.Val()), Pow(10, dropped), rest), order - kept + 1 - dropped, m)
  {
    hide Pow, BitLength, Limbs.Value, RoundsTo, TrueNumerator, Shifts, NoBoundaryWithin, DecimalRoundsTo, Bracket;
    ghost var value := numerator.Val();
    var scale := order - kept + 1;
    ghost var n, d, unit := value * Pow(10, Up(scale)), Pow(10, Up(-scale)), Pow(10, dropped);
    OperandSizes(n, d, value, kept, order);
    ScalingFits(value, kept, order, n, d);
    if scale >= 0 {
      var fits := numerator.MultiplyPower(10, scale);
      assert fits;
    } else {
      var fits := denominator.MultiplyPower(10, -scale);
      assert fits;
    }
    var exponent := BinaryExponent(numerator, denominator);
    if rest > 0 {
      PowZero(10);
      DroppedSafely(n, d, value, kept, order, exponent);
    }
    if exponent > 1023 {
      OverflowRounds(n, d, exponent, unit, rest);
      m := INFINITY;
    } else if exponent < -1075 {
      PowZero(2);
      UnderflowRounds(n, d, exponent, unit, rest);
      m := 0;
    } else {
      m := InRange(numerator, denominator, exponent, sticky, unit, rest);
    }
    OperandsDenote(n, d, value, scale, dropped, rest, m);
  }

  lemma Aligned(n: nat, d: nat, exponent: int, n': nat, d': nat)
    requires d > 0 && Bracket(n, d, exponent) && -1075 <= exponent <= 1023 && Shifts(n, d, exponent, n', d')
    ensures 0 < d' && n' < d' * Pow(2, 54)
  {
    hide Pow;
    QuotientRange(n, d, exponent, n', d');
    PowPositive(2, Up(exponent - 52));
    MulPositive(d, Pow(2, Up(exponent - 52)));
    PowMonotone(2, 53, 54);
    MulMonotone(Pow(2, 53), Pow(2, 54), d');
  }

  // ---------- texts ----------

  /** The longest text the runtime can hold. */
  const LONGEST: nat := 65535

  /** The kept digits and the dropped ones make up the coefficient. */
  lemma CoefficientSplit(seen: seq<Byte>, significant: nat, kept: nat, value: nat, sticky: bool) returns (rest: nat)
    requires Digested(seen, significant, kept, value, sticky) && significant > 0
    ensures Number(seen) == TrueNumerator(value, Pow(10, significant - kept), rest)
    ensures 0 < kept <= significant && (kept < significant ==> kept == DIGITS)
    ensures rest < Pow(10, significant - kept) && (sticky <==> rest > 0)
    ensures Pow(10, kept - 1) <= value < Pow(10, kept)
    ensures Pow(10, significant - 1) <= Number(seen) < Pow(10, significant)
  {
    hide Pow;
    var s := Significant(seen);
    SignificantNumber(seen);
    NumberBound(s);
    NumberBound(s[..kept]);
    NumberBound(s[kept..]);
    assert s == s[..kept] + s[kept..];
    NumberConcat(s[..kept], s[kept..]);
    rest := Number(s[kept..]);
  }

  lemma NothingSignificant(seen: seq<Byte>, kept: nat, value: nat, sticky: bool)
    requires Digested(seen, 0, kept, value, sticky)
    ensures Number(seen) == 0
  {
    SignificantNumber(seen);
  }

  lemma DigestedBound(seen: seq<Byte>, significant: nat, kept: nat, value: nat, sticky: bool)
    requires Digested(seen, significant, kept, value, sticky)
    ensures significant <= |seen|
  {
    SignificantShorter(seen);
  }

  lemma {:induction false} SignificantShorter(digits: seq<Byte>)
    ensures |Significant(digits)| <= |digits|
  {
    if digits != [] && digits[0] == 0x30 {
      SignificantShorter(digits[1..]);
    }
  }

  /** `10^order` is at most the number: with an order above 308 it is infinite. */
  lemma HighOrderIsInfinite(coefficient: nat, significant: nat, order: int)
    requires 0 < significant && Pow(10, significant - 1) <= coefficient && order > 308
    ensures DecimalRoundsTo(coefficient, order - significant + 1, INFINITY)
  {
    hide Pow, RoundsTo;
    var power := order - significant + 1;
    var down := Up(-power);
    PowPositive(10, down);
    PowPositive(10, Up(power));
    MulMonotone(Pow(10, significant - 1), coefficient, Pow(10, Up(power)));
    PowAdd(10, significant - 1, Up(power));
    PowAdd(10, down, 309);
    PowMonotone(10, down + 309, significant - 1 + Up(power));
    TenAboveTwo();
    MulMonotone(Pow(2, 1024), Pow(10, 309), Pow(10, down));
    LargeIsInfinite(coefficient * Pow(10, Up(power)), Pow(10, down));
  }

  /** The number is below `10^(order + 1)`: with an order below -325 it is zero. */
  lemma LowOrderIsZero(coefficient: nat, significant: nat, order: int)
    requires coefficient < Pow(10, significant) && order < -325
    ensures DecimalRoundsTo(coefficient, order - significant + 1, 0)
  {
    hide Pow, RoundsTo;
    var down := significant - 1 - order;
    PowZero(10);
    PowPositive(10, down);
    PowPositive(2, 1075);
    MulStrict(coefficient, Pow(10, significant), Pow(2, 1075));
    TenAboveTwo();
    PowPositive(10, significant);
    MulMonotone(Pow(2, 1075), Pow(10, 325), Pow(10, significant));
    PowAdd(10, significant, 325);
    PowMonotone(10, significant + 325, down);
    SmallIsZero(coefficient, Pow(10, down));
  }

  lemma ZeroIsZero(power: int)
    ensures DecimalRoundsTo(0, power, 0)
  {
    hide Pow, RoundsTo;
    PowPositive(10, Up(-power));
    MulEqual(0, 0, Pow(10, Up(power)));
    SmallIsZero(0, Pow(10, Up(-power)));
  }

  function Explicit(negative: bool, magnitude: nat): int {
    if negative then -(magnitude as int) else magnitude
  }

  function ExplicitOrder(significant: nat, fractionDigits: nat, explicit: int): int {
    significant + (explicit - fractionDigits) - 1
  }

  /** Stopping the exponent at a million changes the decimal order only where the result is decided
      by the order alone. */
  lemma ClampDoesNotMatter(significant: nat, fractionDigits: nat, negative: bool, magnitude: nat)
    requires significant <= LONGEST && fractionDigits <= LONGEST
    ensures var order := ExplicitOrder(significant, fractionDigits, Explicit(negative, magnitude));
            var clamped := ExplicitOrder(significant, fractionDigits, Explicit(negative, Min(magnitude, EXPONENT_CLAMP)));
            order == clamped || (order > 308 && clamped > 308) || (order < -325 && clamped < -325)
  {
  }

  /** A text the scans do not accept is not the text of a literal. */
  lemma Rejected(text: seq<Byte>, start: nat, index: nat, integer: seq<Byte>, afterPoint: bool, fraction: seq<Byte>)
    requires !IsSpecial(text) && Spelled(text, start, index, integer, afterPoint, fraction)
    requires index < |text| ==> !IsDigit(text[index]) && (text[index] == POINT ==> afterPoint)
    requires start == (if text != [] && IsSign(text[0]) then 1 else 0)
    requires integer == [] || (afterPoint && fraction == []) || forall e: Exponent :: e.WellFormed() ==> e.Text() != text[index..]
    ensures forall bits :: !Denotes(text, bits)
  {
    forall bits, l | LiteralDenotes(l, text, bits) ensures false {
      SpelledIsLiteral(text, start, index, integer, afterPoint, fraction, l);
    }
  }

  /** The scanned parts make up a literal. */
  lemma Accepted(text: seq<Byte>, start: nat, index: nat, integer: seq<Byte>, afterPoint: bool, fraction: seq<Byte>, l: Literal)
    requires Spelled(text, start, index, integer, afterPoint, fraction)
    requires start == (if text != [] && IsSign(text[0]) then 1 else 0)
    requires integer != [] && (afterPoint ==> fraction != [])
    requires l.exponent.WellFormed() && l.exponent.Text() == text[index..]
    requires l == Literal(text[..start], integer, if afterPoint then Digits(fraction) else NoFraction, l.exponent)
    ensures l.WellFormed() && l.Text() == text && l.FractionDigits() == fraction
    ensures |integer + fraction| <= |text|
  {
    hide Exponent.Text;
    Reassemble(text, start, index, integer, l.FractionText());
  }

  lemma Reassemble(text: seq<Byte>, start: nat, index: nat, integer: seq<Byte>, fractionText: seq<Byte>)
    requires start <= index <= |text| && text[start..index] == integer + fractionText
    ensures text[..start] + integer + fractionText + text[index..] == text
    ensures |integer| + |fractionText| <= |text|
  {
    assert text[..start] + integer + fractionText == text[..start] + (integer + fractionText);
    assert text[..start] + text[start..index] == text[..index];
    assert |text[start..index]| == |integer| + |fractionText|;
  }

  lemma DenotesFinite(l: Literal, text: seq<Byte>, m: nat)
    requires l.WellFormed() && l.Text() == text && DecimalRoundsTo(l.Coefficient(), l.Power10(), m)
    ensures Denotes(text, Signed(Negative(l.sign), m))
  {
    assert LiteralDenotes(l, text, Signed(Negative(l.sign), m));
  }

  lemma DenotesScanned(l: Literal, text: seq<Byte>, seen: seq<Byte>, fractionDigits: nat, m: nat)
    requires l.WellFormed() && l.Text() == text && seen == l.integer + l.FractionDigits() && fractionDigits == |l.FractionDigits()|
    requires AllDigits(seen) && DecimalRoundsTo(Number(seen), l.exponent.Value() - fractionDigits, m)
    ensures Denotes(text, Signed(Negative(l.sign), m))
  {
    hide Number, DecimalRoundsTo;
    DenotesFinite(l, text, m);
  }

  /** Accepts exactly the Float texts, and gives the correctly rounded pattern of the exact decimal
      value. */
  method Parse(text: seq<Byte>) returns (ok: bool, bits: nat)
    requires |text| <= LONGEST
    ensures ok ==> Denotes(text, bits)
    ensures !ok ==> forall b :: !Denotes(text, b)
  {
    if text == NAN_TEXT {
      return true, NAN;
    }
    if text == INFINITY_TEXT || text == [PLUS] + INFINITY_TEXT {
      return true, INFINITY;
    }
    if text == [MINUS] + INFINITY_TEXT {
      return true, SIGN + INFINITY;
    }
    hide Denotes;
    ok, bits := ParseNumber(text);
  }

  /** After the special names: a decimal number. */
  method ParseNumber(text: seq<Byte>) returns (ok: bool, bits: nat)
    requires |text| <= LONGEST && !IsSpecial(text)
    ensures ok ==> Denotes(text, bits)
    ensures !ok ==> forall b :: !Denotes(text, b)
  {
    hide Denotes, IsSpecial, Spelled, Digested, Number, Negative, DecimalRoundsTo, Limbs.Value, Literal.WellFormed, Literal.Text, Literal.FractionDigits,
         Exponent.WellFormed, Exponent.Text;
    var numerator := new Big(LIMBS, 0);
    var denominator := new Big(LIMBS, 1);
    var start := 0;
    var negative := false;
    if text != [] && IsSign(text[0]) {
      negative := text[0] == MINUS;
      start := 1;
    }
    var index, scan, integer, fraction := ScanDigits(text, start, numerator);
    if !scan.sawIntegerDigit || (scan.afterDecimalPoint && !scan.sawFractionDigit) {
      Rejected(text, start, index, integer, scan.afterDecimalPoint, fraction);
      return false, 0;
    }
    var accepted, exponentNegative, magnitude, exponent := ScanExponent(text, index);
    if !accepted {
      Rejected(text, start, index, integer, scan.afterDecimalPoint, fraction);
      return false, 0;
    }
    ghost var l := Literal(text[..start], integer, if scan.afterDecimalPoint then Digits(fraction) else NoFraction, exponent);
    Accepted(text, start, index, integer, scan.afterDecimalPoint, fraction, l);
    SignIs(text, start, negative);
    ExponentClamped(exponent, exponentNegative, magnitude);
    var m := Rounded(scan, numerator, denominator, Explicit(exponentNegative, magnitude), integer + fraction, exponent.Value());
    DenotesScanned(l, text, integer + fraction, scan.fractionDigits, m);
    return true, Signed(negative, m);
  }

  lemma SignIs(text: seq<Byte>, start: nat, negative: bool)
    requires start == (if text != [] && IsSign(text[0]) then 1 else 0) && (negative <==> start == 1 && text[0] == MINUS)
    ensures Negative(text[..start]) == negative
  {
  }

  lemma ExponentClamped(exponent: Exponent, negative: bool, magnitude: nat)
    requires exponent.WellFormed() && (negative <==> exponent.Scientific? && Negative(exponent.sign))
    requires magnitude == if exponent.Scientific? then Min(Number(exponent.digits), EXPONENT_CLAMP) else 0
    ensures var e := exponent.Value();
            Explicit(negative, magnitude) == if e < 0 then -(Min(-e, EXPONENT_CLAMP) as int) else Min(e, EXPONENT_CLAMP)
  {
    hide Number;
  }

  /** The rest of the conversion: zero, the ranges decided by the decimal order, and the exact case. */
  method Rounded(scan: Scan, numerator: Big, denominator: Big, explicit: int, ghost seen: seq<Byte>, ghost exponent: int)
    returns (m: nat)
    requires numerator.Valid() && denominator.Valid() && numerator != denominator && numerator.words != denominator.words
    requires numerator.words.Length == LIMBS && denominator.words.Length == LIMBS && denominator.Val() == 1
    requires Digested(seen, scan.significantDigits, scan.keptDigits, numerator.Val(), scan.sticky)
    requires scan.seenNonzero <==> scan.significantDigits > 0
    requires |seen| <= LONGEST && scan.fractionDigits <= |seen|
    requires explicit == if exponent < 0 then -(Min(-exponent, EXPONENT_CLAMP) as int) else Min(exponent, EXPONENT_CLAMP)
    modifies numerator, numerator.words, denominator, denominator.words
    ensures AllDigits(seen) && DecimalRoundsTo(Number(seen), exponent - scan.fractionDigits, m)
  {
    hide Pow, Number, Significant, Limbs.Value, RoundsTo, TrueNumerator, DecimalRoundsTo, Digested;
    ghost var value := numerator.Val();
    DigestedLimits(seen, scan.significantDigits, scan.keptDigits, value, scan.sticky);
    if !scan.seenNonzero {
      NothingSignificant(seen, scan.keptDigits, value, scan.sticky);
      ZeroIsZero(exponent - scan.fractionDigits);
      return 0;
    }
    ghost var rest := CoefficientSplit(seen, scan.significantDigits, scan.keptDigits, value, scan.sticky);
    DigestedBound(seen, scan.significantDigits, scan.keptDigits, value, scan.sticky);
    ClampDoesNotMatter(scan.significantDigits, scan.fractionDigits, exponent < 0, if exponent < 0 then -exponent else exponent);
    ghost var exact := ExplicitOrder(scan.significantDigits, scan.fractionDigits, exponent);
    var order := ExplicitOrder(scan.significantDigits, scan.fractionDigits, explicit);
    if order > 308 {
      HighOrderIsInfinite(Number(seen), scan.significantDigits, exact);
      return INFINITY;
    }
    if order < -325 {
      LowOrderIsZero(Number(seen), scan.significantDigits, exact);
      return 0;
    }
    m := Convert(numerator, denominator, order, scan.keptDigits, scan.sticky, scan.significantDigits - scan.keptDigits, rest);
  }
}
