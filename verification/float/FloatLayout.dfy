/** How `emela_emb_float_to_string` lays out digits and a decimal position, and the buffer it writes
    to.  The layout follows Number::toString, section 6.1.6.1.20 of ECMA-262, with a fraction part
    even for integers and a sign on every exponent. */
module FloatLayout {
  import opened Powers
  import opened Magnitudes
  import opened Interval
  import opened DecimalText
  import opened FloatScan
  import opened FloatDigits

  const ZERO: Byte := 0x30

  function Zeros(count: nat): (zeros: seq<Byte>)
    ensures |zeros| == count && AllDigits(zeros)
  {
    seq(count, _ => ZERO)
  }

  /** The decimal digits of a number, highest first, at least one. */
  function DigitsOf(value: nat): (digits: seq<Byte>)
    ensures AllDigits(digits) && digits != []
  {
    if value < 10 then [ZERO + value] else DigitsOf(value / 10) + [ZERO + value % 10]
  }

  lemma {:induction false} DigitsOfNumber(value: nat)
    ensures Number(DigitsOf(value)) == value
    ensures value > 0 ==> DigitsOf(value)[0] != ZERO
  {
    if value >= 10 {
      DigitsOfNumber(value / 10);
      NumberAppend(DigitsOf(value / 10), ZERO + value % 10);
    } else {
      assert DigitsOf(value)[..0] == [];
    }
  }

  /** A number below `10^count` has at most `count` digits. */
  lemma DigitCount(value: nat, count: nat)
    requires value < Pow(10, count) && 0 < count
    ensures |DigitsOf(value)| <= count
  {
    hide Pow;
    if value > 0 {
      DigitsOfNumber(value);
      NumberBound(DigitsOf(value));
      if |DigitsOf(value)| > count {
        PowMonotone(10, count, |DigitsOf(value)| - 1);
      }
    }
  }

  /** The text of `0.digits * 10^position`, without sign. */
  function Layout(digits: seq<Byte>, position: int): seq<Byte>
    requires digits != []
  {
    var count := |digits|;
    if count <= position <= 21 then digits + Zeros(position - count) + [POINT, ZERO]
    else if 0 < position <= 21 then digits[..position] + [POINT] + digits[position..]
    else if -6 < position <= 0 then [ZERO, POINT] + Zeros(-position) + digits
    else
      var exponent := position - 1;
      [digits[0]] + (if count > 1 then [POINT] + digits[1..] else []) +
      [0x65, if exponent < 0 then MINUS else PLUS] + DigitsOf(if exponent < 0 then -exponent else exponent)
  }

  /** The literal a layout spells. */
  function LayoutLiteral(sign: seq<Byte>, digits: seq<Byte>, position: int): Literal
    requires digits != []
  {
    var count := |digits|;
    if count <= position <= 21 then Literal(sign, digits + Zeros(position - count), Digits([ZERO]), NoExponent)
    else if 0 < position <= 21 then Literal(sign, digits[..position], Digits(digits[position..]), NoExponent)
    else if -6 < position <= 0 then Literal(sign, [ZERO], Digits(Zeros(-position) + digits), NoExponent)
    else
      var exponent := position - 1;
      Literal(sign, [digits[0]], if count > 1 then Digits(digits[1..]) else NoFraction,
              Scientific(0x65, [if exponent < 0 then MINUS else PLUS], DigitsOf(if exponent < 0 then -exponent else exponent)))
  }

  lemma LayoutSpells(sign: seq<Byte>, digits: seq<Byte>, position: int)
    requires OptionalSign(sign) && AllDigits(digits) && digits != []
    ensures var l := LayoutLiteral(sign, digits, position);
            l.WellFormed() && l.Text() == sign + Layout(digits, position)
  {
    hide Layout, LayoutLiteral, Number, Literal.Text;
    var l := LayoutLiteral(sign, digits, position);
    LayoutWellFormed(sign, digits, position);
    LayoutParts(sign, digits, position);
    TextParts(l);
  }

  lemma LayoutWellFormed(sign: seq<Byte>, digits: seq<Byte>, position: int)
    requires OptionalSign(sign) && AllDigits(digits) && digits != []
    ensures LayoutLiteral(sign, digits, position).WellFormed() && LayoutLiteral(sign, digits, position).sign == sign
  {
    hide Number, Literal.Text, Exponent.Text, DigitsOf;
  }

  lemma LayoutParts(sign: seq<Byte>, digits: seq<Byte>, position: int)
    requires digits != []
    ensures var l := LayoutLiteral(sign, digits, position);
            Layout(digits, position) == l.integer + l.FractionText() + l.exponent.Text()
  {
    hide Number, DigitsOf, Literal.Text, Zeros;
    var count := |digits|;
    if count <= position <= 21 {
      TwoPieces(digits + Zeros(position - count), [POINT], [ZERO]);
    } else if 0 < position <= 21 {
      TwoPieces(digits[..position], [POINT], digits[position..]);
    } else if -6 < position <= 0 {
      ThreePieces([ZERO], [POINT], Zeros(-position), digits);
    } else {
      ScientificParts(sign, digits, position);
    }
  }

  lemma ScientificParts(sign: seq<Byte>, digits: seq<Byte>, position: int)
    requires digits != [] && !(-6 < position <= 21)
    ensures var l := LayoutLiteral(sign, digits, position);
            Layout(digits, position) == l.integer + l.FractionText() + l.exponent.Text()
  {
    hide Number, DigitsOf, Literal.Text, Zeros;
    var exponent := position - 1;
    TwoBytes(0x65, if exponent < 0 then MINUS else PLUS);
    ExponentPieces([0x65], [if exponent < 0 then MINUS else PLUS], DigitsOf(if exponent < 0 then -exponent else exponent));
  }

  lemma TwoPieces(a: seq<Byte>, b: seq<Byte>, c: seq<Byte>)
    ensures a + (b + c) + [] == a + b + c
    ensures |b| == |c| == 1 ==> a + (b + c) + [] == a + [b[0], c[0]]
  {
    if |b| == |c| == 1 {
      assert b + c == [b[0], c[0]];
    }
  }

  lemma ThreePieces(a: seq<Byte>, b: seq<Byte>, c: seq<Byte>, d: seq<Byte>)
    ensures a + (b + (c + d)) + [] == a + b + c + d
  {
  }

  lemma TwoBytes(a: Byte, b: Byte)
    ensures [a] + [b] == [a, b]
  {
  }

  lemma ExponentPieces(mark: seq<Byte>, sign: seq<Byte>, digits: seq<Byte>)
    ensures forall a: seq<Byte>, b: seq<Byte> :: a + b + (mark + sign + digits) == a + b + (mark + sign) + digits
  {
  }

  lemma TextParts(l: Literal)
    ensures l.Text() == l.sign + (l.integer + l.FractionText() + l.exponent.Text())
  {
    hide Literal.FractionText, Exponent.Text;
  }

  lemma LeadingZeros(count: nat, digits: seq<Byte>)
    requires AllDigits(digits)
    ensures Number(Zeros(count) + digits) == Number(digits)
  {
    ZerosNumber(count);
    NumberConcat(Zeros(count), digits);
    MulEqual(Number(Zeros(count)), 0, Pow(10, |digits|));
  }

  lemma {:induction false} ZerosNumber(count: nat)
    ensures Number(Zeros(count)) == 0
  {
    if count > 0 {
      assert Zeros(count) == Zeros(count - 1) + [ZERO];
      ZerosNumber(count - 1);
      NumberAppend(Zeros(count - 1), ZERO);
    }
  }

  /** What a layout denotes: its digits, scaled by its position. */
  lemma LayoutDenotes(sign: seq<Byte>, digits: seq<Byte>, position: int, m: nat)
    requires OptionalSign(sign) && AllDigits(digits) && digits != [] && Finite(m)
    requires DecimalRoundsTo(Number(digits), position - |digits|, m)
    ensures var l := LayoutLiteral(sign, digits, position);
            l.WellFormed() && DecimalRoundsTo(l.Coefficient(), l.Power10(), m)
  {
    hide Pow, DecimalRoundsTo, Number, Layout, Literal.Text, LayoutLiteral, Zeros, Literal.Coefficient, Literal.Power10, Literal.WellFormed, Up;
    LayoutWellFormed(sign, digits, position);
    LayoutValue(sign, digits, position);
    if |digits| <= position <= 21 {
      SameDecimal(Number(digits), -1, position - |digits| + 1, m);
    }
  }

  /** The literal has the digits as coefficient, or, for an integer, the digits and some zeros. */
  lemma LayoutValue(sign: seq<Byte>, digits: seq<Byte>, position: int)
    requires OptionalSign(sign) && AllDigits(digits) && digits != [] && LayoutLiteral(sign, digits, position).WellFormed()
    ensures var l := LayoutLiteral(sign, digits, position);
            if |digits| <= position <= 21 then
              l.Power10() == -1 && l.Coefficient() == Number(digits) * Pow(10, position - |digits| + 1)
            else l.Power10() == position - |digits| && l.Coefficient() == Number(digits)
  {
    hide Pow, Number, Literal.Text, Literal.WellFormed, DigitsOf, Zeros;
    var count := |digits|;
    if count <= position <= 21 {
      TrailingZeros(digits, position - count);
    } else if 0 < position <= 21 {
      assert digits[..position] + digits[position..] == digits;
    } else if -6 < position <= 0 {
      LeadingZeros(1 - position, digits);
      OneMoreZero(-position, digits);
    } else {
      var exponent := position - 1;
      DigitsOfNumber(if exponent < 0 then -exponent else exponent);
      assert [digits[0]] + digits[1..] == digits;
      if count == 1 {
        assert [digits[0]] + [] == digits;
      }
    }
  }

  lemma OneMoreZero(count: nat, digits: seq<Byte>)
    ensures [ZERO] + (Zeros(count) + digits) == Zeros(count + 1) + digits
  {
  }

  lemma TrailingZeros(digits: seq<Byte>, count: nat)
    requires AllDigits(digits)
    ensures Number(digits + Zeros(count) + [ZERO]) == Number(digits) * Pow(10, count + 1)
  {
    hide Pow, Number;
    assert digits + Zeros(count) + [ZERO] == digits + Zeros(count + 1);
    ZerosNumber(count + 1);
    NumberConcat(digits, Zeros(count + 1));
  }

  /** At most 25 bytes. */
  lemma LayoutLength(sign: seq<Byte>, digits: seq<Byte>, position: int)
    requires OptionalSign(sign) && 0 < |digits| <= 17 && -999 < position <= 1000
    ensures |sign + Layout(digits, position)| <= 25
  {
    var exponent := position - 1;
    assert Pow(10, 3) == 1000 by {
      SmallPowers();
    }
    DigitCount(if exponent < 0 then -exponent else exponent, 3);
  }
}
