/** What the printed text looks like, said without the layout that writes it: no digit too many, and the
    form of the number decided by its size.  Only one literal is like that. */
module TidyText {
  import opened Powers
  import opened DecimalText
  import opened FloatScan
  import opened FloatLayout

  /** No superfluous zero anywhere; a fraction even after an integer, unless there is an exponent; an
      exponent with a small mark, a sign, and one digit before the point. */
  predicate Tidy(l: Literal)
    requires l.WellFormed()
  {
    if l.exponent.NoExponent? then
      && (l.integer == [ZERO] || l.integer[0] != ZERO)
      && l.fraction.Digits? && (l.fraction.digits == [ZERO] || NoZeroAtEnd(l.fraction.digits))
    else
      && |l.integer| == 1 && l.integer[0] != ZERO
      && (l.fraction.Digits? ==> NoZeroAtEnd(l.fraction.digits))
      && l.exponent.mark == 0x65 && |l.exponent.sign| == 1 && l.exponent.digits[0] != ZERO
  }

  predicate NoZeroAtEnd(digits: seq<Byte>) {
    digits != [] && digits[|digits| - 1] != ZERO
  }

  /** Between `a` zeros in front and `b` behind, the digits of the literal are `digits`, and its value is
      `0.digits * 10^position`. */
  predicate DigitsAt(l: Literal, digits: seq<Byte>, position: int, a: nat, b: nat)
    requires l.WellFormed()
  {
    l.integer + l.FractionDigits() == Zeros(a) + digits + Zeros(b) && position == |l.integer| - a + l.exponent.Value()
  }

  ghost predicate HasDigits(l: Literal, digits: seq<Byte>, position: int)
    requires l.WellFormed()
  {
    exists a: nat, b: nat :: DigitsAt(l, digits, position, a, b)
  }

  /** The number is written without an exponent from 0.000001 up to 21 digits before the point. */
  ghost predicate Printed(l: Literal, sign: seq<Byte>, digits: seq<Byte>, position: int) {
    l.WellFormed() && l.sign == sign && Tidy(l) && HasDigits(l, digits, position) && (l.exponent.NoExponent? <==> -6 < position <= 21)
  }

  ghost predicate Bare(digits: seq<Byte>) {
    AllDigits(digits) && digits != [] && digits[0] != ZERO && digits[|digits| - 1] != ZERO
  }

  /** The layout is the one literal that looks like this. */
  lemma PrintedExactly(l: Literal, sign: seq<Byte>, digits: seq<Byte>, position: int)
    requires OptionalSign(sign) && Bare(digits)
    ensures Printed(l, sign, digits, position) <==> l == LayoutLiteral(sign, digits, position)
  {
    LayoutPrinted(sign, digits, position);
    if Printed(l, sign, digits, position) {
      var a: nat, b: nat :| DigitsAt(l, digits, position, a, b);
      if l.exponent.NoExponent? {
        PlainIsLayout(l, digits, position, a, b);
      } else {
        ScientificIsLayout(l, digits, position, a, b);
      }
    }
  }

  lemma LayoutPrinted(sign: seq<Byte>, digits: seq<Byte>, position: int)
    requires OptionalSign(sign) && Bare(digits)
    ensures Printed(LayoutLiteral(sign, digits, position), sign, digits, position)
  {
    LayoutWellFormed(sign, digits, position);
    LayoutDigits(sign, digits, position);
    LayoutTidy(sign, digits, position);
    hide *;
    LayoutForm(sign, digits, position);
    PrintedIs(LayoutLiteral(sign, digits, position), sign, digits, position);
  }

  lemma PrintedIs(l: Literal, sign: seq<Byte>, digits: seq<Byte>, position: int)
    requires l.WellFormed() && l.sign == sign && Tidy(l) && HasDigits(l, digits, position) && (l.exponent.NoExponent? <==> -6 < position <= 21)
    ensures Printed(l, sign, digits, position)
  {
  }

  lemma LayoutForm(sign: seq<Byte>, digits: seq<Byte>, position: int)
    requires digits != []
    ensures LayoutLiteral(sign, digits, position).exponent.NoExponent? <==> -6 < position <= 21
  {
  }

  lemma LayoutTidy(sign: seq<Byte>, digits: seq<Byte>, position: int)
    requires Bare(digits) && LayoutLiteral(sign, digits, position).WellFormed()
    ensures Tidy(LayoutLiteral(sign, digits, position))
  {
    hide Number, DigitsOf, AllDigits;
    var exponent := position - 1;
    DigitsOfNumber(if exponent < 0 then -exponent else exponent);
  }

  lemma LayoutDigits(sign: seq<Byte>, digits: seq<Byte>, position: int)
    requires Bare(digits) && LayoutLiteral(sign, digits, position).WellFormed()
    ensures HasDigits(LayoutLiteral(sign, digits, position), digits, position)
  {
    var a, b := LayoutPadded(sign, digits, position);
    LayoutPoint(sign, digits, position);
    hide LayoutLiteral, Number, Zeros, AllDigits, Literal.WellFormed, Literal.FractionDigits, Exponent.Value;
    assert DigitsAt(LayoutLiteral(sign, digits, position), digits, position, a, b);
  }

  lemma LayoutPoint(sign: seq<Byte>, digits: seq<Byte>, position: int)
    requires digits != [] && LayoutLiteral(sign, digits, position).WellFormed()
    ensures var l := LayoutLiteral(sign, digits, position);
            position == |l.integer| - (if -6 < position <= 0 then 1 - position else 0) + l.exponent.Value()
  {
    hide Number, DigitsOf, AllDigits;
    var exponent := position - 1;
    DigitsOfNumber(if exponent < 0 then -exponent else exponent);
  }

  lemma LayoutPadded(sign: seq<Byte>, digits: seq<Byte>, position: int) returns (a: nat, b: nat)
    requires digits != []
    ensures var l := LayoutLiteral(sign, digits, position); l.integer + l.FractionDigits() == Zeros(a) + digits + Zeros(b)
    ensures a == if -6 < position <= 0 then 1 - position else 0
  {
    var count := |digits|;
    hide DigitsOf, AllDigits, Zeros;
    a, b := 0, 0;
    PaddedNone(digits);
    if count <= position <= 21 {
      b := position - count + 1;
      ZerosBehind(digits, position - count);
    } else if 0 < position <= 21 {
      assert digits[..position] + digits[position..] == digits;
    } else if -6 < position <= 0 {
      a := 1 - position;
      ZerosInFront(digits, -position);
    } else {
      assert [digits[0]] + digits[1..] == digits;
      assert count == 1 ==> [digits[0]] + [] == digits;
    }
  }

  lemma PaddedNone(digits: seq<Byte>)
    ensures Zeros(0) + digits + Zeros(0) == digits
  {
  }

  lemma ZerosBehind(digits: seq<Byte>, b: nat)
    ensures digits + Zeros(b) + [ZERO] == Zeros(0) + digits + Zeros(b + 1)
  {
  }

  lemma ZerosInFront(digits: seq<Byte>, a: nat)
    ensures [ZERO] + (Zeros(a) + digits) == Zeros(1 + a) + digits + Zeros(0)
  {
  }

  /** The text is that of the literal that looks like this. */
  ghost predicate PrintedAs(text: seq<Byte>, sign: seq<Byte>, digits: seq<Byte>, position: int) {
    exists l :: Printed(l, sign, digits, position) && l.Text() == text
  }

  lemma LayoutPrintedAs(sign: seq<Byte>, digits: seq<Byte>, position: int)
    requires OptionalSign(sign) && Bare(digits)
    ensures PrintedAs(sign + Layout(digits, position), sign, digits, position)
  {
    LayoutPrinted(sign, digits, position);
    LayoutSpells(sign, digits, position);
  }

  /** There is one such text. */
  lemma PrintedAsUnique(text: seq<Byte>, text': seq<Byte>, sign: seq<Byte>, digits: seq<Byte>, position: int)
    requires OptionalSign(sign) && Bare(digits) && PrintedAs(text, sign, digits, position) && PrintedAs(text', sign, digits, position)
    ensures text == text'
  {
    hide Printed;
    var l :| Printed(l, sign, digits, position) && l.Text() == text;
    var l' :| Printed(l', sign, digits, position) && l'.Text() == text';
    PrintedExactly(l, sign, digits, position);
    PrintedExactly(l', sign, digits, position);
  }

  // ---------- only the layout ----------

  /** Byte `i` of padded digits. */
  lemma PaddedAt(digits: seq<Byte>, a: nat, b: nat, i: nat)
    requires i < a + |digits| + b
    ensures (Zeros(a) + digits + Zeros(b))[i] == if a <= i < a + |digits| then digits[i - a] else ZERO
  {
  }

  lemma PlainIsLayout(l: Literal, digits: seq<Byte>, position: int, a: nat, b: nat)
    requires l.WellFormed() && Tidy(l) && Bare(digits) && DigitsAt(l, digits, position, a, b) && l.exponent.NoExponent? && -6 < position <= 21
    ensures l == LayoutLiteral(l.sign, digits, position)
  {
    var i, f := l.integer, l.fraction.digits;
    assert position == |i| - a;
    PaddedEnds(digits, a, b);
    var padded := Zeros(a) + digits + Zeros(b);
    hide Literal.WellFormed, AllDigits, Zeros, DigitsAt;
    assert i + f == padded && i[0] == padded[0] && f[|f| - 1] == padded[|padded| - 1];
    if i == [ZERO] {
      FractionIs(f, digits, a, b);
    } else if |digits| <= position {
      IntegerIs(i, f, digits, b);
    } else {
      PointInside(i, f, digits, b);
    }
  }

  lemma PaddedEnds(digits: seq<Byte>, a: nat, b: nat)
    requires Bare(digits)
    ensures var padded := Zeros(a) + digits + Zeros(b);
            |padded| == a + |digits| + b && (padded[0] == ZERO <==> a > 0) && (padded[|padded| - 1] == ZERO <==> b > 0)
  {
    PaddedAt(digits, a, b, 0);
    PaddedAt(digits, a, b, a + |digits| + b - 1);
  }

  lemma FractionIs(f: seq<Byte>, digits: seq<Byte>, a: nat, b: nat)
    requires [ZERO] + f == Zeros(a) + digits + Zeros(b) && a > 0 && digits != [] && (f == [ZERO] || b == 0)
    ensures f == Zeros(a - 1) + digits
  {
    var padded := Zeros(a) + digits + Zeros(b);
    assert f == ([ZERO] + f)[1..];
    assert f == padded[1..];
    assert |f| == a - 1 + |digits| + b;
  }

  lemma IntegerIs(i: seq<Byte>, f: seq<Byte>, digits: seq<Byte>, b: nat)
    requires i + f == Zeros(0) + digits + Zeros(b) && |digits| <= |i| && f != [] && (f == [ZERO] || b == 0)
    ensures f == [ZERO] && i == digits + Zeros(|i| - |digits|)
  {
    var padded := Zeros(0) + digits + Zeros(b);
    assert i == (i + f)[..|i|] == padded[..|i|];
  }

  lemma PointInside(i: seq<Byte>, f: seq<Byte>, digits: seq<Byte>, b: nat)
    requires i + f == Zeros(0) + digits + Zeros(b) && |i| < |digits| && (f == [ZERO] || b == 0)
    ensures i == digits[..|i|] && f == digits[|i|..]
  {
    var padded := Zeros(0) + digits + Zeros(b);
    assert i == (i + f)[..|i|] == padded[..|i|];
    assert f == (i + f)[|i|..] == padded[|i|..];
  }

  lemma ScientificIsLayout(l: Literal, digits: seq<Byte>, position: int, a: nat, b: nat)
    requires l.WellFormed() && Tidy(l) && Bare(digits) && DigitsAt(l, digits, position, a, b) && l.exponent.Scientific? && !(-6 < position <= 21)
    ensures l == LayoutLiteral(l.sign, digits, position)
  {
    var padded, i, f := Zeros(a) + digits + Zeros(b), l.integer, l.FractionDigits();
    assert padded == i + f;
    assert i[0] == padded[0];
    PaddedAt(digits, a, b, 0);
    PaddedAt(digits, a, b, |padded| - 1);
    if f != [] {
      assert f[|f| - 1] == padded[|padded| - 1];
    }
    assert a == 0 && b == 0 && padded == digits;
    assert f == digits[1..];
    DigitsUnique(l.exponent.digits);
  }

  /** A number has one text without leading zeros. */
  lemma {:induction false} DigitsUnique(digits: seq<Byte>)
    requires AllDigits(digits) && digits != [] && digits[0] != ZERO
    ensures Number(digits) > 0 && DigitsOf(Number(digits)) == digits
    decreases |digits|
  {
    var rest, last := digits[..|digits| - 1], digits[|digits| - 1];
    assert digits == rest + [last];
    if rest != [] {
      DigitsUnique(rest);
    }
  }
}
