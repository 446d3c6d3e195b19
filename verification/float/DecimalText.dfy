/** The texts that denote Float values: the three special names and decimal literals, and which
    binary64 pattern each denotes. */
module DecimalText {
  import opened Powers
  import opened Binary64
  import opened Magnitudes

  type Byte = b: int | 0 <= b < 256

  const PLUS: Byte := 0x2b
  const MINUS: Byte := 0x2d
  const POINT: Byte := 0x2e

  predicate IsDigit(b: Byte) {
    0x30 <= b <= 0x39
  }

  predicate IsSign(b: Byte) {
    b == PLUS || b == MINUS
  }

  predicate IsExponentMark(b: Byte) {
    b == 0x65 || b == 0x45
  }

  predicate AllDigits(text: seq<Byte>) {
    forall i :: 0 <= i < |text| ==> IsDigit(text[i])
  }

  function DigitValue(b: Byte): nat
    requires IsDigit(b)
  {
    b - 0x30
  }

  /** The number a run of digits denotes. */
  function Number(digits: seq<Byte>): nat
    requires AllDigits(digits)
  {
    if digits == [] then 0
    else Number(digits[..|digits| - 1]) * 10 + DigitValue(digits[|digits| - 1])
  }

  /** An optional sign: nothing, `+` or `-`. */
  predicate OptionalSign(sign: seq<Byte>) {
    sign == [] || (|sign| == 1 && IsSign(sign[0]))
  }

  predicate Negative(sign: seq<Byte>) {
    sign == [MINUS]
  }

  datatype Fraction = NoFraction | Digits(digits: seq<Byte>)
  datatype Exponent = NoExponent | Scientific(mark: Byte, sign: seq<Byte>, digits: seq<Byte>)
  {
    predicate WellFormed() {
      Scientific? ==> IsExponentMark(mark) && OptionalSign(sign) && AllDigits(digits) && digits != []
    }

    function Text(): seq<Byte> {
      if Scientific? then [mark] + sign + digits else []
    }

    function Value(): int
      requires WellFormed()
    {
      if NoExponent? then 0 else if Negative(sign) then -(Number(digits) as int) else Number(digits)
    }
  }

  datatype Literal = Literal(sign: seq<Byte>, integer: seq<Byte>, fraction: Fraction, exponent: Exponent)
  {
    /** sign? digits+ ("." digits+)? (("e" | "E") sign? digits+)? */
    predicate WellFormed() {
      && OptionalSign(sign)
      && AllDigits(integer) && integer != []
      && (fraction.Digits? ==> AllDigits(fraction.digits) && fraction.digits != [])
      && exponent.WellFormed()
    }

    function FractionDigits(): seq<Byte> {
      if fraction.Digits? then fraction.digits else []
    }

    function FractionText(): seq<Byte> {
      if fraction.Digits? then [POINT] + fraction.digits else []
    }

    function Text(): seq<Byte> {
      sign + integer + FractionText() + exponent.Text()
    }

    /** All digits, as one number. */
    function Coefficient(): nat
      requires WellFormed()
    {
      Number(integer + FractionDigits())
    }

    /** The literal's magnitude is `Coefficient() * 10^Power10()`. */
    function Power10(): int
      requires WellFormed()
    {
      exponent.Value() - |FractionDigits()|
    }
  }

  /** `coefficient * 10^exponent` rounds to magnitude `m`. */
  predicate DecimalRoundsTo(coefficient: nat, exponent: int, m: nat) {
    RoundsTo(coefficient * Pow(10, Up(exponent)), Pow(10, Up(-exponent)), m)
  }

  function Signed(negative: bool, m: nat): nat {
    if negative then SIGN + m else m
  }

  const NAN_TEXT: seq<Byte> := [0x4e, 0x61, 0x4e]
  const INFINITY_TEXT: seq<Byte> := [0x49, 0x6e, 0x66, 0x69, 0x6e, 0x69, 0x74, 0x79]

  ghost predicate LiteralDenotes(l: Literal, text: seq<Byte>, bits: nat) {
    && l.WellFormed() && l.Text() == text
    && exists m :: bits == Signed(Negative(l.sign), m) && DecimalRoundsTo(l.Coefficient(), l.Power10(), m)
  }

  /** `text` denotes the binary64 pattern `bits`. */
  ghost predicate Denotes(text: seq<Byte>, bits: nat) {
    || (text == NAN_TEXT && bits == NAN)
    || ((text == INFINITY_TEXT || text == [PLUS] + INFINITY_TEXT) && bits == INFINITY)
    || (text == [MINUS] + INFINITY_TEXT && bits == SIGN + INFINITY)
    || exists l :: LiteralDenotes(l, text, bits)
  }

  // ---------- the grammar is unambiguous ----------

  /** `run` is the longest run of digits at position `at`. */
  ghost predicate LongestRun(text: seq<Byte>, at: nat, run: seq<Byte>) {
    && at + |run| <= |text|
    && (forall j :: at <= j < at + |run| ==> text[j] == run[j - at] && IsDigit(text[j]))
    && (at + |run| < |text| ==> !IsDigit(text[at + |run|]))
  }

  lemma LongestRunUnique(text: seq<Byte>, at: nat, a: seq<Byte>, b: seq<Byte>)
    requires LongestRun(text, at, a) && LongestRun(text, at, b)
    ensures a == b
  {
    assert |a| == |b|;
    forall i | 0 <= i < |a| ensures a[i] == b[i] {
      assert text[at + i] == a[at + i - at];
    }
  }

  lemma Pieces(text: seq<Byte>, a: seq<Byte>, b: seq<Byte>, c: seq<Byte>, d: seq<Byte>)
    requires text == a + b + c + d
    ensures var p, q, r := |a|, |a| + |b|, |a| + |b| + |c|;
            && r <= |text| && text[..p] == a && text[p..q] == b && text[q..r] == c && text[r..] == d
            && (forall j :: 0 <= j < p ==> text[j] == a[j])
            && (forall j :: p <= j < q ==> text[j] == b[j - p])
            && (forall j :: q <= j < r ==> text[j] == c[j - q])
            && (forall j :: r <= j < |text| ==> text[j] == d[j - r])
  {
  }

  /** Where the parts of a literal stand in its text. */
  lemma LiteralParts(l: Literal, text: seq<Byte>)
    requires l.WellFormed() && l.Text() == text
    ensures var p := |l.sign|;
            var q := p + |l.integer|;
            var r := q + |l.FractionText()|;
            && p < |text| && r <= |text|
            && (p == 0 || text[0] == l.sign[0]) && IsDigit(text[p])
            && LongestRun(text, p, l.integer)
            && (l.fraction.Digits? <==> q < |text| && text[q] == POINT)
            && (l.fraction.Digits? ==> LongestRun(text, q + 1, l.fraction.digits))
            && text[r..] == l.exponent.Text() && (l.exponent.Scientific? <==> r < |text|)
            && (r < |text| ==> IsExponentMark(text[r]))
  {
    var fractionText, exponentText := l.FractionText(), l.exponent.Text();
    Pieces(text, l.sign, l.integer, fractionText, exponentText);
    if l.exponent.Scientific? {
      assert exponentText[0] == l.exponent.mark;
    }
    if l.fraction.Digits? {
      assert fractionText[0] == POINT;
      RunAfterPoint(text, |l.sign| + |l.integer|, fractionText, l.fraction.digits);
    }
  }

  lemma RunAfterPoint(text: seq<Byte>, q: nat, fractionText: seq<Byte>, digits: seq<Byte>)
    requires q + |fractionText| <= |text| && fractionText == [POINT] + digits && AllDigits(digits)
    requires text[q..q + |fractionText|] == fractionText
    requires q + |fractionText| < |text| ==> !IsDigit(text[q + |fractionText|])
    ensures LongestRun(text, q + 1, digits)
  {
    forall j | q + 1 <= j < q + 1 + |digits| ensures text[j] == digits[j - (q + 1)] && IsDigit(text[j]) {
      assert text[j] == text[q..q + |fractionText|][j - q];
    }
  }

  /** A text is the text of at most one literal. */
  lemma LiteralUnique(a: Literal, b: Literal)
    requires a.WellFormed() && b.WellFormed() && a.Text() == b.Text()
    ensures a == b
  {
    hide Literal.Text, LongestRun, AllDigits, Exponent.Text;
    var text := a.Text();
    LiteralParts(a, text);
    LiteralParts(b, text);
    SignUnique(a.sign, b.sign, text);
    var p := |a.sign|;
    LongestRunUnique(text, p, a.integer, b.integer);
    FractionUnique(a, b, text, p + |a.integer|);
    var r := p + |a.integer| + |a.FractionText()|;
    if a.exponent.Scientific? {
      ExponentUnique(a.exponent, b.exponent, text[r..]);
    }
  }

  lemma SignUnique(a: seq<Byte>, b: seq<Byte>, text: seq<Byte>)
    requires OptionalSign(a) && OptionalSign(b) && |a| < |text| && |b| < |text| && IsDigit(text[|a|]) && IsDigit(text[|b|])
    requires (|a| == 0 || text[0] == a[0]) && (|b| == 0 || text[0] == b[0])
    ensures a == b
  {
  }

  lemma FractionUnique(a: Literal, b: Literal, text: seq<Byte>, q: nat)
    requires (a.fraction.Digits? <==> q < |text| && text[q] == POINT) && (b.fraction.Digits? <==> q < |text| && text[q] == POINT)
    requires a.fraction.Digits? ==> LongestRun(text, q + 1, a.fraction.digits)
    requires b.fraction.Digits? ==> LongestRun(text, q + 1, b.fraction.digits)
    ensures a.fraction == b.fraction && a.FractionText() == b.FractionText()
  {
    if a.fraction.Digits? {
      LongestRunUnique(text, q + 1, a.fraction.digits, b.fraction.digits);
    }
  }

  lemma ExponentUnique(a: Exponent, b: Exponent, text: seq<Byte>)
    requires a.Scientific? && b.Scientific? && a.WellFormed() && b.WellFormed()
    requires text == a.Text() && text == b.Text()
    ensures a == b
  {
    assert text[0] == a.mark && text[0] == b.mark;
    if a.sign == [] {
      assert text[1] == a.digits[0];
    } else {
      assert text[1] == a.sign[0];
    }
    if b.sign == [] {
      assert text[1] == b.digits[0];
    } else {
      assert text[1] == b.sign[0];
    }
    assert a.digits == text[1 + |a.sign|..] && b.digits == text[1 + |b.sign|..];
  }

  /** A text denotes at most one pattern. */
  lemma DenotesUnique(text: seq<Byte>, bits: nat, bits': nat)
    requires Denotes(text, bits) && Denotes(text, bits')
    ensures bits == bits'
  {
    forall l, x | LiteralDenotes(l, text, x) ensures !IsSpecial(text) {
      LiteralIsNotSpecial(l);
    }
    assert |NAN_TEXT| == 3 && |INFINITY_TEXT| == 8;
    assert ([PLUS] + INFINITY_TEXT)[0] == PLUS && ([MINUS] + INFINITY_TEXT)[0] == MINUS;
    if !IsSpecial(text) {
      var l :| LiteralDenotes(l, text, bits);
      var l' :| LiteralDenotes(l', text, bits');
      LiteralUnique(l, l');
      LiteralDenotesUnique(l, text, bits, bits');
    }
  }

  predicate IsSpecial(text: seq<Byte>) {
    text == NAN_TEXT || text == INFINITY_TEXT || text == [PLUS] + INFINITY_TEXT || text == [MINUS] + INFINITY_TEXT
  }

  lemma LiteralDenotesUnique(l: Literal, text: seq<Byte>, bits: nat, bits': nat)
    requires LiteralDenotes(l, text, bits) && LiteralDenotes(l, text, bits')
    ensures bits == bits'
  {
    var m :| bits == Signed(Negative(l.sign), m) && DecimalRoundsTo(l.Coefficient(), l.Power10(), m);
    var m' :| bits' == Signed(Negative(l.sign), m') && DecimalRoundsTo(l.Coefficient(), l.Power10(), m');
    RoundsToUnique(l.Coefficient() * Pow(10, Up(l.Power10())), Pow(10, Up(-l.Power10())), m, m');
  }

  /** A literal has a digit in one of its first two places; the special names do not. */
  lemma LiteralIsNotSpecial(l: Literal)
    requires l.WellFormed()
    ensures !IsSpecial(l.Text())
  {
    hide Literal.Text;
    var text := l.Text();
    LiteralParts(l, text);
    assert ([PLUS] + INFINITY_TEXT)[1] == 0x49 && ([MINUS] + INFINITY_TEXT)[1] == 0x49;
  }
}
