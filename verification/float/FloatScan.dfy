/** The scanning loops of `emela_emb_float_parse`: digits with a decimal point, then an exponent. */
module FloatScan {
  import opened Powers
  import opened Limbs
  import opened BigNat
  import opened Magnitudes
  import opened DecimalText

  const LIMBS: nat := 120
  const DIGITS: nat := 800
  const EXPONENT_CLAMP: nat := 1000000

  function Min(a: nat, b: nat): nat {
    if a < b then a else b
  }

  // ---------- digits ----------

  /** The digits from the first nonzero one on. */
  function Significant(digits: seq<Byte>): (rest: seq<Byte>)
    ensures AllDigits(digits) ==> AllDigits(rest)
    ensures rest != [] ==> rest[0] != 0x30
  {
    if digits != [] && digits[0] == 0x30 then Significant(digits[1..]) else digits
  }

  lemma {:induction false} SignificantAppend(digits: seq<Byte>, b: Byte)
    ensures Significant(digits + [b]) == if Significant(digits) == [] && b == 0x30 then [] else Significant(digits) + [b]
  {
    if digits != [] {
      assert (digits + [b])[1..] == digits[1..] + [b];
      SignificantAppend(digits[1..], b);
    }
  }

  lemma NumberAppend(digits: seq<Byte>, b: Byte)
    requires AllDigits(digits) && IsDigit(b)
    ensures Number(digits + [b]) == Number(digits) * 10 + DigitValue(b)
  {
    assert (digits + [b])[..|digits|] == digits;
  }

  lemma {:induction false} SignificantNumber(digits: seq<Byte>)
    requires AllDigits(digits)
    ensures Number(Significant(digits)) == Number(digits)
  {
    if digits != [] {
      var shorter, b := digits[..|digits| - 1], digits[|digits| - 1];
      assert digits == shorter + [b];
      SignificantAppend(shorter, b);
      SignificantNumber(shorter);
      NumberAppend(shorter, b);
      NumberAppend(Significant(shorter), b);
    }
  }

  lemma {:induction false} NumberBound(digits: seq<Byte>)
    requires AllDigits(digits)
    ensures Number(digits) < Pow(10, |digits|)
    ensures digits != [] && digits[0] != 0x30 ==> Pow(10, |digits| - 1) <= Number(digits)
  {
    if |digits| > 1 {
      NumberBound(digits[..|digits| - 1]);
    } else if |digits| == 1 {
      assert digits[..0] == [];
    }
  }

  lemma {:induction false} NumberConcat(a: seq<Byte>, b: seq<Byte>)
    requires AllDigits(a) && AllDigits(b)
    ensures Number(a + b) == Number(a) * Pow(10, |b|) + Number(b)
  {
    if b == [] {
      assert a + b == a;
      PowZero(10);
    } else {
      var shorter, d := b[..|b| - 1], b[|b| - 1];
      assert a + b == (a + shorter) + [d];
      NumberConcat(a, shorter);
      NumberAppend(a + shorter, d);
      PowNext(Number(a), 10, |shorter|);
    }
  }

  /** What the digits `seen` so far have left in the counters: the first 800 significant digits make
      up `value`, and `sticky` says whether any later one is nonzero. */
  ghost predicate Digested(seen: seq<Byte>, significant: nat, kept: nat, value: nat, sticky: bool) {
    && AllDigits(seen) && significant == |Significant(seen)| && kept == Min(significant, DIGITS)
    && value == Number(Significant(seen)[..kept])
    && (sticky <==> Number(Significant(seen)[kept..]) > 0)
  }

  lemma DigestedNothing()
    ensures Digested([], 0, 0, 0, false)
  {
  }

  lemma DigestedLeadingZero(seen: seq<Byte>, kept: nat, value: nat, sticky: bool, b: Byte)
    requires Digested(seen, 0, kept, value, sticky) && b == 0x30
    ensures Digested(seen + [b], 0, kept, value, sticky)
  {
    SignificantAppend(seen, b);
  }

  lemma DigestedKept(seen: seq<Byte>, significant: nat, kept: nat, value: nat, sticky: bool, b: Byte)
    requires Digested(seen, significant, kept, value, sticky) && IsDigit(b) && kept < DIGITS
    requires significant > 0 || b != 0x30
    ensures Digested(seen + [b], significant + 1, kept + 1, value * 10 + DigitValue(b), sticky)
    ensures value * 10 + DigitValue(b) < Pow(10, kept + 1)
  {
    hide Pow;
    var s := Significant(seen);
    SignificantAppend(seen, b);
    NumberAppend(s, b);
    NumberBound(s + [b]);
    assert s[..kept] == s && (s + [b])[..kept + 1] == s + [b];
  }

  lemma DigestedDropped(seen: seq<Byte>, significant: nat, kept: nat, value: nat, sticky: bool, b: Byte)
    requires Digested(seen, significant, kept, value, sticky) && IsDigit(b) && kept == DIGITS
    ensures Digested(seen + [b], significant + 1, kept, value, sticky || b != 0x30)
  {
    var s := Significant(seen);
    SignificantAppend(seen, b);
    NumberAppend(s[kept..], b);
    assert (s + [b])[..kept] == s[..kept] && (s + [b])[kept..] == s[kept..] + [b];
  }

  /** 800 digits fit the workspace. */
  lemma DigitsFit(kept: nat)
    requires kept <= DIGITS
    ensures Pow(10, kept) < Pow(2, 2671) && Pow(2, 2671) <= Power(LIMBS)
  {
    hide Pow;
    PowMonotone(10, kept, DIGITS);
    TenBelowTwo(DIGITS);
    PowStrict(2, 2670, 2671);
    PowerBits(LIMBS);
    PowMonotone(2, 2671, 3840);
  }

  /** `text[start..index]` is `integer`, then perhaps a point and `fraction`. */
  ghost predicate Spelled(text: seq<Byte>, start: nat, index: nat, integer: seq<Byte>, afterPoint: bool, fraction: seq<Byte>) {
    && start <= index <= |text| && AllDigits(integer) && AllDigits(fraction) && (fraction != [] ==> afterPoint)
    && text[start..index] == integer + if afterPoint then [POINT] + fraction else []
  }

  lemma SpelledNext(text: seq<Byte>, start: nat, index: nat, integer: seq<Byte>, afterPoint: bool, fraction: seq<Byte>)
    requires Spelled(text, start, index, integer, afterPoint, fraction) && index < |text|
    ensures IsDigit(text[index]) && afterPoint ==> Spelled(text, start, index + 1, integer, true, fraction + [text[index]])
    ensures IsDigit(text[index]) && !afterPoint ==> Spelled(text, start, index + 1, integer + [text[index]], false, [])
    ensures text[index] == POINT && !afterPoint ==> Spelled(text, start, index + 1, integer, true, [])
  {
    assert text[start..index + 1] == text[start..index] + [text[index]];
    assert integer + ([POINT] + fraction) + [text[index]] == integer + ([POINT] + (fraction + [text[index]]));
    assert integer + [POINT] == integer + ([POINT] + []);
  }

  lemma SpelledNothing(text: seq<Byte>, start: nat)
    requires start <= |text|
    ensures Spelled(text, start, start, [], false, [])
  {
  }

  lemma SpelledBeforePoint(text: seq<Byte>, start: nat, index: nat, integer: seq<Byte>, fraction: seq<Byte>)
    requires Spelled(text, start, index, integer, false, fraction)
    ensures fraction == []
  {
  }

  lemma DigestedLimits(seen: seq<Byte>, significant: nat, kept: nat, value: nat, sticky: bool)
    requires Digested(seen, significant, kept, value, sticky)
    ensures kept == Min(significant, DIGITS) && AllDigits(seen)
  {
  }

  /** The scanned parts are the longest runs of digits there. */
  lemma SpelledRuns(text: seq<Byte>, start: nat, index: nat, integer: seq<Byte>, afterPoint: bool, fraction: seq<Byte>)
    requires Spelled(text, start, index, integer, afterPoint, fraction)
    requires index < |text| ==> !IsDigit(text[index]) && (text[index] == POINT ==> afterPoint)
    ensures LongestRun(text, start, integer)
    ensures start + |integer| <= |text|
    ensures afterPoint <==> start + |integer| < |text| && text[start + |integer|] == POINT
    ensures afterPoint ==> LongestRun(text, start + |integer| + 1, fraction)
    ensures index == start + |integer| + if afterPoint then 1 + |fraction| else 0
  {
    forall j | start <= j < index ensures text[j] == (integer + if afterPoint then [POINT] + fraction else [])[j - start] {
      assert text[j] == text[start..index][j - start];
    }
  }

  /** The scan stops where every literal with this text has its exponent or its end. */
  lemma SpelledIsLiteral(text: seq<Byte>, start: nat, index: nat, integer: seq<Byte>, afterPoint: bool, fraction: seq<Byte>, l: Literal)
    requires Spelled(text, start, index, integer, afterPoint, fraction)
    requires index < |text| ==> !IsDigit(text[index]) && (text[index] == POINT ==> afterPoint)
    requires start == (if text != [] && IsSign(text[0]) then 1 else 0)
    requires l.WellFormed() && l.Text() == text
    ensures integer != [] && l.integer == integer && (l.fraction.Digits? <==> afterPoint) && (afterPoint ==> fraction != [])
    ensures l.exponent.Text() == text[index..]
  {
    hide Literal.Text, LongestRun, Spelled, Exponent.Text;
    LiteralParts(l, text);
    assert |l.sign| == start;
    SpelledRuns(text, start, index, integer, afterPoint, fraction);
    LongestRunUnique(text, start, integer, l.integer);
    if afterPoint {
      LongestRunUnique(text, start + |integer| + 1, fraction, l.fraction.digits);
    }
  }

  datatype Scan = Scan(significantDigits: nat, keptDigits: nat, fractionDigits: nat, seenNonzero: bool, sticky: bool,
                       sawIntegerDigit: bool, sawFractionDigit: bool, afterDecimalPoint: bool)

  ghost predicate Scanned(scan: Scan, value: nat, integer: seq<Byte>, fraction: seq<Byte>) {
    && Digested(integer + fraction, scan.significantDigits, scan.keptDigits, value, scan.sticky)
    && scan.fractionDigits == |fraction|
    && (scan.seenNonzero <==> scan.significantDigits > 0)
    && (scan.sawIntegerDigit <==> integer != []) && (scan.sawFractionDigit <==> fraction != [])
  }

  /** The digit loop. */
  method ScanDigits(text: seq<Byte>, start: nat, numerator: Big)
    returns (index: nat, scan: Scan, ghost integer: seq<Byte>, ghost fraction: seq<Byte>)
    requires start <= |text| && numerator.Valid() && numerator.words.Length == LIMBS && numerator.Val() == 0
    modifies numerator, numerator.words
    ensures index <= |text| && numerator.Valid() && Scanned(scan, numerator.Val(), integer, fraction)
    ensures Spelled(text, start, index, integer, scan.afterDecimalPoint, fraction)
    ensures index < |text| ==> !IsDigit(text[index]) && (text[index] == POINT ==> scan.afterDecimalPoint)
  {
    hide Pow, Digested, Number, Significant, Spelled, Limbs.Value;
    index := start;
    integer, fraction := [], [];
    scan := Scan(0, 0, 0, false, false, false, false, false);
    DigestedNothing();
    SpelledNothing(text, start);
    while index < |text|
      invariant index <= |text| && numerator.Valid() && Scanned(scan, numerator.Val(), integer, fraction)
      invariant Spelled(text, start, index, integer, scan.afterDecimalPoint, fraction)
    {
      var byte := text[index];
      SpelledNext(text, start, index, integer, scan.afterDecimalPoint, fraction);
      if IsDigit(byte) {
        ghost var seen := integer + fraction;
        if scan.afterDecimalPoint {
          scan := scan.(sawFractionDigit := true, fractionDigits := scan.fractionDigits + 1);
          fraction := fraction + [byte];
        } else {
          SpelledBeforePoint(text, start, index, integer, fraction);
          scan := scan.(sawIntegerDigit := true);
          integer := integer + [byte];
        }
        assert integer + fraction == seen + [byte];
        var digit := DigitValue(byte);
        if scan.seenNonzero || digit != 0 {
          scan := TakeDigit(scan, numerator, byte, seen);
        } else {
          DigestedLeadingZero(seen, scan.keptDigits, numerator.Val(), scan.sticky, byte);
        }
        index := index + 1;
      } else if byte == POINT && !scan.afterDecimalPoint {
        SpelledBeforePoint(text, start, index, integer, fraction);
        scan := scan.(afterDecimalPoint := true);
        index := index + 1;
      } else {
        break;
      }
    }
  }

  /** A significant digit is kept, or only remembered when it is nonzero. */
  method TakeDigit(scan: Scan, numerator: Big, byte: Byte, ghost seen: seq<Byte>) returns (next: Scan)
    requires numerator.Valid() && numerator.words.Length == LIMBS && IsDigit(byte)
    requires Digested(seen, scan.significantDigits, scan.keptDigits, numerator.Val(), scan.sticky)
    requires scan.significantDigits > 0 || byte != 0x30
    modifies numerator, numerator.words
    ensures numerator.Valid()
    ensures Digested(seen + [byte], next.significantDigits, next.keptDigits, numerator.Val(), next.sticky)
    ensures next == scan.(seenNonzero := true, significantDigits := scan.significantDigits + 1,
                          keptDigits := next.keptDigits, sticky := next.sticky)
  {
    hide Pow, Digested, Number, Significant, Limbs.Value;
    next := scan.(seenNonzero := true, significantDigits := scan.significantDigits + 1);
    DigestedLimits(seen, scan.significantDigits, scan.keptDigits, numerator.Val(), scan.sticky);
    if scan.keptDigits < DIGITS {
      DigestedKept(seen, scan.significantDigits, scan.keptDigits, numerator.Val(), scan.sticky, byte);
      DigitsFit(scan.keptDigits + 1);
      var fits := numerator.MultiplySmall(10);
      assert fits;
      fits := numerator.AddSmall(DigitValue(byte));
      assert fits;
      next := next.(keptDigits := scan.keptDigits + 1);
    } else {
      DigestedDropped(seen, scan.significantDigits, scan.keptDigits, numerator.Val(), scan.sticky, byte);
      if byte != 0x30 {
        next := next.(sticky := true);
      }
    }
  }

  // ---------- exponent ----------

  /** Where the parts of an exponent stand in its text. */
  lemma ExponentParts(e: Exponent, rest: seq<Byte>)
    requires e.WellFormed() && e.Text() == rest && rest != []
    ensures IsExponentMark(rest[0])
    ensures var k := if |rest| > 1 && IsSign(rest[1]) then 2 else 1;
            k < |rest| && AllDigits(rest[k..])
  {
    assert rest[0] == e.mark;
    if e.sign == [] {
      assert rest[1] == e.digits[0] && rest[1..] == e.digits;
    } else {
      assert rest[1] == e.sign[0] && rest[2..] == e.digits;
    }
  }

  /** The exponent loop and the check that nothing follows: `text[start..]` must be an exponent or
      empty.  The magnitude stops growing at a million. */
  method ScanExponent(text: seq<Byte>, start: nat)
    returns (ok: bool, negative: bool, magnitude: nat, ghost exponent: Exponent)
    requires start <= |text|
    ensures ok ==> exponent.WellFormed() && exponent.Text() == text[start..]
    ensures ok ==> (negative <==> exponent.Scientific? && Negative(exponent.sign))
    ensures ok ==> magnitude == if exponent.Scientific? then Min(Number(exponent.digits), EXPONENT_CLAMP) else 0
    ensures !ok ==> forall e: Exponent :: e.WellFormed() ==> e.Text() != text[start..]
  {
    ghost var rest := text[start..];
    forall e: Exponent | e.WellFormed() && e.Text() == rest && rest != []
      ensures IsExponentMark(rest[0]) &&
              var k := if |rest| > 1 && IsSign(rest[1]) then 2 else 1;
              k < |rest| && AllDigits(rest[k..])
    {
      ExponentParts(e, rest);
    }
    negative, magnitude, exponent := false, 0, NoExponent;
    var index := start;
    if index < |text| && IsExponentMark(text[index]) {
      index := index + 1;
      if index < |text| && IsSign(text[index]) {
        negative := text[index] == MINUS;
        index := index + 1;
      }
      var exponentStart := index;
      index, magnitude := ScanMagnitude(text, exponentStart);
      exponent := Scientific(text[start], text[start + 1..exponentStart], text[exponentStart..index]);
      assert index == |text| ==> rest == exponent.Text();
      assert rest[exponentStart - start..] == text[exponentStart..];
      if index == exponentStart {
        return false, negative, magnitude, exponent;
      }
    }
    ok := index == |text|;
  }

  method ScanMagnitude(text: seq<Byte>, start: nat) returns (index: nat, magnitude: nat)
    requires start <= |text|
    ensures start <= index <= |text| && AllDigits(text[start..index])
    ensures index < |text| ==> !IsDigit(text[index])
    ensures magnitude == Min(Number(text[start..index]), EXPONENT_CLAMP)
  {
    index, magnitude := start, 0;
    while index < |text|
      invariant start <= index <= |text| && AllDigits(text[start..index])
      invariant magnitude == Min(Number(text[start..index]), EXPONENT_CLAMP)
    {
      var byte := text[index];
      if !IsDigit(byte) {
        break;
      }
      assert text[start..index + 1] == text[start..index] + [byte];
      NumberAppend(text[start..index], byte);
      if magnitude < EXPONENT_CLAMP {
        magnitude := magnitude * 10 + DigitValue(byte);
        if magnitude > EXPONENT_CLAMP {
          magnitude := EXPONENT_CLAMP;
        }
      }
      index := index + 1;
    }
  }
}
