/** `emela_emb_float_to_string`: a binary64 as text that parses back to it. */
module FloatFormat {
  import opened Powers
  import opened Binary64
  import opened Magnitudes
  import opened Interval
  import opened DecimalText
  import opened FloatDigits
  import opened FloatLayout
  import opened TidyText
  import FloatParse

  const MAX_OUTPUT_BYTES: nat := 25

  /** The buffer the text goes to.  The runtime stops at the first byte that does not fit; here
      `defect` is set and later bytes change nothing but `requested`. */
  class Output {
    const buffer: array?<Byte>
    const capacity: nat
    var length: nat
    var defect: bool
    ghost var requested: seq<Byte>

    ghost predicate Valid()
      reads this, buffer
    {
      && (buffer != null ==> capacity <= buffer.Length) && length == (if defect then Room() else |requested|)
      && (defect <==> Room() < |requested|) && (buffer != null ==> buffer[..length] == requested[..length])
    }

    /** How many bytes can be put. */
    function Room(): nat {
      if buffer == null then 0 else capacity
    }

    constructor (buffer: array?<Byte>, capacity: nat)
      requires buffer != null ==> capacity <= buffer.Length
      ensures Valid() && requested == [] && this.buffer == buffer && this.capacity == capacity
    {
      this.buffer, this.capacity := buffer, capacity;
      length, defect, requested := 0, false, [];
    }

    method Put(value: Byte)
      requires Valid()
      modifies this, buffer
      ensures Valid() && requested == old(requested) + [value]
    {
      requested := requested + [value];
      if defect || buffer == null || length >= capacity {
        defect := true;
      } else {
        buffer[length] := value;
        length := length + 1;
      }
    }

    method PutText(text: seq<Byte>)
      requires Valid()
      modifies this, buffer
      ensures Valid() && requested == old(requested) + text
    {
      for index := 0 to |text|
        invariant Valid() && requested == old(requested) + text[..index]
      {
        Put(text[index]);
      }
    }

    method PutZeros(count: nat)
      requires Valid()
      modifies this, buffer
      ensures Valid() && requested == old(requested) + Zeros(count)
    {
      for index := 0 to count
        invariant Valid() && requested == old(requested) + Zeros(index)
      {
        Put(ZERO);
      }
    }
  }

  // ---------- digits ----------

  function Backwards(s: seq<Byte>): (r: seq<Byte>) {
    seq(|s|, i requires 0 <= i < |s| => s[|s| - 1 - i])
  }

  lemma BackwardsAppend(s: seq<Byte>, d: Byte)
    ensures Backwards(s + [d]) == [d] + Backwards(s)
  {
  }

  /** Writes the digits lowest first. */
  method LowDigits(value: nat, digits: array<Byte>) returns (count: nat)
    requires |DigitsOf(value)| <= digits.Length
    modifies digits
    ensures 0 < count <= digits.Length && Backwards(digits[..count]) == DigitsOf(value)
  {
    var rest := value;
    var more := true;
    count := 0;
    while more
      invariant count <= digits.Length && (more <==> rest != 0 || count == 0)
      invariant DigitsOf(value) == (if more then DigitsOf(rest) else []) + Backwards(digits[..count])
      decreases if more then rest + 1 else 0
    {
      ghost var before := digits[..count];
      digits[count] := ZERO + rest % 10;
      assert digits[..count + 1] == before + [ZERO + rest % 10];
      BackwardsAppend(before, ZERO + rest % 10);
      count := count + 1;
      rest := rest / 10;
      more := rest != 0;
    }
  }

  method ReverseDigits(digits: array<Byte>, count: nat)
    requires count <= digits.Length
    modifies digits
    ensures digits[..count] == Backwards(old(digits[..count]))
  {
    ghost var before := digits[..count];
    var index := 0;
    while index < count / 2
      invariant 0 <= index <= count / 2
      invariant forall i :: index <= i < count - index ==> digits[i] == before[i]
      invariant forall i :: 0 <= i < index ==> digits[i] == before[count - 1 - i] && digits[count - 1 - i] == before[i]
    {
      digits[index], digits[count - 1 - index] := digits[count - 1 - index], digits[index];
      index := index + 1;
    }
  }

  /** Drops trailing zeros into the exponent. */
  method StripZeros(decimal: nat, decimalExponent: int) returns (stripped: nat, exponent: int, ghost zeros: nat)
    requires 0 < decimal
    ensures 0 < stripped && stripped % 10 != 0 && decimal == stripped * Pow(10, zeros) && exponent == decimalExponent + zeros
  {
    hide Pow;
    stripped, exponent, zeros := decimal, decimalExponent, 0;
    PowZero(10);
    while stripped > 0 && stripped % 10 == 0
      invariant 0 < stripped && decimal == stripped * Pow(10, zeros) && exponent == decimalExponent + zeros
    {
      PowNext(1, 10, zeros);
      MulAssociate(stripped / 10, 10, Pow(10, zeros));
      stripped := stripped / 10;
      exponent := exponent + 1;
      zeros := zeros + 1;
    }
  }

  // ---------- what is printed ----------

  function Magnitude(bits: nat): nat {
    bits % SIGN
  }

  function SignText(bits: nat): seq<Byte> {
    if bits / SIGN == 0 then [] else [MINUS]
  }

  /** Reading a text cannot tell the NaN patterns apart, and negative zero is printed like zero. */
  function Canonical(bits: nat): nat {
    if Magnitude(bits) > INFINITY then NAN else if Magnitude(bits) == 0 then 0 else bits
  }

  /** The digits come from the search, without trailing zeros; `position` is that of the point. */
  ghost predicate Shown(m: nat, digits: seq<Byte>, position: int, order: int, count: nat, decimal: nat, zeros: nat) {
    && Found(m, order, count, decimal)
    && AllDigits(digits) && 0 < |digits| <= count && digits[0] != ZERO && digits[|digits| - 1] != ZERO
    && decimal == Number(digits) * Pow(10, zeros)
    && position == |digits| + order - count + 1 + zeros
  }

  lemma StrippedDigits(m: nat, order: int, count: nat, decimal: nat, stripped: nat, zeros: nat)
    requires Found(m, order, count, decimal) && decimal == stripped * Pow(10, zeros) && stripped % 10 != 0
    ensures var digits := DigitsOf(stripped);
            Shown(m, digits, |digits| + order - count + 1 + zeros, order, count, decimal, zeros)
    ensures zeros <= 17
  {
    hide Pow, Found, Number;
    DigitsOfNumber(stripped);
    LastDigit(stripped);
    FoundRange(m, order, count, decimal);
    StrippedBound(count, stripped, zeros);
    DigitCount(stripped, count);
  }

  lemma StrippedBound(count: nat, stripped: nat, zeros: nat)
    requires stripped * Pow(10, zeros) <= Pow(10, count) && stripped % 10 != 0 && 1 <= count
    ensures stripped < Pow(10, count) && zeros <= count
  {
    hide Pow;
    PowPositive(10, zeros);
    ProductAtLeast(stripped, Pow(10, zeros), Pow(10, count));
    if zeros > count {
      PowStrict(10, count, zeros);
    }
    PowNext(1, 10, count - 1);
    NotTenTimes(stripped, Pow(10, count - 1));
  }

  lemma ProductAtLeast(a: nat, b: nat, bound: nat)
    requires 0 < a && 0 < b && a * b <= bound
    ensures a <= bound && b <= bound
  {
    MulMonotone(1, b, a);
    MulMonotone(1, a, b);
  }

  lemma NotTenTimes(a: nat, b: nat)
    requires a % 10 != 0
    ensures a != 10 * b
  {
  }

  lemma FoundRange(m: nat, order: int, count: nat, decimal: nat)
    requires Found(m, order, count, decimal)
    ensures 0 < decimal <= Pow(10, count) && 1 <= count <= 17
  {
    CandidateRange(m, order, count, decimal);
  }

  lemma LastDigit(value: nat)
    requires value % 10 != 0
    ensures var digits := DigitsOf(value); digits[|digits| - 1] != ZERO
  {
  }

  /** What is printed rounds to the value. */
  lemma ShownRoundsBack(m: nat, digits: seq<Byte>, position: int, order: int, count: nat, decimal: nat, zeros: nat)
    requires Finite(m) && Shown(m, digits, position, order, count, decimal, zeros)
    ensures DecimalRoundsTo(Number(digits), position - |digits|, m)
  {
    hide Pow, Number, DecimalRoundsTo, Candidate;
    SameDecimal(Number(digits), order - count + 1, zeros, m);
  }

  /** Away from powers of two no decimal with fewer digits rounds to the value. */
  lemma ShownIsShortest(m: nat, digits: seq<Byte>, position: int, order: int, count: nat, decimal: nat, zeros: nat)
    requires Finite(m) && !Lopsided(m) && Shown(m, digits, position, order, count, decimal, zeros)
    ensures Shortest(m, |digits|)
  {
    hide Pow, Number, DecimalRoundsTo, Candidate, EnoughDigits;
    SymmetricIsShortest(m, order, count, decimal);
  }

  lemma ZeroDenotes()
    ensures Denotes([ZERO, POINT, ZERO], 0)
  {
    hide DecimalRoundsTo;
    var l := Literal([], [ZERO], Digits([ZERO]), NoExponent);
    assert l.integer + l.FractionDigits() == Zeros(2);
    ZerosNumber(2);
    FloatParse.ZeroIsZero(-1);
    assert l.Text() == [ZERO, POINT, ZERO];
    FloatParse.DenotesFinite(l, [ZERO, POINT, ZERO], 0);
  }

  lemma FiniteDenotes(bits: nat, digits: seq<Byte>, position: int)
    requires bits < 2 * SIGN && Finite(Magnitude(bits)) && AllDigits(digits) && digits != []
    requires DecimalRoundsTo(Number(digits), position - |digits|, Magnitude(bits))
    ensures Denotes(SignText(bits) + Layout(digits, position), bits)
  {
    hide Number, Layout, LayoutLiteral, Literal.Text, Literal.WellFormed, Literal.Coefficient, Literal.Power10, DecimalRoundsTo, Denotes,
      SignText, Signed, Negative, Magnitude;
    var sign := SignText(bits);
    SignedAgain(bits);
    LayoutWellFormed(sign, digits, position);
    LayoutSpells(sign, digits, position);
    LayoutDenotes(sign, digits, position, Magnitude(bits));
    FloatParse.DenotesFinite(LayoutLiteral(sign, digits, position), sign + Layout(digits, position), Magnitude(bits));
  }

  lemma SignedAgain(bits: nat)
    requires bits < 2 * SIGN
    ensures OptionalSign(SignText(bits)) && bits == Signed(Negative(SignText(bits)), Magnitude(bits))
  {
    assert bits == SIGN * (bits / SIGN) + bits % SIGN;
  }

  // ---------- the conversion ----------

  /** The layout branches. */
  method PutLayout(output: Output, digits: array<Byte>, count: nat, position: int)
    requires output.Valid() && 0 < count <= digits.Length && digits != output.buffer
    requires -999 < position <= 1000
    modifies output, output.buffer
    ensures output.Valid() && output.requested == old(output.requested) + Layout(digits[..count], position)
    ensures Bare(digits[..count]) ==> PrintedAs(Layout(digits[..count], position), [], digits[..count], position)
  {
    hide Layout, Bare, PrintedAs;
    NoSign(digits[..count], position);
    if count <= position <= 21 {
      PutInteger(output, digits, count, position);
    } else if 0 < position <= 21 {
      PutDecimal(output, digits, count, position);
    } else if -6 < position <= 0 {
      PutFraction(output, digits, count, position);
    } else {
      PutScientific(output, digits, count, position);
    }
  }

  lemma NoSign(digits: seq<Byte>, position: int)
    ensures Bare(digits) ==> PrintedAs(Layout(digits, position), [], digits, position)
  {
    if Bare(digits) {
      LayoutPrintedAs([], digits, position);
      assert [] + Layout(digits, position) == Layout(digits, position);
    }
  }

  lemma AppendThree(before: seq<Byte>, a: seq<Byte>, b: seq<Byte>, c: seq<Byte>)
    ensures before + a + b + c == before + (a + b + c)
  {
  }

  method PutInteger(output: Output, digits: array<Byte>, count: nat, position: int)
    requires output.Valid() && 0 < count <= digits.Length && digits != output.buffer
    requires count <= position <= 21
    modifies output, output.buffer
    ensures output.Valid() && output.requested == old(output.requested) + Layout(digits[..count], position)
  {
    hide Zeros;
    AppendThree(output.requested, digits[..count], Zeros(position - count), [POINT, ZERO]);
    output.PutText(digits[..count]);
    output.PutZeros(position - count);
    output.PutText([POINT, ZERO]);
  }

  method PutDecimal(output: Output, digits: array<Byte>, count: nat, position: int)
    requires output.Valid() && 0 < count <= digits.Length && digits != output.buffer
    requires 0 < position < count && position <= 21
    modifies output, output.buffer
    ensures output.Valid() && output.requested == old(output.requested) + Layout(digits[..count], position)
  {
    hide Zeros;
    ghost var all := digits[..count];
    AppendThree(output.requested, all[..position], [POINT], all[position..]);
    assert digits[..position] == all[..position] && digits[position..count] == all[position..];
    output.PutText(digits[..position]);
    output.Put(POINT);
    output.PutText(digits[position..count]);
  }

  method PutFraction(output: Output, digits: array<Byte>, count: nat, position: int)
    requires output.Valid() && 0 < count <= digits.Length && digits != output.buffer
    requires -6 < position <= 0
    modifies output, output.buffer
    ensures output.Valid() && output.requested == old(output.requested) + Layout(digits[..count], position)
  {
    hide Zeros;
    AppendThree(output.requested, [ZERO, POINT], Zeros(-position), digits[..count]);
    output.PutText([ZERO, POINT]);
    output.PutZeros(-position);
    output.PutText(digits[..count]);
  }

  method PutScientific(output: Output, digits: array<Byte>, count: nat, position: int)
    requires output.Valid() && 0 < count <= digits.Length && digits != output.buffer
    requires -999 < position <= 1000 && !(-6 < position <= 21)
    modifies output, output.buffer
    ensures output.Valid() && output.requested == old(output.requested) + Layout(digits[..count], position)
  {
    ghost var before, all := output.requested, digits[..count];
    ghost var fractionText := if count > 1 then [POINT] + all[1..] else [];
    output.Put(digits[0]);
    if count > 1 {
      output.Put(POINT);
      output.PutText(digits[1..count]);
      assert digits[1..count] == all[1..];
    }
    assert output.requested == before + ([all[0]] + fractionText);
    var exponent := position - 1;
    PutExponent(output, exponent);
    ScientificPieces(before, [all[0]] + fractionText, exponent);
  }

  function ExponentSuffix(exponent: int): seq<Byte> {
    [0x65, if exponent < 0 then MINUS else PLUS] + DigitsOf(if exponent < 0 then -exponent else exponent)
  }

  lemma ScientificPieces(before: seq<Byte>, body: seq<Byte>, exponent: int)
    ensures before + body + ExponentSuffix(exponent) ==
            before + (body + [0x65, if exponent < 0 then MINUS else PLUS] + DigitsOf(if exponent < 0 then -exponent else exponent))
  {
  }

  method PutExponent(output: Output, exponent: int)
    requires output.Valid() && -1000 < exponent < 1000
    modifies output, output.buffer
    ensures output.Valid() && output.requested == old(output.requested) + ExponentSuffix(exponent)
  {
    output.Put(0x65);
    output.Put(if exponent < 0 then MINUS else PLUS);
    var magnitude := if exponent < 0 then -exponent else exponent;
    ExponentLength(magnitude);
    var exponentDigits := new Byte[4];
    var exponentCount := LowDigits(magnitude, exponentDigits);
    PutBackwards(output, exponentDigits, exponentCount);
    assert old(output.requested) + ExponentSuffix(exponent) ==
           old(output.requested) + [0x65] + [if exponent < 0 then MINUS else PLUS] + DigitsOf(magnitude);
  }

  lemma ExponentLength(magnitude: nat)
    requires magnitude < 1000
    ensures |DigitsOf(magnitude)| <= 3
  {
    SmallPowers();
    DigitCount(magnitude, 3);
  }

  method PutBackwards(output: Output, digits: array<Byte>, count: nat)
    requires output.Valid() && count <= digits.Length && digits != output.buffer
    modifies output, output.buffer
    ensures output.Valid() && output.requested == old(output.requested) + Backwards(digits[..count])
  {
    ghost var low := digits[..count];
    var left := count;
    while left > 0
      invariant 0 <= left <= count && digits[..count] == low && output.Valid()
      invariant output.requested == old(output.requested) + Backwards(low)[..count - left]
    {
      left := left - 1;
      assert Backwards(low)[count - left - 1] == low[left] == digits[left];
      output.Put(digits[left]);
    }
  }

  /** A finite nonzero value: digits, then layout. */
  method PutFinite(bits: nat, output: Output)
    returns (ghost digits: seq<Byte>, ghost position: int, ghost order: int, ghost count: nat, ghost decimal: nat, ghost zeros: nat)
    requires bits < 2 * SIGN && Finite(Magnitude(bits)) && output.Valid() && output.requested == []
    modifies output, output.buffer
    ensures output.Valid() && Shown(Magnitude(bits), digits, position, order, count, decimal, zeros)
    ensures output.requested == SignText(bits) + Layout(digits, position) && PrintedAs(output.requested, SignText(bits), digits, position)
    ensures |output.requested| <= MAX_OUTPUT_BYTES
  {
    hide Pow, Found, Number, Layout, Shown, DigitsOf, PrintedAs, Bare;
    if bits / SIGN != 0 {
      output.Put(MINUS);
    }
    assert output.requested == SignText(bits);
    var m := Magnitude(bits);
    var candidate, candidateExponent;
    candidate, candidateExponent, order, count := FindDigits(m);
    decimal := candidate;
    FoundRange(m, order, count, decimal);
    FoundOrder(m, order, count, decimal);
    var stripped, exponent;
    stripped, exponent, zeros := StripZeros(candidate, candidateExponent);
    StrippedDigits(m, order, count, decimal, stripped, zeros);
    digits := DigitsOf(stripped);
    position := |digits| + order - count + 1 + zeros;
    ShownLength(m, digits, position, order, count, decimal, zeros);
    LayoutLength(SignText(bits), digits, position);
    var text := new Byte[20];
    var digitCount := LowDigits(stripped, text);
    ReverseDigits(text, digitCount);
    assert text[..digitCount] == digits;
    PutLayout(output, text, digitCount, digitCount + exponent);
    ShownBare(m, digits, position, order, count, decimal, zeros);
    SignedAgain(bits);
    LayoutPrintedAs(SignText(bits), digits, position);
  }

  lemma ShownBare(m: nat, digits: seq<Byte>, position: int, order: int, count: nat, decimal: nat, zeros: nat)
    requires Shown(m, digits, position, order, count, decimal, zeros)
    ensures Bare(digits)
  {
  }

  lemma FoundOrder(m: nat, order: int, count: nat, decimal: nat)
    requires Found(m, order, count, decimal)
    ensures -325 <= order <= 308
  {
  }

  lemma ShownLength(m: nat, digits: seq<Byte>, position: int, order: int, count: nat, decimal: nat, zeros: nat)
    requires Shown(m, digits, position, order, count, decimal, zeros)
    ensures AllDigits(digits) && 0 < |digits| <= count
  {
  }

  /** Prints at most 25 bytes, which denote the value. */
  method ToString(bits: nat, output: Output)
    returns (ghost digits: seq<Byte>, ghost position: int, ghost order: int, ghost count: nat, ghost decimal: nat, ghost zeros: nat)
    requires bits < 2 * SIGN && output.Valid() && output.requested == []
    modifies output, output.buffer
    ensures output.Valid() && |output.requested| <= MAX_OUTPUT_BYTES
    ensures Denotes(output.requested, Canonical(bits))
    ensures Magnitude(bits) > INFINITY ==> output.requested == NAN_TEXT
    ensures Magnitude(bits) == INFINITY ==> output.requested == SignText(bits) + INFINITY_TEXT
    ensures Magnitude(bits) == 0 ==> output.requested == [ZERO, POINT, ZERO]
    ensures Finite(Magnitude(bits)) ==>
              Shown(Magnitude(bits), digits, position, order, count, decimal, zeros) &&
              PrintedAs(output.requested, SignText(bits), digits, position)
  {
    hide Pow, Number, Layout, Shown, DecimalRoundsTo, PrintedAs;
    var m := Magnitude(bits);
    digits, position, order, count, decimal, zeros := [ZERO], 0, 0, 0, 0, 0;
    var exponentBits, fraction := m / HIDDEN, m % HIDDEN;
    assert m == HIDDEN * exponentBits + fraction;
    if exponentBits == 0x7ff {
      if fraction != 0 {
        output.PutText(NAN_TEXT);
      } else if bits / SIGN != 0 {
        output.PutText([MINUS] + INFINITY_TEXT);
      } else {
        output.PutText(INFINITY_TEXT);
      }
      return;
    }
    if Mantissa(m) == 0 {
      output.PutText([ZERO, POINT, ZERO]);
      assert output.requested == [ZERO, POINT, ZERO] && m == 0;
      ZeroDenotes();
      return;
    }
    digits, position, order, count, decimal, zeros := PutFinite(bits, output);
    ShownLength(m, digits, position, order, count, decimal, zeros);
    ShownRoundsBack(m, digits, position, order, count, decimal, zeros);
    FiniteDenotes(bits, digits, position);
  }

  /** Printing and parsing gives back the same bits, except that every NaN becomes the one NaN and
      negative zero becomes zero. */
  method RoundTrip(bits: nat) returns (ok: bool, parsed: nat)
    requires bits < 2 * SIGN
    ensures ok && parsed == Canonical(bits)
  {
    var buffer := new Byte[MAX_OUTPUT_BYTES];
    var output := new Output(buffer, MAX_OUTPUT_BYTES);
    var _, _, _, _, _, _ := ToString(bits, output);
    ok, parsed := FloatParse.Parse(output.buffer[..output.length]);
    assert output.buffer[..output.length] == output.requested;
    DenotesUnique(output.requested, Canonical(bits), if ok then parsed else Canonical(bits));
  }
}
