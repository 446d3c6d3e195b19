/** The fixed-capacity natural numbers both float conversions work on, limbs changed in place. */
module BigNat {
  import opened Powers
  import opened Limbs

  /** Halfway through a loop over the limbs: `now` is what is done and the limbs left, and what is done with
      `rest` behind it will be `target`. */
  ghost predicate Halfway(now: seq<Word>, limbs: seq<Word>, index: nat, rest: seq<Word>, target: seq<Word>) {
    |now| == |limbs| && index <= |limbs| && now[index..] == limbs[index..] && now[..index] + rest == target
  }

  lemma HalfwayStarts(limbs: seq<Word>, target: seq<Word>)
    ensures limbs[0..] == limbs && Halfway(limbs, limbs, 0, target, target)
  {
  }

  lemma HalfwayNext(now: seq<Word>, limbs: seq<Word>, index: nat, rest: seq<Word>, word: Word, rest': seq<Word>, target: seq<Word>)
    requires Halfway(now, limbs, index, rest, target) && index < |limbs| && rest == [word] + rest'
    ensures now[index] == limbs[index] && Halfway(now[index := word], limbs, index + 1, rest', target)
  {
    assert now[index..][0] == limbs[index..][0] && now[index..][1..] == limbs[index..][1..];
    assert now[index := word][..index + 1] == now[..index] + [word];
    assert now[..index] + ([word] + rest') == now[..index] + [word] + rest';
  }

  lemma HalfwayReads(now: seq<Word>, limbs: seq<Word>, index: nat, rest: seq<Word>, target: seq<Word>)
    requires Halfway(now, limbs, index, rest, target) && index < |limbs|
    ensures now[index] == limbs[index]
  {
    assert now[index..][0] == limbs[index..][0];
  }

  lemma HalfwayEnds(now: seq<Word>, limbs: seq<Word>, index: nat, rest: seq<Word>, carry: seq<Word>, target: seq<Word>)
    requires Halfway(now, limbs, index, rest, target) && rest == limbs[index..] + carry
    ensures now + carry == target
  {
    assert now == now[..index] + now[index..];
    assert now[..index] + (now[index..] + carry) == now[..index] + now[index..] + carry;
  }

  class Big {
    const words: array<Word>
    var length: nat

    ghost predicate Valid()
      reads this, words
    {
      length <= words.Length && Normal(words[..length])
    }

    ghost function Val(): nat
      reads this, words
      requires Valid()
    {
      Value(words[..length])
    }

    constructor (capacity: nat, integer: nat)
      requires 2 <= capacity && integer < BASE * BASE
      ensures Valid() && fresh(words) && words.Length == capacity && Val() == integer
    {
      words := new Word[capacity](_ => 0);
      length := 0;
      new;
      words[0] := integer % BASE;
      words[1] := integer / BASE;
      length := if words[1] != 0 then 2 else if words[0] != 0 then 1 else 0;
      assert words[..2] == [words[0], words[1]] && words[..1] == [words[0]];
      ValueTwo(words[0], words[1]);
    }

    /** Multiplies in place; fails exactly when the product needs more limbs than there are.  Zero times the
        number keeps its limbs, all zero. */
    method MultiplySmall(multiplier: Word) returns (ok: bool)
      requires Valid()
      modifies this, words
      ensures ok <==> old(Val()) * multiplier < Power(words.Length)
      ensures ok ==> length <= words.Length && Value(words[..length]) == old(Val()) * multiplier && (multiplier > 0 ==> Valid())
    {
      hide Powers.Pow, Limbs.Value, Limbs.Low32, Limbs.High32, Limbs.Product, Limbs.Times, Limbs.Normal, Limbs.Power, Halfway;
      ghost var limbs := words[..length];
      ghost var target := Times(limbs, multiplier, 0);
      TimesValue(limbs, multiplier, 0);
      if multiplier > 0 {
        TimesNormal(limbs, multiplier, 0);
        NormalLength(target, words.Length);
      } else {
        TimesZero(limbs);
        PowerPositive(words.Length);
      }
      var carry: nat := 0;
      var index := 0;
      HalfwayStarts(limbs, target);
      while index < length
        invariant 0 <= index <= length == |limbs| && carry < BASE
        invariant Halfway(words[..length], limbs, index, Times(limbs[index..], multiplier, carry), target)
      {
        ghost var now, rest := words[..length], Times(limbs[index..], multiplier, carry);
        TimesNext(limbs, index, multiplier, carry);
        HalfwayReads(now, limbs, index, rest, target);
        assert words[index] == now[index];
        var product := Product(words[index], multiplier, carry);
        words[index] := Low32(product);
        assert words[..length] == now[index := Low32(product)];
        carry := High32(product);
        HalfwayNext(now, limbs, index, rest, Low32(product), Times(limbs[index + 1..], multiplier, carry), target);
        index := index + 1;
      }
      TimesNone(multiplier, carry);
      assert limbs[index..] == [];
      HalfwayEnds(words[..length], limbs, index, Times(limbs[index..], multiplier, carry), if carry == 0 then [] else [carry], target);
      ok := AppendCarry(carry);
    }

    /** Appends what is carried beyond the highest limb. */
    method AppendCarry(carry: Word) returns (ok: bool)
      requires length <= words.Length
      modifies this, words
      ensures ok <==> carry == 0 || old(length) < words.Length
      ensures ok ==> length <= words.Length && words[..length] == old(words[..length]) + if carry == 0 then [] else [carry]
    {
      if carry != 0 {
        if length >= words.Length {
          return false;
        }
        words[length] := carry;
        length := length + 1;
      }
      ok := true;
    }

    /** Adds in place; fails exactly when the sum needs more limbs than there are. */
    method AddSmall(addition: Word) returns (ok: bool)
      requires Valid()
      modifies this, words
      ensures ok <==> old(Val()) + addition < Power(words.Length)
      ensures ok ==> Valid() && Val() == old(Val()) + addition
    {
      hide Powers.Pow, Limbs.Value, Limbs.Low32, Limbs.High32, Limbs.Plus, Limbs.Normal, Limbs.Power, Halfway;
      ghost var limbs := words[..length];
      ghost var target := Plus(limbs, addition);
      PlusValue(limbs, addition);
      NormalLength(target, words.Length);
      var carry: nat := addition;
      var index := 0;
      HalfwayStarts(limbs, target);
      while carry != 0 && index < length
        invariant 0 <= index <= length == |limbs| && carry < BASE
        invariant Halfway(words[..length], limbs, index, Plus(limbs[index..], carry), target)
        invariant index == 0 ==> carry == addition
        decreases length - index
      {
        ghost var now, rest := words[..length], Plus(limbs[index..], carry);
        PlusNext(limbs, index, carry);
        HalfwayReads(now, limbs, index, rest, target);
        assert words[index] == now[index];
        var sum: nat := words[index] as int + carry;
        words[index] := Low32(sum);
        assert words[..length] == now[index := Low32(sum)];
        carry := High32(sum);
        HalfwayNext(now, limbs, index, rest, Low32(sum), Plus(limbs[index + 1..], carry), target);
        index := index + 1;
      }
      PlusEnd(limbs[index..], carry);
      assert limbs[index..] == limbs[index..] + [] && (index == length ==> limbs[index..] == []);
      HalfwayEnds(words[..length], limbs, index, Plus(limbs[index..], carry), if carry == 0 then [] else [carry], target);
      assert carry == 0 && length == 0 ==> addition == 0;
      ok := AppendCarry(carry);
    }

    method BitCount() returns (bits: nat)
      requires Valid()
      ensures bits == BitLength(Val())
    {
      if length == 0 {
        assert words[..length] == [];
        return 0;
      }
      NormalBitLength(words[..length]);
      var top: nat := words[length - 1];
      bits := (length - 1) * 32;
      while top != 0
        invariant bits + BitLength(top) == BitLength(Val())
      {
        bits := bits + 1;
        top := top / 2;
      }
    }

    /** Limb `index` of the number shifted left by `shift` bits. */
    function Shifted32(shift: nat, index: nat): (word: Word)
      reads this, words
      requires Valid()
    {
      var wholeWords, remainingBits := shift / 32, shift % 32;
      if index < wholeWords then 0
      else
        var sourceIndex := index - wholeWords;
        var lower := if sourceIndex < length then words[sourceIndex] else 0;
        if remainingBits == 0 then lower
        else
          var upper := if sourceIndex > 0 && sourceIndex - 1 < length then words[sourceIndex - 1] else 0;
          BitsFit(remainingBits);
          WordShift(upper, 0, remainingBits);
          WordShift(lower, HighBits(upper, remainingBits), remainingBits);
          LowBits(lower, remainingBits) as int + HighBits(upper, remainingBits) as int
    }

    lemma Shifted32IsLimb(shift: nat, index: nat)
      requires Valid()
      ensures Shifted32(shift, index) == WordAt(Shifted(words[..length], shift), index)
    {
      hide Powers.Pow, Limbs.LowBits, Limbs.HighBits, Limbs.Shifted;
      ShiftedWordIsLimb(words[..length], shift, index);
    }

    /** Drops leading zero limbs. */
    method Normalize()
      requires length <= words.Length
      modifies this`length
      ensures Valid() && Val() == Value(old(words[..length]))
    {
      hide Limbs.Value;
      ghost var limbs := words[..length];
      StrippedValue(limbs);
      while length != 0 && words[length - 1] == 0
        invariant length <= |limbs| && length <= words.Length && words[..length] == limbs[..length]
        invariant Stripped(words[..length]) == Stripped(limbs)
      {
        assert words[..length][..length - 1] == words[..length - 1];
        length := length - 1;
      }
    }

    /** Subtracts `right * 2^shift`, which must not be larger. */
    method SubtractShifted(right: Big, shift: nat)
      requires Valid() && right.Valid() && right != this && right.words != words
      requires 0 < right.Val() && right.Val() * Pow(2, shift) <= Val()
      modifies this, words
      ensures Valid() && Val() == old(Val()) - right.Val() * Pow(2, shift)
    {
      hide Powers.Pow, Limbs.Value, Limbs.Shifted, Limbs.Minus, Limbs.Normal, Limbs.Power, Limbs.Cast32, Halfway;
      ghost var limbs, other := words[..length], Shifted(right.words[..right.length], shift);
      ghost var target := Minus(limbs, other, 0);
      SubtrahendFits(limbs, right.words[..right.length], shift);
      MinusValue(limbs, other);
      var borrow: nat := 0;
      var index := 0;
      HalfwayStarts(limbs, target);
      assert From(other, 0) == other;
      while index < length
        invariant 0 <= index <= length == |limbs| && borrow <= 1
        invariant Halfway(words[..length], limbs, index, Minus(limbs[index..], From(other, index), borrow), target)
      {
        ghost var now, rest := words[..length], Minus(limbs[index..], From(other, index), borrow);
        right.Shifted32IsLimb(shift, index);
        MinusNext(limbs, other, index, borrow);
        HalfwayReads(now, limbs, index, rest, target);
        assert words[index] == now[index];
        var subtrahend: nat := right.Shifted32(shift, index) as int + borrow;
        var minuend: nat := words[index];
        words[index] := Cast32(minuend - subtrahend);
        assert words[..length] == now[index := Cast32(minuend - subtrahend)];
        borrow := if minuend < subtrahend then 1 else 0;
        HalfwayNext(now, limbs, index, rest, Cast32(minuend - subtrahend), Minus(limbs[index + 1..], From(other, index + 1), borrow), target);
        index := index + 1;
      }
      MinusNone(From(other, index), borrow);
      assert limbs[index..] == [] && limbs[index..] + [] == limbs[index..];
      HalfwayEnds(words[..length], limbs, index, Minus(limbs[index..], From(other, index), borrow), [], target);
      assert words[..length] + [] == words[..length];
      Normalize();
    }

    /** Multiplies by `2^shift` in place, highest limb first; fails when the limbs it touches do not
        fit, which may be one more than the product needs. */
    method ShiftLeft(shift: nat) returns (ok: bool)
      requires Valid()
      modifies this, words
      ensures ok <==> old(Val()) == 0 || shift == 0 ||
                      (BitLength(old(Val())) + 31) / 32 + shift / 32 + (if shift % 32 == 0 then 0 else 1) <= words.Length
      ensures ok ==> Valid() && Val() == old(Val()) * Pow(2, shift)
    {
      hide Powers.Pow, Limbs.Value, Limbs.Times, Limbs.LowBits, Limbs.HighBits;
      ghost var limbs := words[..length];
      NormalZero(limbs);
      NormalLimbCount(limbs);
      if length == 0 || shift == 0 {
        PowZero(2);
        return true;
      }
      var wholeWords, remainingBits := shift / 32, shift % 32;
      var oldLength := length;
      var extraWord := if remainingBits == 0 then 0 else 1;
      if oldLength + wholeWords + extraWord > words.Length {
        return false;
      }
      BitsFit(remainingBits);
      ShiftedValue(limbs, shift);
      TimesShape(limbs, remainingBits);
      ZeroShifts(remainingBits);
      var topCarry := MoveUp(wholeWords, remainingBits);
      var newLength := oldLength + wholeWords;
      if topCarry != 0 {
        words[newLength] := topCarry;
        newLength := newLength + 1;
      }
      ghost var product := Times(limbs, Pow(2, remainingBits), 0);
      assert words[wholeWords..newLength] == product;
      ZeroLow(wholeWords, newLength);
      length := newLength;
      ok := true;
    }

    /** The last loop of the shift. */
    method ZeroLow(wholeWords: nat, newLength: nat)
      requires wholeWords <= newLength <= words.Length
      modifies words
      ensures words[..newLength] == Zeros(wholeWords) + old(words[wholeWords..newLength])
    {
      var index := 0;
      while index < wholeWords
        invariant 0 <= index <= wholeWords
        invariant forall k :: 0 <= k < index ==> words[k] == 0
        invariant words[wholeWords..newLength] == old(words[wholeWords..newLength])
      {
        words[index] := 0;
        index := index + 1;
      }
    }

    /** The first loop of the shift: every limb moves to its new place, which is never below a limb
        still to be read. */
    method MoveUp(wholeWords: nat, remainingBits: nat) returns (topCarry: Word)
      requires 0 < length && remainingBits < 32 && length + wholeWords <= words.Length
      modifies words
      ensures topCarry == HighBits(old(words[length - 1]), remainingBits)
      ensures forall k :: 0 <= k < length ==> words[k + wholeWords] == ShiftedWord(old(words[..length]), remainingBits, k)
    {
      hide Powers.Pow, Limbs.LowBits, Limbs.HighBits;
      ghost var limbs := words[..length];
      ZeroShifts(remainingBits);
      topCarry := 0;
      var index := length;
      while index > 0
        invariant 0 <= index <= length
        invariant words[..index] == limbs[..index]
        invariant forall k :: index <= k < length ==> words[k + wholeWords] == ShiftedWord(limbs, remainingBits, k)
        invariant index < length ==> topCarry == HighBits(limbs[length - 1], remainingBits)
      {
        var sourceIndex := index - 1;
        assert words[..index][sourceIndex] == limbs[sourceIndex];
        var carried: nat := 0;
        BitsFit(remainingBits);
        if remainingBits != 0 && sourceIndex != 0 {
          assert words[..index][sourceIndex - 1] == limbs[sourceIndex - 1];
          carried := HighBits(words[sourceIndex - 1], remainingBits);
          WordShift(words[sourceIndex - 1], 0, remainingBits);
        }
        WordShift(words[sourceIndex], carried, remainingBits);
        if sourceIndex == length - 1 {
          topCarry := HighBits(words[sourceIndex], remainingBits);
        }
        words[sourceIndex + wholeWords] := LowBits(words[sourceIndex], remainingBits) as int + carried;
        index := index - 1;
      }
    }

    /** Multiplies by a power; fails exactly when the result needs more limbs than there are. */
    method MultiplyPower(base: Word, exponent: nat) returns (ok: bool)
      requires Valid() && base > 0
      modifies this, words
      ensures ok <==> old(Val()) * Pow(base, exponent) < Power(words.Length)
      ensures ok ==> Valid() && Val() == old(Val()) * Pow(base, exponent)
    {
      hide Powers.Pow, Limbs.Value;
      PowZero(base);
      ghost var value := Val();
      var index := 0;
      while index < exponent
        invariant 0 <= index <= exponent && Valid() && Val() == value * Pow(base, index)
      {
        PowNext(value, base, index);
        ok := MultiplySmall(base);
        if !ok {
          PowMonotone(base, index + 1, exponent);
          MulMonotone(Pow(base, index + 1), Pow(base, exponent), value);
          return;
        }
        index := index + 1;
      }
      ValueBound(words[..length]);
      PowMonotone(BASE, length, words.Length);
      ok := true;
    }
  }

  /** The sign of a comparison. */
  function Sign(a: int, b: int): int {
    if a < b then -1 else if a > b then 1 else 0
  }

  /** No zero is shifted past the other number's bits. */
  ghost predicate Comparable(left: nat, leftShift: nat, right: nat, rightShift: nat) {
    && (left == 0 ==> leftShift <= BitLength(right) + rightShift)
    && (right == 0 ==> rightShift <= BitLength(left) + leftShift)
  }

  lemma ShiftedBitsSign(a: nat, shiftA: nat, b: nat, shiftB: nat)
    requires BitLength(a) + shiftA < BitLength(b) + shiftB
    ensures Comparable(a, shiftA, b, shiftB) <==> Sign(a * Pow(2, shiftA), b * Pow(2, shiftB)) == -1
    ensures Comparable(b, shiftB, a, shiftA) <==> Sign(b * Pow(2, shiftB), a * Pow(2, shiftA)) == 1
  {
    hide Pow;
    if Comparable(a, shiftA, b, shiftB) {
      ShiftedBitsOrder(a, shiftA, b, shiftB);
    } else {
      assert b * Pow(2, shiftB) == 0 by {
        MulSign(0, Pow(2, shiftB));
      }
      MulSign(a, Pow(2, shiftA));
    }
  }

  /** Compares `left * 2^leftShift` with `right * 2^rightShift` without building either.  The answer is right
      exactly when no zero is shifted past the other number's bits. */
  method CompareShifted(left: Big, leftShift: nat, right: Big, rightShift: nat) returns (order: int)
    requires left.Valid() && right.Valid()
    ensures Comparable(left.Val(), leftShift, right.Val(), rightShift) <==> order == Sign(left.Val() * Pow(2, leftShift), right.Val() * Pow(2, rightShift))
  {
    hide Powers.Pow, Limbs.Value, Limbs.Shifted;
    var leftBits := left.BitCount();
    leftBits := leftBits + leftShift;
    var rightBits := right.BitCount();
    rightBits := rightBits + rightShift;
    ghost var a, b := Shifted(left.words[..left.length], leftShift), Shifted(right.words[..right.length], rightShift);
    ShiftedValue(left.words[..left.length], leftShift);
    ShiftedValue(right.words[..right.length], rightShift);
    if leftBits < rightBits {
      ShiftedBitsSign(left.Val(), leftShift, right.Val(), rightShift);
      return -1;
    }
    if leftBits > rightBits {
      ShiftedBitsSign(right.Val(), rightShift, left.Val(), leftShift);
      return 1;
    }
    var wordCount := (leftBits + 31) / 32;
    ShiftedLength(left.words[..left.length], leftShift, wordCount);
    ShiftedLength(right.words[..right.length], rightShift, wordCount);
    var index := wordCount;
    while index > 0
      invariant 0 <= index <= wordCount
      invariant forall i :: index <= i < wordCount ==> WordAt(a, i) == WordAt(b, i)
    {
      var leftWord := left.Shifted32(leftShift, index - 1);
      var rightWord := right.Shifted32(rightShift, index - 1);
      left.Shifted32IsLimb(leftShift, index - 1);
      right.Shifted32IsLimb(rightShift, index - 1);
      if leftWord < rightWord {
        WordOrder(a, b, wordCount, index - 1);
        return -1;
      }
      if leftWord > rightWord {
        WordOrder(b, a, wordCount, index - 1);
        return 1;
      }
      index := index - 1;
    }
    WordsEqual(a, b, wordCount);
    return 0;
  }

  /** Long division, one quotient bit at a time from the highest down; the remainder is left in the
      numerator. */
  method Divide(numerator: Big, denominator: Big, bits: nat) returns (significand: nat)
    requires numerator.Valid() && denominator.Valid() && numerator != denominator && numerator.words != denominator.words
    requires denominator.Val() > 0 && numerator.Val() < denominator.Val() * Pow(2, bits)
    modifies numerator, numerator.words
    ensures numerator.Valid() && denominator.Valid() && denominator.Val() == old(denominator.Val())
    ensures old(numerator.Val()) == significand * denominator.Val() + numerator.Val() && numerator.Val() < denominator.Val()
  {
    hide Pow, BitLength, Limbs.Value;
    ghost var n, d := numerator.Val(), denominator.Val();
    ghost var multiple := 0;
    significand := 0;
    var bit := bits;
    PowZero(2);
    while bit > 0
      invariant 0 <= bit <= bits && numerator.Valid() && denominator.Valid() && denominator.Val() == d
      invariant n == significand * d + numerator.Val() && numerator.Val() < d * Pow(2, bit)
      invariant significand == multiple * Pow(2, bit)
    {
      bit := bit - 1;
      ghost var before := numerator.Val();
      QuotientBit(d, bit, significand, multiple);
      multiple := 2 * multiple;
      var order := CompareShifted(denominator, bit, numerator, 0);
      if order <= 0 {
        numerator.SubtractShifted(denominator, bit);
        significand := significand + Pow(2, bit);
        multiple := multiple + 1;
      }
    }
  }

  lemma QuotientBit(d: nat, bit: nat, significand: nat, multiple: nat)
    requires significand == multiple * Pow(2, bit + 1)
    ensures d * Pow(2, bit + 1) == d * Pow(2, bit) + d * Pow(2, bit)
    ensures significand == (2 * multiple) * Pow(2, bit)
    ensures significand + Pow(2, bit) == (2 * multiple + 1) * Pow(2, bit)
    ensures (significand + Pow(2, bit)) * d == significand * d + d * Pow(2, bit)
  {
    hide Pow;
    PowNext(d, 2, bit);
    MulAssociate(multiple, 2, Pow(2, bit));
    MulDistribute(2 * multiple, 1, Pow(2, bit));
    MulDistribute(significand, Pow(2, bit), d);
  }
}
