/** Little-endian natural numbers in 32-bit limbs, as plain sequences: what the in-place loops of
    the two bignum workspaces compute. */
module Limbs {
  import opened Powers

  const BASE: nat := 0x1_0000_0000

  /** A `uint32_t`. */
  type Word = w: int | 0 <= w < BASE

  function Value(limbs: seq<Word>): (value: nat)
  {
    if limbs == [] then 0 else limbs[0] + BASE * Value(limbs[1..])
  }

  /** No leading zero limb. */
  predicate Normal(limbs: seq<Word>) {
    limbs != [] ==> limbs[|limbs| - 1] != 0
  }

  function WordAt(limbs: seq<Word>, index: nat): Word {
    if index < |limbs| then limbs[index] else 0
  }

  function Power(limbCount: nat): nat {
    Pow(BASE, limbCount)
  }

  lemma PowerPositive(limbCount: nat)
    ensures Power(limbCount) > 0
  {
    PowPositive(BASE, limbCount);
  }

  lemma BaseIsPower()
    ensures Pow(2, 32) == BASE
  {
    assert Pow(2, 8) == 256;
    PowAdd(2, 8, 8);
    PowAdd(2, 16, 16);
  }

  lemma PowerBits(limbCount: nat)
    ensures Power(limbCount) == Pow(2, 32 * limbCount)
  {
    BaseIsPower();
    PowPower(2, 32, limbCount);
  }

  // ---------- values ----------

  lemma {:induction false} ValueConcat(low: seq<Word>, high: seq<Word>)
    ensures Value(low + high) == Value(low) + Value(high) * Power(|low|)
  {
    if low == [] {
      assert low + high == high;
    } else {
      assert (low + high)[1..] == low[1..] + high;
      ValueConcat(low[1..], high);
      MulAssociate(BASE, Value(high), Power(|low| - 1));
      MulAssociate(Value(high), BASE, Power(|low| - 1));
    }
  }

  lemma {:induction false} ValueBound(limbs: seq<Word>)
    ensures Value(limbs) < Power(|limbs|)
  {
    if limbs != [] {
      ValueBound(limbs[1..]);
    }
  }

  lemma ValueTwo(low: Word, high: Word)
    ensures Value([low]) == low && Value([low, high]) == low as int + BASE * high as int
  {
    assert [low, high][1..] == [high];
    assert Value([high]) == high;
  }

  function Zeros(count: nat): (limbs: seq<Word>)
    ensures |limbs| == count && forall i :: 0 <= i < count ==> limbs[i] == 0
  {
    seq(count, _ => 0)
  }

  lemma {:induction false} ValueZeros(limbs: seq<Word>)
    requires forall i :: 0 <= i < |limbs| ==> limbs[i] == 0
    ensures Value(limbs) == 0
  {
    if limbs != [] {
      ValueZeros(limbs[1..]);
    }
  }

  /** A normal number has its top bit in its top limb. */
  lemma NormalBounds(limbs: seq<Word>)
    requires Normal(limbs) && limbs != []
    ensures Power(|limbs| - 1) <= limbs[|limbs| - 1] * Power(|limbs| - 1) <= Value(limbs) < Power(|limbs|)
    ensures Value(limbs) < (limbs[|limbs| - 1] + 1) * Power(|limbs| - 1)
  {
    hide Pow;
    var n := |limbs| - 1;
    var top: int := limbs[n];
    assert limbs == limbs[..n] + [limbs[n]];
    ValueConcat(limbs[..n], [limbs[n]]);
    assert Value([limbs[n]]) == top;
    MulEqual(Value([limbs[n]]), top, Power(n));
    ValueBound(limbs[..n]);
    ValueBound(limbs);
    PowPositive(BASE, n);
    MulMonotone(1, top, Power(n));
    MulDistribute(top, 1, Power(n));
  }

  lemma NormalZero(limbs: seq<Word>)
    requires Normal(limbs)
    ensures Value(limbs) == 0 <==> limbs == []
  {
    if limbs != [] {
      NormalBounds(limbs);
      PowPositive(BASE, |limbs| - 1);
    }
  }

  /** The number of limbs of a normal number is decided by its value. */
  lemma NormalLength(limbs: seq<Word>, count: nat)
    requires Normal(limbs)
    ensures |limbs| <= count <==> Value(limbs) < Power(count)
  {
    if limbs == [] {
      PowPositive(BASE, count);
    } else {
      NormalBounds(limbs);
      if |limbs| <= count {
        PowMonotone(BASE, |limbs|, count);
      } else {
        PowMonotone(BASE, count, |limbs| - 1);
      }
    }
  }

  /** Bit length from the top limb, as `emela_emb_float_big_bit_length` computes it. */
  lemma NormalBitLength(limbs: seq<Word>)
    requires Normal(limbs) && limbs != []
    ensures BitLength(Value(limbs)) == 32 * (|limbs| - 1) + BitLength(limbs[|limbs| - 1])
  {
    hide Pow;
    var n := |limbs| - 1;
    var top: int := limbs[n];
    var bits := BitLength(top);
    BitLengthBounds(top);
    NormalBounds(limbs);
    PowerBits(n);
    PowAdd(2, bits - 1, 32 * n);
    PowAdd(2, bits, 32 * n);
    MulMonotone(Pow(2, bits - 1), top, Power(n));
    MulMonotone(top + 1, Pow(2, bits), Power(n));
    BitLengthUnique(Value(limbs), 32 * n + bits);
  }

  /** Two equally long numbers are ordered by their highest different limb. */
  lemma ValueOrder(a: seq<Word>, b: seq<Word>, index: nat)
    requires |a| == |b| && index < |a|
    requires a[index + 1..] == b[index + 1..] && a[index] < b[index]
    ensures Value(a) < Value(b)
  {
    hide Pow;
    ValueSplit(a, index);
    ValueSplit(b, index);
    ValueBound(a[..index]);
    var x: int, y: int := a[index] + BASE * Value(a[index + 1..]), b[index] + BASE * Value(b[index + 1..]);
    MulMonotone(x + 1, y, Power(index));
    MulDistribute(x, 1, Power(index));
  }

  lemma ValueSplit(a: seq<Word>, index: nat)
    requires index < |a|
    ensures Value(a) == Value(a[..index]) + (a[index] + BASE * Value(a[index + 1..])) * Power(index)
  {
    hide Pow, Value, Power;
    assert a == a[..index] + a[index..];
    ValueConcat(a[..index], a[index..]);
    ValueFirst(a[index..]);
    assert a[index..][1..] == a[index + 1..];
    MulEqual(Value(a[index..]), a[index] + BASE * Value(a[index + 1..]), Power(index));
  }

  lemma ValueFirst(a: seq<Word>)
    requires a != []
    ensures Value(a) == a[0] + BASE * Value(a[1..])
  {
  }

  // ---------- multiplying by a word ----------

  /** The cast of a `uint64_t` to `uint32_t`. */
  function Low32(x: nat): Word {
    x % BASE
  }

  /** A `uint64_t` shifted right by 32. */
  function High32(x: nat): nat {
    x / BASE
  }

  /** One 32 by 32 bit product with its carry, as a `uint64_t`. */
  function Product(word: Word, factor: nat, carry: nat): nat {
    MulSign(word, factor);
    word * factor + carry
  }

  /** The limbs of `limbs * factor + carry`, from the lowest on. */
  function Times(limbs: seq<Word>, factor: nat, carry: nat): (product: seq<Word>)
    requires factor <= BASE && carry < BASE
    decreases |limbs|
  {
    if limbs == [] then (if carry == 0 then [] else [carry])
    else
      ProductFits(limbs[0], factor, carry);
      var p := Product(limbs[0], factor, carry);
      [Low32(p)] + Times(limbs[1..], factor, High32(p))
  }

  /** One turn of the multiplication loop: the finished limbs and what is left still make up the
      product. */
  lemma TimesNext(limbs: seq<Word>, index: nat, factor: nat, carry: nat)
    requires factor <= BASE && carry < BASE && index < |limbs|
    ensures var p := Product(limbs[index], factor, carry);
            High32(p) < BASE && Times(limbs[index..], factor, carry) == [Low32(p)] + Times(limbs[index + 1..], factor, High32(p))
  {
    ProductFits(limbs[index], factor, carry);
    assert limbs[index..][0] == limbs[index] && limbs[index..][1..] == limbs[index + 1..];
  }

  lemma TimesNone(factor: nat, carry: nat)
    requires factor <= BASE && carry < BASE
    ensures Times([], factor, carry) == if carry == 0 then [] else [carry]
  {
  }

  lemma ProductFits(word: Word, factor: nat, carry: nat)
    requires factor <= BASE && carry < BASE
    ensures High32(Product(word, factor, carry)) < BASE
  {
    MulMonotone(word, BASE - 1, factor);
    assert word * factor <= (BASE - 1) * factor;
  }

  lemma {:induction false} TimesValue(limbs: seq<Word>, factor: nat, carry: nat)
    requires factor <= BASE && carry < BASE
    ensures Value(Times(limbs, factor, carry)) == Value(limbs) * factor + carry
    decreases |limbs|
  {
    if limbs == [] {
    } else {
      ProductFits(limbs[0], factor, carry);
      var p := Product(limbs[0], factor, carry);
      var rest := Times(limbs[1..], factor, High32(p));
      TimesValue(limbs[1..], factor, High32(p));
      assert ([Low32(p)] + rest)[1..] == rest;
      var v := Value(limbs[1..]);
      assert (limbs[0] + BASE * v) * factor == limbs[0] * factor + BASE * (v * factor) by {
        MulDistribute(limbs[0], BASE * v, factor);
        MulAssociate(BASE, v, factor);
      }
    }
  }

  /** Multiplying a normal number by a positive factor gives a normal number, at most one limb
      longer. */
  lemma {:induction false} TimesNormal(limbs: seq<Word>, factor: nat, carry: nat)
    requires 0 < factor <= BASE && carry < BASE && Normal(limbs)
    ensures Normal(Times(limbs, factor, carry))
    ensures |limbs| <= |Times(limbs, factor, carry)| <= |limbs| + 1
    decreases |limbs|
  {
    if limbs == [] {
    } else {
      ProductFits(limbs[0], factor, carry);
      var p := Product(limbs[0], factor, carry);
      assert Normal(limbs[1..]) by {
        if |limbs| > 1 {
          assert limbs[1..][|limbs| - 2] == limbs[|limbs| - 1];
        }
      }
      TimesNormal(limbs[1..], factor, High32(p));
      if |limbs| == 1 {
        MulMonotone(1, limbs[0], factor);
        assert p > 0;
      }
    }
  }

  lemma {:induction false} TimesZero(limbs: seq<Word>)
    ensures |Times(limbs, 0, 0)| == |limbs|
    decreases |limbs|
  {
    if limbs != [] {
      TimesZero(limbs[1..]);
    }
  }

  // ---------- adding a word ----------

  function Plus(limbs: seq<Word>, carry: Word): (sum: seq<Word>)
  {
    if carry == 0 then limbs
    else if limbs == [] then [carry]
    else
      var s: nat := limbs[0] as int + carry as int;
      [Low32(s)] + Plus(limbs[1..], High32(s))
  }

  lemma PlusNext(limbs: seq<Word>, index: nat, carry: nat)
    requires 0 < carry < BASE && index < |limbs|
    ensures var s: nat := limbs[index] as int + carry;
            High32(s) < BASE && Plus(limbs[index..], carry) == [Low32(s)] + Plus(limbs[index + 1..], High32(s))
  {
    assert limbs[index..][0] == limbs[index] && limbs[index..][1..] == limbs[index + 1..];
  }

  lemma PlusEnd(limbs: seq<Word>, carry: Word)
    ensures carry == 0 ==> Plus(limbs, carry) == limbs
    ensures carry != 0 && limbs == [] ==> Plus(limbs, carry) == [carry]
  {
  }

  lemma {:induction false} PlusValue(limbs: seq<Word>, carry: Word)
    ensures Value(Plus(limbs, carry)) == Value(limbs) + carry
    ensures Normal(limbs) ==> Normal(Plus(limbs, carry))
  {
    if carry != 0 && limbs != [] {
      var s: nat := limbs[0] as int + carry as int;
      var rest := Plus(limbs[1..], High32(s));
      PlusValue(limbs[1..], High32(s));
      assert ([Low32(s)] + rest)[1..] == rest;
      if Normal(limbs) && |limbs| > 1 {
        assert limbs[1..][|limbs| - 2] == limbs[|limbs| - 1];
        assert Value(limbs[1..]) > 0 by {
          NormalZero(limbs[1..]);
        }
        assert rest != [];
      }
    }
  }

  // ---------- shifting ----------

  /** The limbs of `limbs * 2^shift`. */
  function Shifted(limbs: seq<Word>, shift: nat): (shifted: seq<Word>)
  {
    BitsFit(shift % 32);
    Zeros(shift / 32) + Times(limbs, Pow(2, shift % 32), 0)
  }

  lemma BitsFit(bits: nat)
    requires bits <= 32
    ensures 0 < Pow(2, bits) <= BASE
    ensures Pow(2, bits) * Pow(2, 32 - bits) == BASE
  {
    BaseIsPower();
    PowMonotone(2, bits, 32);
    PowAdd(2, bits, 32 - bits);
  }

  lemma ShiftedValue(limbs: seq<Word>, shift: nat)
    ensures Value(Shifted(limbs, shift)) == Value(limbs) * Pow(2, shift)
    ensures Normal(limbs) && limbs != [] ==> Normal(Shifted(limbs, shift))
  {
    hide Pow;
    var whole, bits := shift / 32, shift % 32;
    BitsFit(bits);
    var low, high := Zeros(whole), Times(limbs, Pow(2, bits), 0);
    ValueConcat(low, high);
    ValueZeros(low);
    TimesValue(limbs, Pow(2, bits), 0);
    PowerBits(whole);
    PowAdd(2, bits, 32 * whole);
    MulAssociate(Value(limbs), Pow(2, bits), Power(whole));
    MulEqual(Value(high), Value(limbs) * Pow(2, bits), Power(whole));
    if Normal(limbs) && limbs != [] {
      TimesNormal(limbs, Pow(2, bits), 0);
    }
  }

  /** The bits of a word that stay in it when it is shifted left, and those that leave it. */
  function LowBits(word: Word, bits: nat): Word {
    (word * Pow(2, bits)) % BASE
  }

  function HighBits(word: Word, bits: nat): (high: Word)
    requires bits <= 32
  {
    BitsFit(bits);
    PowPositive(2, 32 - bits);
    DivSmaller(word, Pow(2, 32 - bits));
    word as int / Pow(2, 32 - bits)
  }

  lemma DivSmaller(x: nat, d: nat)
    requires d > 0
    ensures 0 <= x / d <= x
  {
    if x / d > x {
      MulMonotone(1, d, x / d);
    }
  }

  lemma SplitProduct(word: int, p: int, q: int, carry: int)
    requires 0 <= word < BASE && p > 0 && q > 0 && p * q == BASE && 0 <= carry < p
    ensures 0 <= word / q < p
    ensures (word * p) % BASE + carry < BASE
    ensures (word * p + carry) % BASE == (word * p) % BASE + carry
    ensures (word * p + carry) / BASE == word / q
  {
    var h, l := word / q, word % q;
    SplitFactor(word, h, l, p, q);
    SplitLow(l, p, q);
    DivUnique(word * p, BASE, h, l * p);
    DivUnique(word * p + carry, BASE, h, l * p + carry);
    if h >= p {
      MulMonotone(p, h, q);
    }
  }

  lemma SplitFactor(word: int, h: int, l: int, p: int, q: int)
    requires word == q * h + l && p * q == BASE
    ensures word * p == BASE * h + l * p
  {
    MulEqual(word, q * h + l, p);
    MulDistribute(q * h, l, p);
    assert (q * h) * p == (p * q) * h by {
      MulAssociate(p, q, h);
    }
  }

  lemma SplitLow(l: int, p: int, q: int)
    requires 0 <= l < q && p > 0 && p * q == BASE
    ensures 0 <= l * p <= BASE - p
  {
    MulMonotone(l, q - 1, p);
    MulDistribute(q, -1, p);
  }

  /** Shifting a word left and adding a carry to the freed bits keeps both apart. */
  lemma WordShift(word: Word, carry: nat, bits: nat)
    requires bits <= 32 && carry < Pow(2, bits)
    ensures HighBits(word, bits) < Pow(2, bits) <= BASE
    ensures LowBits(word, bits) as int + carry < BASE
    ensures (word * Pow(2, bits) + carry) % BASE == LowBits(word, bits) as int + carry
    ensures (word * Pow(2, bits) + carry) / BASE == HighBits(word, bits)
  {
    hide Pow;
    BitsFit(bits);
    PowPositive(2, 32 - bits);
    SplitProduct(word, Pow(2, bits), Pow(2, 32 - bits), carry);
  }

  /** One limb of a shifted number, straight from the limbs of the number: the low bits of one limb
      and the high bits of the one below, which do not overlap. */
  function ShiftedWord(limbs: seq<Word>, shift: nat, index: nat): (word: Word)
  {
    var whole, bits := shift / 32, shift % 32;
    if index < whole then 0
    else
      var source := index - whole;
      var lower := WordAt(limbs, source);
      if bits == 0 then lower
      else
        var upper := if source > 0 then WordAt(limbs, source - 1) else 0;
        BitsFit(bits);
        WordShift(upper, 0, bits);
        WordShift(lower, HighBits(upper, bits), bits);
        LowBits(lower, bits) as int + HighBits(upper, bits) as int
  }

  lemma {:induction false} TimesWord(limbs: seq<Word>, bits: nat, carry: Word, index: nat)
    requires bits < 32 && carry < Pow(2, bits) <= BASE
    ensures WordAt(Times(limbs, Pow(2, bits), carry), index) as int ==
            LowBits(WordAt(limbs, index), bits) as int +
            if index == 0 then carry as int else HighBits(WordAt(limbs, index - 1), bits) as int
    decreases |limbs|
  {
    if limbs == [] {
      WordShift(0, 0, bits);
    } else {
      WordShift(limbs[0], carry, bits);
      ProductFits(limbs[0], Pow(2, bits), carry);
      var p := Product(limbs[0], Pow(2, bits), carry);
      var rest := Times(limbs[1..], Pow(2, bits), High32(p));
      if index > 0 {
        TimesWord(limbs[1..], bits, High32(p), index - 1);
        assert WordAt([Low32(p)] + rest, index) == WordAt(rest, index - 1);
      }
    }
  }

  /** Shifting by less than a word yields one limb per limb, plus the bits that leave the top. */
  lemma TimesShape(limbs: seq<Word>, bits: nat)
    requires bits < 32 && 0 < Pow(2, bits) <= BASE && Normal(limbs) && limbs != []
    ensures var product := Times(limbs, Pow(2, bits), 0);
            var top := HighBits(limbs[|limbs| - 1], bits);
            && |product| == |limbs| + (if top == 0 then 0 else 1)
            && (top != 0 ==> product[|limbs|] == top)
            && forall k :: 0 <= k < |limbs| ==> product[k] == ShiftedWord(limbs, bits, k)
  {
    hide Pow;
    TimesNormal(limbs, Pow(2, bits), 0);
    TimesWord(limbs, bits, 0, |limbs|);
    ZeroShifts(bits);
    var product := Times(limbs, Pow(2, bits), 0);
    forall k | 0 <= k < |limbs| ensures product[k] == ShiftedWord(limbs, bits, k) {
      ShiftedWordIsLimb(limbs, bits, k);
      assert Zeros(0) + product == product;
    }
  }

  lemma ZeroShifts(bits: nat)
    requires bits <= 32
    ensures LowBits(0, bits) == 0 && HighBits(0, bits) == 0
    ensures forall word :: LowBits(word, 0) == word && HighBits(word, 0) == 0
  {
    BaseIsPower();
    forall word ensures LowBits(word, 0) == word && HighBits(word, 0) == 0 {
      PowZero(2);
    }
    BitsFit(bits);
    PowPositive(2, 32 - bits);
    DivUnique(0, Pow(2, 32 - bits), 0, 0);
    assert 0 * Pow(2, bits) == 0;
  }

  /** `emela_emb_float_big_shifted_word` reads the limbs of the shifted number. */
  lemma ShiftedWordIsLimb(limbs: seq<Word>, shift: nat, index: nat)
    ensures ShiftedWord(limbs, shift, index) == WordAt(Shifted(limbs, shift), index)
  {
    hide Pow;
    var whole, bits := shift / 32, shift % 32;
    BitsFit(bits);
    if index >= whole {
      TimesWord(limbs, bits, 0, index - whole);
      if bits == 0 {
        assert Pow(2, 0) == 1 by {
          PowZero(2);
        }
        WordShift(WordAt(limbs, index - whole), 0, 0);
        if index > whole {
          WordShift(WordAt(limbs, index - whole - 1), 0, 0);
        }
      }
    }
  }

  // ---------- subtracting ----------

  /** The cast of a difference of `uint64_t` values to `uint32_t`. */
  function Cast32(x: int): Word {
    x % BASE
  }

  function From(limbs: seq<Word>, index: nat): seq<Word> {
    if index <= |limbs| then limbs[index..] else []
  }

  function Minus(a: seq<Word>, b: seq<Word>, borrow: nat): (difference: seq<Word>)
    requires borrow <= 1
    ensures |difference| == |a|
    decreases |a|
  {
    if a == [] then []
    else
      var subtrahend: int := WordAt(b, 0) as int + borrow;
      [Cast32(a[0] as int - subtrahend)] +
      Minus(a[1..], if b == [] then [] else b[1..], if a[0] as int < subtrahend then 1 else 0)
  }

  /** Whether `Minus` borrows beyond the highest limb. */
  predicate Borrows(a: seq<Word>, b: seq<Word>, borrow: nat)
    requires borrow <= 1
    decreases |a|
  {
    if a == [] then borrow == 1
    else
      var subtrahend: int := WordAt(b, 0) as int + borrow;
      Borrows(a[1..], if b == [] then [] else b[1..], if a[0] as int < subtrahend then 1 else 0)
  }

  lemma {:induction false} MinusBorrows(a: seq<Word>, b: seq<Word>, borrow: nat)
    requires borrow <= 1 && |b| <= |a|
    ensures Value(Minus(a, b, borrow)) + Value(b) + borrow == Value(a) + if Borrows(a, b, borrow) then Power(|a|) else 0
    decreases |a|
  {
    if a != [] {
      var subtrahend: int := WordAt(b, 0) as int + borrow;
      var next := if a[0] as int < subtrahend then 1 else 0;
      var b' := if b == [] then [] else b[1..];
      var low := Cast32(a[0] as int - subtrahend);
      WrapWord(a[0] as int - subtrahend);
      MinusBorrows(a[1..], b', next);
      var rest := Minus(a[1..], b', next);
      assert Minus(a, b, borrow) == [low] + rest;
      assert Borrows(a, b, borrow) == Borrows(a[1..], b', next);
      PowerNext(|a| - 1);
      MinusStep(a, b, borrow, low, next, rest);
      hide *;
      assert Power(|a[1..]|) == Power(|a| - 1);
      assert Value(rest) + Value(b') + next - Value(a[1..]) == if Borrows(a, b, borrow) then Power(|a| - 1) else 0;
    }
  }

  lemma PowerNext(n: nat)
    ensures Power(n + 1) == BASE * Power(n)
  {
  }

  lemma MinusNext(a: seq<Word>, b: seq<Word>, index: nat, borrow: nat)
    requires borrow <= 1 && index < |a|
    ensures var subtrahend: int := WordAt(b, index) as int + borrow;
            Minus(a[index..], From(b, index), borrow) ==
            [Cast32(a[index] as int - subtrahend)] + Minus(a[index + 1..], From(b, index + 1), if a[index] as int < subtrahend then 1 else 0)
  {
    var b' := From(b, index);
    assert a[index..][0] == a[index] && a[index..][1..] == a[index + 1..];
    assert WordAt(b', 0) == WordAt(b, index) && (if b' == [] then [] else b'[1..]) == From(b, index + 1);
  }

  lemma MinusNone(b: seq<Word>, borrow: nat)
    requires borrow <= 1
    ensures Minus([], b, borrow) == []
  {
  }

  /** What is subtracted has no more limbs than what it is subtracted from. */
  lemma SubtrahendFits(a: seq<Word>, b: seq<Word>, shift: nat)
    requires Normal(a) && Normal(b) && Value(b) > 0 && Value(b) * Pow(2, shift) <= Value(a)
    ensures |Shifted(b, shift)| <= |a| && Value(Shifted(b, shift)) == Value(b) * Pow(2, shift)
  {
    hide Pow;
    ShiftedValue(b, shift);
    ValueBound(a);
    NormalZero(b);
    NormalLength(Shifted(b, shift), |a|);
  }

  lemma WrapWord(x: int)
    requires -(BASE as int) <= x < BASE
    ensures x % BASE == if x < 0 then x + BASE else x
  {
    DivUnique(x, BASE, if x < 0 then -1 else 0, if x < 0 then x + BASE else x);
  }

  lemma MinusStep(a: seq<Word>, b: seq<Word>, borrow: nat, low: Word, next: nat, rest: seq<Word>)
    requires a != [] && low as int == a[0] as int - WordAt(b, 0) as int - borrow + BASE * next
    ensures Value([low] + rest) + Value(b) + borrow - Value(a) ==
            BASE * (Value(rest) + Value(if b == [] then [] else b[1..]) + next - Value(a[1..]))
  {
    assert ([low] + rest)[1..] == rest;
  }

  /** Subtracting a number that is not larger does not borrow. */
  lemma MinusValue(a: seq<Word>, b: seq<Word>)
    requires |b| <= |a| && Value(b) <= Value(a)
    ensures Value(Minus(a, b, 0)) == Value(a) - Value(b)
  {
    MinusBorrows(a, b, 0);
    ValueBound(Minus(a, b, 0));
  }

  /** `emela_emb_float_big_normalize`. */
  function Stripped(limbs: seq<Word>): (normal: seq<Word>)
    ensures Normal(normal) && |normal| <= |limbs| && normal == limbs[..|normal|]
    decreases |limbs|
  {
    if limbs != [] && limbs[|limbs| - 1] == 0 then Stripped(limbs[..|limbs| - 1]) else limbs
  }

  lemma {:induction false} StrippedValue(limbs: seq<Word>)
    ensures Value(Stripped(limbs)) == Value(limbs)
    decreases |limbs|
  {
    if limbs != [] && limbs[|limbs| - 1] == 0 {
      var shorter := limbs[..|limbs| - 1];
      assert limbs == shorter + [0];
      ValueConcat(shorter, [0]);
      assert Value([0]) == 0;
      StrippedValue(shorter);
    }
  }

  /** A normal number has exactly the limbs its bits need. */
  lemma NormalLimbCount(limbs: seq<Word>)
    requires Normal(limbs)
    ensures |limbs| == (BitLength(Value(limbs)) + 31) / 32
  {
    if limbs != [] {
      NormalBitLength(limbs);
      var top: int := limbs[|limbs| - 1];
      BitLengthBounds(top);
      if BitLength(top) > 32 {
        PowMonotone(2, 32, BitLength(top) - 1);
        BaseIsPower();
      }
    }
  }

  // ---------- comparing ----------

  /** The order of two numbers of at most `count` limbs shows at their highest different limb. */
  lemma WordOrder(a: seq<Word>, b: seq<Word>, count: nat, index: nat)
    requires |a| <= count && |b| <= count && index < count
    requires forall i :: index < i < count ==> WordAt(a, i) == WordAt(b, i)
    requires WordAt(a, index) < WordAt(b, index)
    ensures Value(a) < Value(b)
  {
    var a', b' := a + Zeros(count - |a|), b + Zeros(count - |b|);
    ValuePadded(a, count);
    ValuePadded(b, count);
    assert a'[index + 1..] == b'[index + 1..] by {
      forall i | index < i < count ensures a'[i] == b'[i] {
        assert a'[i] == WordAt(a, i) && b'[i] == WordAt(b, i);
      }
    }
    ValueOrder(a', b', index);
  }

  lemma WordsEqual(a: seq<Word>, b: seq<Word>, count: nat)
    requires |a| <= count && |b| <= count
    requires forall i :: 0 <= i < count ==> WordAt(a, i) == WordAt(b, i)
    ensures Value(a) == Value(b)
  {
    ValuePadded(a, count);
    ValuePadded(b, count);
    var a', b' := a + Zeros(count - |a|), b + Zeros(count - |b|);
    forall i | 0 <= i < count ensures a'[i] == b'[i] {
      assert a'[i] == WordAt(a, i) && b'[i] == WordAt(b, i);
    }
    assert a' == b';
  }

  lemma ValuePadded(limbs: seq<Word>, count: nat)
    requires |limbs| <= count
    ensures Value(limbs + Zeros(count - |limbs|)) == Value(limbs)
  {
    hide Pow, Value;
    var high := Zeros(count - |limbs|);
    ValueConcat(limbs, high);
    ValueZeros(high);
    MulEqual(Value(high), 0, Power(|limbs|));
    assert Value(high) * Power(|limbs|) == 0;
  }

  /** A shifted number fits the limbs its shifted bits need. */
  lemma ShiftedLength(limbs: seq<Word>, shift: nat, count: nat)
    requires Normal(limbs) && BitLength(Value(limbs)) + shift <= 32 * count
    ensures |Shifted(limbs, shift)| <= count
  {
    hide Pow;
    ShiftedValue(limbs, shift);
    if limbs == [] {
      BitsFit(shift % 32);
      TimesNone(Pow(2, shift % 32), 0);
    } else {
      NormalZero(limbs);
      BitLengthShift(Value(limbs), shift);
      NormalZero(Shifted(limbs, shift));
      PowPositive(2, shift);
      MulPositive(Value(limbs), Pow(2, shift));
      NormalLimbCount(Shifted(limbs, shift));
    }
  }
}
