/** Powers of a natural number, and the few facts about products that the float conversions use. */
module Powers {

  function Pow(base: nat, exponent: nat): (power: nat)
  {
    if exponent == 0 then 1 else base * Pow(base, exponent - 1)
  }

  lemma {:induction false} PowPositive(base: nat, exponent: nat)
    requires base > 0
    ensures Pow(base, exponent) > 0
  {
    if exponent > 0 {
      PowPositive(base, exponent - 1);
      MulPositive(base, Pow(base, exponent - 1));
    }
  }

  lemma MulPositive(a: int, b: int)
    requires a > 0 && b > 0
    ensures a * b > 0
  {
  }

  lemma MulSign(a: nat, b: nat)
    ensures 0 <= a * b
  {
  }

  /** Multiplying by a natural number keeps the order. */
  lemma MulMonotone(a: int, b: int, c: int)
    requires a <= b && 0 <= c
    ensures a * c <= b * c
  {
  }

  lemma MulStrict(a: int, b: int, c: int)
    requires a < b && 0 < c
    ensures a * c < b * c
  {
  }

  lemma MulEqual(a: int, b: int, c: int)
    requires a == b
    ensures a * c == b * c
  {
  }

  lemma MulAssociate(a: int, b: int, c: int)
    ensures a * (b * c) == (a * b) * c
  {
  }

  lemma MulDistribute(a: int, b: int, c: int)
    ensures (a + b) * c == a * c + b * c
  {
  }

  lemma MulExchange(a: int, b: int, p: int, q: int)
    ensures (a * b) * (p * q) == (a * p) * (b * q)
  {
    MulAssociate(a * b, p, q);
    assert (a * b) * p == (a * p) * b by {
      MulAssociate(a, b, p);
      MulAssociate(a, p, b);
    }
    MulAssociate(a * p, b, q);
  }

  lemma DivUnique(x: int, d: int, q: int, r: int)
    requires x == d * q + r && 0 <= r < d
    ensures x / d == q && x % d == r
  {
    var q', r' := x / d, x % d;
    assert x == d * q' + r';
    assert d * (q - q') == r' - r by {
      assert d * (q - q') == d * q - d * q';
    }
    DivUniqueGap(d, q - q', r' - r);
  }

  lemma DivUniqueGap(d: int, k: int, gap: int)
    requires d > 0 && d * k == gap && -d < gap < d
    ensures k == 0
  {
    if k >= 1 {
      MulMonotone(1, k, d);
    } else if k <= -1 {
      MulMonotone(k, -1, d);
    }
  }

  /** A positive factor can be cancelled from a comparison. */
  lemma MulCancel(a: int, b: int, c: int)
    requires 0 < c
    ensures a * c <= b * c <==> a <= b
    ensures a * c < b * c <==> a < b
  {
    if a < b {
      MulStrict(a, b, c);
    } else {
      MulMonotone(b, a, c);
    }
    if a <= b {
      MulMonotone(a, b, c);
    } else {
      MulStrict(b, a, c);
    }
  }

  lemma {:induction false} PowAdd(base: nat, m: nat, n: nat)
    ensures Pow(base, m + n) == Pow(base, m) * Pow(base, n)
  {
    if m > 0 {
      PowAdd(base, m - 1, n);
      MulAssociate(base, Pow(base, m - 1), Pow(base, n));
    }
  }

  lemma {:induction false} PowMonotone(base: nat, m: nat, n: nat)
    requires base > 0 && m <= n
    ensures 0 < Pow(base, m) <= Pow(base, n)
  {
    PowPositive(base, m);
    if m < n {
      PowMonotone(base, m, n - 1);
      MulMonotone(1, base, Pow(base, n - 1));
    }
  }

  lemma PowStrict(base: nat, m: nat, n: nat)
    requires base > 1 && m < n
    ensures 0 < Pow(base, m) < Pow(base, n)
  {
    PowMonotone(base, m, n - 1);
    MulStrict(1, base, Pow(base, n - 1));
  }

  lemma PowZero(base: nat)
    ensures Pow(base, 0) == 1
  {
  }

  lemma PowNext(value: nat, base: nat, n: nat)
    ensures value * Pow(base, n + 1) == (value * Pow(base, n)) * base
    ensures Pow(base, n + 1) == base * Pow(base, n)
  {
    MulAssociate(value, Pow(base, n), base);
  }

  lemma {:induction false} PowProduct(a: nat, b: nat, n: nat)
    ensures Pow(a * b, n) == Pow(a, n) * Pow(b, n)
  {
    if n > 0 {
      PowProduct(a, b, n - 1);
      var p, q := Pow(a, n - 1), Pow(b, n - 1);
      MulExchange(a, b, p, q);
    }
  }

  lemma {:induction false} PowPower(base: nat, m: nat, n: nat)
    ensures Pow(Pow(base, m), n) == Pow(base, m * n)
  {
    if n > 0 {
      PowPower(base, m, n - 1);
      PowAdd(base, m, m * (n - 1));
      assert m + m * (n - 1) == m * n;
    }
  }

  /** Raising keeps the order of bases. */
  lemma {:induction false} PowBase(a: nat, b: nat, n: nat)
    requires a <= b
    ensures Pow(a, n) <= Pow(b, n)
  {
    if n > 0 {
      PowBase(a, b, n - 1);
      MulMonotone(a, b, Pow(a, n - 1));
      MulMonotone(Pow(a, n - 1), Pow(b, n - 1), b);
    }
  }

  // ---------- bit lengths ----------

  function BitLength(value: nat): (bits: nat)
  {
    if value == 0 then 0 else 1 + BitLength(value / 2)
  }

  /** The bit length is the one exponent that brackets the value. */
  lemma {:induction false} BitLengthBounds(value: nat)
    requires value > 0
    ensures BitLength(value) > 0
    ensures Pow(2, BitLength(value) - 1) <= value < Pow(2, BitLength(value))
  {
    if value >= 2 {
      BitLengthBounds(value / 2);
    }
  }

  lemma BitLengthUnique(value: nat, bits: nat)
    requires bits > 0 && Pow(2, bits - 1) <= value < Pow(2, bits)
    ensures BitLength(value) == bits
  {
    PowPositive(2, bits - 1);
    BitLengthBounds(value);
    if BitLength(value) < bits {
      PowMonotone(2, BitLength(value), bits - 1);
    } else if BitLength(value) > bits {
      PowMonotone(2, bits, BitLength(value) - 1);
    }
  }

  /** Shifting left adds to the bit length. */
  lemma BitLengthShift(value: nat, shift: nat)
    requires value > 0
    ensures BitLength(value * Pow(2, shift)) == BitLength(value) + shift
  {
    var bits := BitLength(value);
    BitLengthBounds(value);
    PowPositive(2, shift);
    PowAdd(2, bits - 1, shift);
    PowAdd(2, bits, shift);
    MulMonotone(Pow(2, bits - 1), value, Pow(2, shift));
    MulStrict(value, Pow(2, bits), Pow(2, shift));
    BitLengthUnique(value * Pow(2, shift), bits + shift);
  }

  lemma BitLengthOrder(a: nat, b: nat)
    requires BitLength(a) < BitLength(b)
    ensures a < b
  {
    BitLengthBounds(b);
    if a > 0 {
      BitLengthBounds(a);
      PowMonotone(2, BitLength(a), BitLength(b) - 1);
    }
  }

  /** Shifted numbers with fewer bits are smaller. */
  lemma ShiftedBitsOrder(a: nat, shiftA: nat, b: nat, shiftB: nat)
    requires BitLength(a) + shiftA < BitLength(b) + shiftB
    requires b == 0 ==> shiftB <= BitLength(a) + shiftA
    ensures a * Pow(2, shiftA) < b * Pow(2, shiftB)
  {
    hide Pow;
    assert b > 0;
    BitLengthShift(b, shiftB);
    PowPositive(2, shiftA);
    PowPositive(2, shiftB);
    MulPositive(b, Pow(2, shiftB));
    if a > 0 {
      MulPositive(a, Pow(2, shiftA));
      BitLengthShift(a, shiftA);
      BitLengthOrder(a * Pow(2, shiftA), b * Pow(2, shiftB));
    } else {
      MulEqual(a, 0, Pow(2, shiftA));
    }
  }

  lemma BitsAtMost(value: nat, bits: nat)
    requires value < Pow(2, bits)
    ensures BitLength(value) <= bits
  {
    if value > 0 && BitLength(value) > bits {
      BitLengthBounds(value);
      PowMonotone(2, bits, BitLength(value) - 1);
    }
  }

  // ---------- comparing shifted numbers ----------

  /** Shifting both sides by the same amount does not change a comparison. */
  lemma ShiftCompare(base: nat, n: nat, d: nat, x: nat, y: nat, x': nat, y': nat)
    requires base > 0 && x as int - y == x' as int - y'
    ensures n * Pow(base, x) < d * Pow(base, y) <==> n * Pow(base, x') < d * Pow(base, y')
    ensures d * Pow(base, y) < n * Pow(base, x) <==> d * Pow(base, y') < n * Pow(base, x')
  {
    hide Pow;
    if x <= x' {
      ShiftBoth(base, n, d, x, y, x', y', x' - x);
    } else {
      ShiftBoth(base, n, d, x', y', x, y, x - x');
    }
  }

  lemma ShiftBoth(base: nat, n: nat, d: nat, x: nat, y: nat, x': nat, y': nat, k: nat)
    requires base > 0 && x' == x + k && y' == y + k
    ensures n * Pow(base, x) < d * Pow(base, y) <==> n * Pow(base, x') < d * Pow(base, y')
    ensures d * Pow(base, y) < n * Pow(base, x) <==> d * Pow(base, y') < n * Pow(base, x')
  {
    hide Pow;
    PowPositive(base, k);
    PowAdd(base, x, k);
    PowAdd(base, y, k);
    MulAssociate(n, Pow(base, x), Pow(base, k));
    MulAssociate(d, Pow(base, y), Pow(base, k));
    MulCancel(n * Pow(base, x), d * Pow(base, y), Pow(base, k));
    MulCancel(d * Pow(base, y), n * Pow(base, x), Pow(base, k));
  }

  lemma OneBitMore(remainder: nat, d: nat)
    requires d > 0
    ensures remainder * Pow(2, 1) == 2 * remainder && d * Pow(2, 0) == d && BitLength(d) > 0
  {
  }
}
