/** Sizes: powers of ten against powers of two, the binary exponent of a quotient, and the ranges
    that are infinite or zero without further work. */
module Magnitudes {
  import opened Powers
  import opened Binary64

  function Up(x: int): nat {
    if x > 0 then x else 0
  }

  // ---------- powers of ten against powers of two ----------

  lemma SmallPowers()
    ensures Pow(10, 1) == 10 && Pow(10, 3) == 1000 && Pow(10, 7) == 1000_0000
    ensures Pow(2, 1) == 2 && Pow(2, 7) == 128 && Pow(2, 10) == 1024
  {
  }

  lemma TenPowers()
    ensures Pow(10, 3) == 1000 && Pow(10, 17) == 10_0000_0000_0000_0000
    ensures Pow(10, 28) == 10_000_000_000_000_000_000_000_000_000
    ensures Pow(10, 59) == 100_000_000_000_000_000_000_000_000_000_000_000_000_000_000_000_000_000_000_000
  {
    hide Pow;
    SmallPowers();
    PowAdd(10, 7, 7);
    PowAdd(10, 14, 14);
    PowAdd(10, 14, 3);
    PowAdd(10, 28, 28);
    PowAdd(10, 56, 3);
  }

  lemma TwoPowers()
    ensures Pow(2, 10) == 1024
    ensures Pow(2, 54) == 18_014_398_509_481_984 && Pow(2, 56) == 72_057_594_037_927_936
    ensures Pow(2, 93) == 9_903_520_314_283_042_199_192_993_792
    ensures Pow(2, 196) == 100_433_627_766_186_892_221_372_630_771_322_662_657_637_687_111_424_552_206_336
  {
    hide Pow;
    SmallPowers();
    PowAdd(2, 7, 7);
    PowAdd(2, 14, 14);
    PowAdd(2, 28, 28);
    PowAdd(2, 7, 10);
    PowAdd(2, 17, 10);
    PowAdd(2, 27, 27);
    PowAdd(2, 28, 27);
    PowAdd(2, 55, 28);
    PowAdd(2, 83, 10);
    PowAdd(2, 28, 14);
    PowAdd(2, 56, 42);
    PowAdd(2, 98, 98);
  }

  /** Three decimal digits take less than ten bits. */
  lemma TenBelowTwo(n: nat)
    ensures Pow(10, n) <= Pow(2, 10 * ((n + 2) / 3))
  {
    hide Pow;
    var c := (n + 2) / 3;
    TenPowers();
    TwoPowers();
    PowMonotone(10, n, 3 * c);
    PowPower(10, 3, c);
    PowPower(2, 10, c);
    PowBase(1000, 1024, c);
  }

  /** The largest denominator: 1124 decimal digits fit 3734 bits. */
  lemma LargestDenominator()
    ensures Pow(10, 1124) < Pow(2, 3734)
  {
    hide Pow;
    TenPowers();
    TwoPowers();
    PowPower(10, 59, 19);
    PowPower(2, 196, 19);
    PowBase(Pow(10, 59), Pow(2, 196), 19);
    PowAdd(10, 1121, 3);
    PowAdd(2, 3724, 10);
    PowPositive(2, 3724);
    MulMonotone(Pow(10, 1121), Pow(2, 3724), 1000);
    MulStrict(1000, 1024, Pow(2, 3724));
  }

  lemma TenAboveTwo()
    ensures Pow(10, 309) >= Pow(2, 1024) && Pow(10, 325) > Pow(2, 1075)
  {
    hide Pow;
    TenPowers();
    TwoPowers();
    SmallPowers();
    PowPower(10, 28, 11);
    PowPower(2, 93, 11);
    PowBase(Pow(2, 93), Pow(10, 28), 11);
    PowAdd(10, 308, 1);
    PowAdd(2, 1023, 1);
    PowAdd(10, 308, 17);
    PowAdd(2, 1023, 56);
    PowPositive(2, 1023);
    var two, ten := Pow(2, 1023), Pow(10, 308);
    MulMonotone(two, ten, Pow(10, 17));
    MulMonotone(Pow(2, 56), Pow(10, 17), two);
    PowStrict(2, 1075, 1079);
  }

  // ---------- binary exponents ----------

  /** `2^exponent <= n / d < 2^(exponent + 1)`. */
  ghost predicate Bracket(n: nat, d: nat, exponent: int) {
    && d * Pow(2, Up(exponent)) <= n * Pow(2, Up(-exponent))
    && n * Pow(2, Up(-exponent - 1)) < d * Pow(2, Up(exponent + 1))
  }

  /** The difference of bit lengths is the binary exponent or one too many. */
  lemma BitDifference(n: nat, d: nat)
    requires n > 0 && d > 0
    ensures var e := BitLength(n) - BitLength(d);
            d * Pow(2, Up(e - 1)) < n * Pow(2, Up(1 - e)) && n * Pow(2, Up(-e - 1)) < d * Pow(2, Up(e + 1))
  {
    hide Pow, BitLength;
    var e := BitLength(n) - BitLength(d);
    assert Up(e - 1) - Up(1 - e) == e - 1 && Up(e + 1) - Up(-e - 1) == e + 1;
    ShiftedBitsOrder(d, Up(e - 1), n, Up(1 - e));
    ShiftedBitsOrder(n, Up(-e - 1), d, Up(e + 1));
  }

  // ---------- out of range ----------

  lemma ScaledInfinity()
    ensures Scaled(INFINITY) == Pow(2, 2098)
  {
    PowHidden();
    PowAdd(2, 52, 2046);
    ScaledParts(2046, HIDDEN);
  }

  /** Everything from 2^1024 on is infinite. */
  lemma LargeIsInfinite(num: nat, den: nat)
    requires den > 0 && num >= den * Pow(2, 1024)
    ensures RoundsTo(num, den, INFINITY)
  {
    hide Pow, Scaled;
    ScaledInfinity();
    ScaledStep(INFINITY - 1);
    PowAdd(2, 1024, 1075);
    PowAdd(2, 1, 2098);
    assert Pow(2, 1) == 2 by {
      PowZero(2);
      PowNext(1, 2, 0);
    }
    PowPositive(2, 1075);
    MulMonotone(den * Pow(2, 1024), num, Pow(2, 1075));
    MulAssociate(den, Pow(2, 1024), Pow(2, 1075));
    MulStrict(Midpoint2(INFINITY - 1), Pow(2, 2099), den);
  }

  /** Everything below 2^-1075 is zero. */
  lemma SmallIsZero(num: nat, den: nat)
    requires den > 0 && num * Pow(2, 1075) < den
    ensures RoundsTo(num, den, 0)
  {
    hide Pow;
    assert Midpoint2(0) == 1 by {
      PowZero(2);
      assert Mantissa(1) == 1 && Scale(1) == 0 && Mantissa(0) == 0 && Scale(0) == 0;
    }
  }
}
