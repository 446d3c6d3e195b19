/** IEEE 754 binary64 magnitudes as bit patterns, and round-half-even (section 4.3.1 of
    IEEE 754-2008) stated on rational numbers. */
module Binary64 {
  import opened Powers

  const HIDDEN: nat := 0x10_0000_0000_0000        // 2^52
  const INFINITY: nat := 0x7ff0_0000_0000_0000
  const NAN: nat := 0x7ff8_0000_0000_0000
  const SIGN: nat := 0x8000_0000_0000_0000

  /** The mantissa of a magnitude pattern, with the hidden bit when there is one. */
  function Mantissa(m: nat): nat {
    if m < HIDDEN then m else m % HIDDEN + HIDDEN
  }

  /** Powers of two above the smallest unit, 2^-1074. */
  function Scale(m: nat): nat {
    if m < HIDDEN then 0 else m / HIDDEN - 1
  }

  /** The value of magnitude pattern `m` in units of 2^-1074; the pattern of infinity stands for
      2^1024, the first value out of range. */
  function Scaled(m: nat): nat {
    Mantissa(m) * Pow(2, Scale(m))
  }

  lemma PowHidden()
    ensures Pow(2, 52) == HIDDEN
  {
    assert Pow(2, 13) == 8192;
    PowAdd(2, 13, 13);
    PowAdd(2, 26, 26);
  }

  /** A pattern put together from an exponent and a mantissa has the value they say. */
  lemma ScaledParts(scale: nat, mantissa: nat)
    requires mantissa <= 2 * HIDDEN && (scale == 0 || HIDDEN <= mantissa)
    ensures Scaled(scale * HIDDEN + mantissa) == mantissa * Pow(2, scale)
  {
    hide Pow, Mantissa, Scale;
    PartsOf(scale, mantissa);
    if mantissa == 2 * HIDDEN {
      PowNext(1, 2, scale);
      MulAssociate(HIDDEN, 2, Pow(2, scale));
    }
  }

  lemma PartsOf(scale: nat, mantissa: nat)
    requires mantissa <= 2 * HIDDEN && (scale == 0 || HIDDEN <= mantissa)
    ensures var m := scale * HIDDEN + mantissa;
            && Mantissa(m) == (if mantissa == 2 * HIDDEN then HIDDEN else mantissa)
            && Scale(m) == (if mantissa == 2 * HIDDEN then scale + 1 else scale)
  {
    var m := scale * HIDDEN + mantissa;
    if mantissa == 2 * HIDDEN {
      DivUnique(m, HIDDEN, scale + 2, 0);
    } else if mantissa >= HIDDEN {
      DivUnique(m, HIDDEN, scale + 1, mantissa - HIDDEN);
    }
  }

  /** Neighbouring patterns differ by one unit of the lower one. */
  lemma ScaledStep(m: nat)
    ensures Scaled(m + 1) == Scaled(m) + Pow(2, Scale(m)) > Scaled(m)
  {
    var scale, mantissa := Scale(m), Mantissa(m);
    assert m == scale * HIDDEN + mantissa;
    ScaledParts(scale, mantissa);
    ScaledParts(scale, mantissa + 1);
    MulDistribute(mantissa, 1, Pow(2, scale));
    PowPositive(2, scale);
  }

  lemma {:induction false} ScaledMonotone(m: nat, n: nat)
    requires m <= n
    ensures Scaled(m) <= Scaled(n) && (m < n ==> Scaled(m) < Scaled(n))
    decreases n - m
  {
    if m < n {
      ScaledStep(n - 1);
      ScaledMonotone(m, n - 1);
    }
  }

  // ---------- rounding ----------

  /** Twice the boundary between patterns `m` and `m + 1`, in units of 2^-1074. */
  function Midpoint2(m: nat): nat {
    Scaled(m) + Scaled(m + 1)
  }

  /** The quotient `num / den` is at least the boundary below `m`, which belongs to `m` only when
      `m` is even. */
  predicate AboveLower(num: nat, den: nat, m: nat) {
    m == 0 ||
    (Midpoint2(m - 1) * den <= num * Pow(2, 1075) && (Midpoint2(m - 1) * den == num * Pow(2, 1075) ==> m % 2 == 0))
  }

  predicate BelowUpper(num: nat, den: nat, m: nat) {
    m == INFINITY ||
    (num * Pow(2, 1075) <= Midpoint2(m) * den && (num * Pow(2, 1075) == Midpoint2(m) * den ==> m % 2 == 0))
  }

  /** `num / den` rounds to the magnitude pattern `m`: ties go to the even pattern, and everything
      from halfway between the largest finite value and 2^1024 on is infinite. */
  predicate RoundsTo(num: nat, den: nat, m: nat) {
    den > 0 && m <= INFINITY && AboveLower(num, den, m) && BelowUpper(num, den, m)
  }

  lemma MidpointsApart(m: nat, n: nat)
    requires m < n
    ensures Midpoint2(m) <= Midpoint2(n - 1) && (m + 1 < n ==> Midpoint2(m) < Midpoint2(n - 1))
  {
    ScaledMonotone(m, n - 1);
    ScaledMonotone(m + 1, n);
  }

  /** A quotient rounds to one pattern only. */
  lemma RoundsToUnique(num: nat, den: nat, m: nat, n: nat)
    requires RoundsTo(num, den, m) && RoundsTo(num, den, n)
    ensures m == n
  {
    if m < n {
      RoundsToBelow(num, den, m, n);
    } else if n < m {
      RoundsToBelow(num, den, n, m);
    }
  }

  lemma RoundsToBelow(num: nat, den: nat, m: nat, n: nat)
    requires RoundsTo(num, den, m) && m < n <= INFINITY
    ensures !RoundsTo(num, den, n)
  {
    hide Scaled, Pow;
    MidpointsApart(m, n);
    MulMonotone(Midpoint2(m), Midpoint2(n - 1), den);
    if m + 1 < n {
      MulStrict(Midpoint2(m), Midpoint2(n - 1), den);
    }
  }

  function Distance(a: int, b: int): nat {
    if a < b then b - a else a - b
  }

  /** What `RoundsTo` means: no magnitude in range is nearer, and on a tie the chosen one is even. */
  lemma RoundsToNearest(num: nat, den: nat, m: nat, n: nat)
    requires RoundsTo(num, den, m) && n <= INFINITY && n != m
    ensures Distance(2 * Scaled(m) * den, num * Pow(2, 1075)) <= Distance(2 * Scaled(n) * den, num * Pow(2, 1075))
    ensures Distance(2 * Scaled(m) * den, num * Pow(2, 1075)) == Distance(2 * Scaled(n) * den, num * Pow(2, 1075)) ==> m % 2 == 0
  {
    hide Pow, Scaled;
    var x := num * Pow(2, 1075);
    if n > m {
      MidpointsApart(m, n);
      ScaledMonotone(m, m + 1);
      ScaledMonotone(m + 1, n);
      NearestAbove(Scaled(m), Scaled(m + 1), Scaled(n), den, x);
    } else {
      MidpointsApart(n, m);
      ScaledMonotone(m - 1, m);
      ScaledMonotone(n, m - 1);
      NearestBelow(Scaled(m), Scaled(m - 1), Scaled(n), den, x);
    }
  }

  lemma NearestAbove(s: nat, next: nat, t: nat, den: nat, x: nat)
    requires s < next <= t && den > 0 && x <= (s + next) * den
    ensures Distance(2 * s * den, x) <= Distance(2 * t * den, x)
    ensures Distance(2 * s * den, x) == Distance(2 * t * den, x) ==> x == (s + next) * den
  {
    MulStrict(s, next, den);
    MulMonotone(next, t, den);
    MulDistribute(s, next, den);
    assert 2 * s * den == 2 * (s * den) && 2 * t * den == 2 * (t * den);
  }

  lemma NearestBelow(s: nat, below: nat, t: nat, den: nat, x: nat)
    requires t <= below < s && den > 0 && (below + s) * den <= x
    ensures Distance(2 * s * den, x) <= Distance(2 * t * den, x)
    ensures Distance(2 * s * den, x) == Distance(2 * t * den, x) ==> x == (below + s) * den
  {
    MulStrict(below, s, den);
    MulMonotone(t, below, den);
    MulDistribute(below, s, den);
    assert 2 * s * den == 2 * (s * den) && 2 * t * den == 2 * (t * den);
  }
}
