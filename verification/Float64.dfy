/** Arithmetic in `float64` on natural numbers: the nearest value of 53 significant bits, ties to even. */
module Float64 {
  import opened Bytes
  import opened Network

  /** A second in nanoseconds. */
  const NANOS := 1_000_000_000

  /** The distance of adjacent `float64` values, of 53 significant bits, at a natural number, if that is at least one. */
  function Ulp(m: nat): (p: nat)
    ensures p > 0
  {
    if m < 0x20_0000_0000_0000 then 1 else 2 * Ulp(m / 2)
  }

  lemma {:induction false} UlpFits(m: nat)
    ensures m < 0x20_0000_0000_0000 * Ulp(m) && (Ulp(m) > 1 ==> m >= 0x10_0000_0000_0000 * Ulp(m))
  {
    if m >= 0x20_0000_0000_0000 {
      UlpFits(m / 2);
    }
  }

  lemma ModBelow(m: nat, p: nat)
    requires p > 0
    ensures 0 <= m % p < p && m % p <= m
  {
    assert m == p * (m / p) + m % p;
    assert p * (m / p) >= 0;
  }

  /** The nearest multiple of `p`, and from half way the even one. */
  function RoundTo(m: nat, p: nat): nat
    requires p > 0
  {
    ModBelow(m, p);
    var r := m % p;
    if 2 * r < p || (2 * r == p && m / p % 2 == 0) then m - r else m - r + p
  }

  /** Conversion to `float64`. */
  function Float(m: nat): nat { RoundTo(m, Ulp(m)) }

  lemma Regroup(a: nat, c: nat, p: nat)
    ensures a * (c * p) == p * (a * c) == (a * c) * p
  {
  }

  /** A power of two that scales the number into the range of exact integers is a multiple of its last place. */
  lemma {:induction false} UlpDivides(m: nat, k: nat) returns (c: nat)
    requires m < 0x20_0000_0000_0000 * Pow2(k)
    ensures c >= 1 && Pow2(k) == c * Ulp(m)
    decreases k
  {
    if m < 0x20_0000_0000_0000 {
      c := Pow2(k);
    } else {
      c := UlpDivides(m / 2, k - 1);
      Regroup(2, c, Ulp(m / 2));
      Regroup(c, 2, Ulp(m / 2));
    }
  }

  /** Between two values that are equally near, the even one is taken. */
  lemma TiesToEven(m: nat)
    requires 2 * (m % Ulp(m)) == Ulp(m)
    ensures Float(m) % (2 * Ulp(m)) == 0
  {
    var p := Ulp(m);
    DivMod(m, p);
    TieIsEven(m, p, m / p, m % p);
  }

  lemma TieIsEven(m: nat, p: nat, q: nat, r: nat)
    requires p > 0 && m == q * p + r && 2 * r == p && r == m % p && q == m / p
    ensures RoundTo(m, p) % (2 * p) == 0
  {
    if q % 2 == 0 {
      assert RoundTo(m, p) == q * p;
      EvenMultiple(q / 2, p);
    } else {
      assert RoundTo(m, p) == q * p + p == (q + 1) * p;
      EvenMultiple((q + 1) / 2, p);
    }
  }

  lemma EvenMultiple(h: nat, p: nat)
    requires p > 0
    ensures 2 * h * p % (2 * p) == 0
  {
    Regroup(2, h, p);
    assert 2 * h * p == (2 * p) * h + 0;
    ModUnique(2 * h * p, 2 * p, h, 0);
  }

  /** A number of at most 53 significant bits is converted exactly. */
  lemma FloatIsExact(m: nat, a: nat, k: nat)
    requires m == a * Pow2(k) && a < 0x20_0000_0000_0000
    ensures Float(m) == m
  {
    Scaled(a, Pow2(k));
    var c := UlpDivides(m, k);
    Regroup(a, c, Ulp(m));
    ModUnique(m, Ulp(m), a * c, 0);
  }

  lemma Scaled(a: nat, q: nat)
    requires a < 0x20_0000_0000_0000 && q > 0
    ensures a * q < 0x20_0000_0000_0000 * q
  {
    assert (0x20_0000_0000_0000 - a) * q > 0;
  }

  function Distance(a: int, b: int): int { if a > b then a - b else b - a }

  lemma DivMod(m: nat, p: nat)
    requires p > 0
    ensures m == m / p * p + m % p && m % p < p
  {
  }

  lemma MultiplesApart(t: nat, k: nat, p: nat)
    ensures k <= t ==> k * p <= t * p
    ensures k >= t + 1 ==> k * p >= t * p + p
  {
    if k <= t {
      assert t * p == k * p + (t - k) * p;
    } else {
      assert k * p == t * p + p + (k - t - 1) * p;
    }
  }

  lemma NearestMultiple(m: nat, p: nat, k: nat)
    requires p > 0
    ensures Distance(RoundTo(m, p), m) <= Distance(k * p, m)
  {
    DivMod(m, p);
    MultiplesApart(m / p, k, p);
  }

  lemma CoarserIsMultiple(m: nat, p: nat, q: nat, c: nat)
    requires p > 0
    ensures Distance(RoundTo(m, p), m) <= Distance(q * (c * p), m)
  {
    Regroup(q, c, p);
    NearestMultiple(m, p, q * c);
  }

  lemma FinerIsBelow(m: nat, p: nat, q: nat, s: nat, c: nat)
    requires s > 0 && q < 0x20_0000_0000_0000 && c >= 1 && p == c * (2 * s) && 0x10_0000_0000_0000 * p <= m
    ensures Distance(RoundTo(m, p), m) <= Distance(q * s, m)
  {
    NearestMultiple(m, p, 0x10_0000_0000_0000);
    Scaled(q, s);
    assert p >= 2 * s by {
      MultiplesApart(c, 1, 2 * s);
    }
  }

  /** No other number of at most 53 significant bits is closer than the one that `Float` returns. */
  lemma FloatIsNearest(m: nat, q: nat, j: nat)
    requires q < 0x20_0000_0000_0000
    ensures Distance(Float(m), m) <= Distance(q * Pow2(j), m)
  {
    var i := UlpIsPower(m);
    if j >= i {
      var c := PowersDivide(i, j);
      CoarserIsMultiple(m, Pow2(i), q, c);
    } else {
      var c := PowersDivide(j + 1, i);
      UlpFits(m);
      assert Ulp(m) > 1;
      FinerIsBelow(m, Pow2(i), q, Pow2(j), c);
    }
  }

  lemma {:induction false} UlpIsPower(m: nat) returns (i: nat)
    ensures Ulp(m) == Pow2(i)
  {
    if m < 0x20_0000_0000_0000 {
      i := 0;
    } else {
      i := UlpIsPower(m / 2);
      i := i + 1;
    }
  }

  lemma {:induction false} PowersDivide(i: nat, j: nat) returns (c: nat)
    requires i <= j
    ensures c >= 1 && Pow2(j) == c * Pow2(i)
    decreases j
  {
    if i == j {
      c := 1;
    } else {
      c := PowersDivide(i, j - 1);
      assert 2 * (c * Pow2(i)) == 2 * c * Pow2(i);
      c := 2 * c;
    }
  }

  /** Below 2^53 times a power of two, adjacent values are no further apart than that power. */
  lemma UlpBound(m: nat, k: nat)
    requires m < 0x20_0000_0000_0000 * Pow2(k)
    ensures Ulp(m) <= Pow2(k)
  {
    var c := UlpDivides(m, k);
    assert c * Ulp(m) == Ulp(m) + (c - 1) * Ulp(m);
  }

  /** The power of two, as an exponent, that scales a number of nanoseconds, taken as a fraction of a second, to 53 bits. */
  function Scale(nsec: nat): nat
    requires 0 < nsec < 0x20_0000_0000_0000 * NANOS
    decreases 0x20_0000_0000_0000 * NANOS - nsec
  {
    if nsec >= 0x10_0000_0000_0000 * NANOS then 0 else 1 + Scale(2 * nsec)
  }

  lemma {:induction false} ScaleFits(nsec: nat)
    requires 0 < nsec < 0x20_0000_0000_0000 * NANOS
    ensures 0x10_0000_0000_0000 * NANOS <= nsec * Pow2(Scale(nsec)) < 0x20_0000_0000_0000 * NANOS
    decreases 0x20_0000_0000_0000 * NANOS - nsec
  {
    if nsec < 0x10_0000_0000_0000 * NANOS {
      ScaleFits(2 * nsec);
      Regroup(nsec, 2, Pow2(Scale(2 * nsec)));
    }
  }

  /** The quotient of a number of nanoseconds by a billion, in units of `1 / p`. */
  function Fraction(nsec: nat, p: nat): nat { Whole(RoundTo(nsec * p, NANOS), NANOS) }

  function Whole(m: nat, p: nat): nat
    requires p > 0
  {
    m / p
  }

  /** The sum of seconds and such a fraction, without what is behind the point. */
  function Added(sec: nat, fraction: nat, p: nat): nat
    requires p > 0
  {
    Whole(Float(sec * p + fraction), p)
  }

  /** The fraction `n / p` billionths is scaled up to 53 bits and rounded, and added to the seconds. */
  function Summed(sec: nat, n: nat, p: nat): nat
    requires n > 0 && p > 0
    decreases 0x10_0000_0000_0000 * NANOS - n
  {
    if n < 0x10_0000_0000_0000 * NANOS then Summed(sec, 2 * n, 2 * p)
    else Added(sec, Whole(RoundTo(n, NANOS), NANOS), p)
  }

  /**
   `uint32(d.Seconds())` before it is cut to 32 bits: the fraction of a second is rounded, the sum is rounded
   once more, and what is behind the point is dropped. The seconds themselves, of any 64-bit duration, are exact.
   */
  function Seconds(d: nat): nat { if d % NANOS == 0 then d / NANOS else Summed(d / NANOS, d % NANOS, 1) }

  lemma {:induction false} SummedIs(sec: nat, n: nat, p: nat)
    requires 0 < n < 0x20_0000_0000_0000 * NANOS && p > 0
    ensures Summed(sec, n, p) == Added(sec, Fraction(n, Pow2(Scale(n))), p * Pow2(Scale(n)))
    decreases 0x20_0000_0000_0000 * NANOS - n
  {
    if n < 0x10_0000_0000_0000 * NANOS {
      SummedIs(sec, 2 * n, 2 * p);
      Regroup(n, 2, Pow2(Scale(2 * n)));
      Regroup(p, 2, Pow2(Scale(2 * n)));
    }
  }

  lemma SecondsAre(d: nat)
    requires d % NANOS != 0
    ensures var p := Pow2(Scale(d % NANOS)); Seconds(d) == Added(d / NANOS, Fraction(d % NANOS, p), p)
  {
    SummedIs(d / NANOS, d % NANOS, 1);
  }

  lemma QuotientBetween(f: nat, p: nat, q: nat, a: nat, b: nat)
    requires q * p <= f < q * p + p
    ensures a * p <= f ==> a <= q
    ensures f <= b * p ==> q <= b
    ensures f < b * p ==> q < b
  {
    MultiplesApart(q, a, p);
    MultiplesApart(q, b, p);
  }

  lemma WholeBetween(f: nat, p: nat, a: nat, b: nat)
    requires p > 0
    ensures a * p <= f ==> a <= Whole(f, p)
    ensures f <= b * p ==> Whole(f, p) <= b
    ensures f < b * p ==> Whole(f, p) < b
  {
    DivMod(f, p);
    QuotientBetween(f, p, Whole(f, p), a, b);
  }

  lemma FractionBelow(nsec: nat, p: nat)
    requires nsec < NANOS
    ensures Fraction(nsec, p) <= p
  {
    assert nsec * p <= NANOS * p by {
      MultiplesApart(NANOS, nsec, p);
    }
    NearestMultiple(nsec * p, NANOS, p);
    WholeBetween(RoundTo(nsec * p, NANOS), NANOS, 0, p);
  }

  /** Rounding does not cross a number of few bits. */
  lemma FloatBetween(m: nat, a: nat, b: nat, k: nat)
    requires a < 0x20_0000_0000_0000 && b < 0x20_0000_0000_0000 && a * Pow2(k) <= m <= b * Pow2(k)
    ensures a * Pow2(k) <= Float(m) <= b * Pow2(k)
  {
    FloatIsNearest(m, a, k);
    FloatIsNearest(m, b, k);
  }

  lemma AddedBetween(sec: nat, fraction: nat, k: nat)
    requires sec + 1 < 0x20_0000_0000_0000 && fraction <= Pow2(k)
    ensures sec <= Added(sec, fraction, Pow2(k)) <= sec + 1
  {
    var p := Pow2(k);
    var m: nat := sec * p + fraction;
    assert (sec + 1) * p == sec * p + p;
    FloatBetween(m, sec, sec + 1, k);
    WholeBetween(Float(m), p, sec, sec + 1);
  }

  /** Of a fraction of a second, either nothing is left or a second is made. */
  lemma SecondsNear(d: nat)
    requires d / NANOS + 1 < 0x20_0000_0000_0000
    ensures d / NANOS <= Seconds(d) <= d / NANOS + 1
  {
    var sec, nsec := d / NANOS, d % NANOS;
    if nsec != 0 {
      SecondsAre(d);
      FractionBelow(nsec, Pow2(Scale(nsec)));
      AddedBetween(sec, Fraction(nsec, Pow2(Scale(nsec))), Scale(nsec));
    }
  }

  lemma {:induction false} PowShift(k: nat, i: nat)
    requires i <= k
    ensures Pow2(k) == Pow2(i) * Pow2(k - i)
    decreases i
  {
    if i > 0 {
      PowShift(k, i - 1);
      Regroup(Pow2(i - 1), 2, Pow2(k - i));
    }
  }

  lemma PowGrows(i: nat, j: nat)
    requires i <= j
    ensures Pow2(i) <= Pow2(j)
  {
    var c := PowersDivide(i, j);
    MultiplesApart(c, 1, Pow2(i));
  }

  lemma SomePowers()
    ensures Pow2(25) == 0x200_0000 && Pow2(29) == 0x2000_0000 && Pow2(53) == 0x20_0000_0000_0000
  {
    assert Pow2(5) == 0x20 && Pow2(8) == 0x100 && Pow2(9) == 0x200 && Pow2(10) == 0x400;
    PowShift(20, 10);
    PowShift(25, 20);
    PowShift(28, 20);
    PowShift(29, 20);
    PowShift(53, 25);
  }

  /** A power of two of that size is a multiple of a smaller one. */
  lemma Shifted(k: nat)
    requires Pow2(k) >= 0x10_0000_0000_0000
    ensures k >= 29 && Pow2(k) == 0x2000_0000 * Pow2(k - 29)
  {
    SomePowers();
    if k < 29 {
      PowGrows(k, 29);
      assert false;
    }
    PowShift(k, 29);
  }

  lemma ScaleIsLarge(nsec: nat)
    requires 0 < nsec < NANOS
    ensures Pow2(Scale(nsec)) >= 0x10_0000_0000_0000
  {
    ScaleFits(nsec);
    MultiplesApart(NANOS, nsec, Pow2(Scale(nsec)));
  }

  /** A fraction of whole nanoseconds stays away from the next second. */
  lemma FractionGap(nsec: nat, p: nat)
    requires nsec < NANOS
    ensures 2 * NANOS * (p - Fraction(nsec, p)) >= 2 * p - NANOS
  {
    var x, f := nsec * p, RoundTo(nsec * p, NANOS);
    assert x <= NANOS * p - p by {
      MultiplesApart(NANOS - 1, nsec, p);
    }
    DivMod(f, NANOS);
  }

  lemma BelowNext(sec: nat, fraction: nat, p: nat, r: nat)
    requires sec < 0x100_0000 && p == 0x2000_0000 * r && 2 * (p - fraction) > r
    ensures sec * p + fraction < 0x20_0000_0000_0000 * r
    ensures 2 * (sec * p + fraction) + r < 2 * ((sec + 1) * p)
  {
    MultiplesApart(0x100_0000, sec + 1, p);
    assert (sec + 1) * p == sec * p + p;
  }

  lemma AddedBelow(sec: nat, fraction: nat, k: nat, r: nat)
    requires sec < 0x100_0000 && k >= 29 && Pow2(k) == 0x2000_0000 * Pow2(k - 29) && r == Pow2(k - 29)
    requires 2 * (Pow2(k) - fraction) > r
    ensures Added(sec, fraction, Pow2(k)) == sec
  {
    AddedBetween(sec, fraction, k);
    var m: nat := sec * Pow2(k) + fraction;
    BelowNext(sec, fraction, Pow2(k), r);
    UlpBound(m, k - 29);
    WholeBetween(Float(m), Pow2(k), 0, sec + 1);
  }

  /** Below 2^24 seconds, more than half a year, seconds are rounded down. */
  lemma SecondsBelow(d: nat)
    requires d / NANOS < 0x100_0000
    ensures Seconds(d) == d / NANOS
  {
    var sec, nsec := d / NANOS, d % NANOS;
    if nsec != 0 {
      SecondsAre(d);
      var k := Scale(nsec);
      ScaleIsLarge(nsec);
      Shifted(k);
      FractionGap(nsec, Pow2(k));
      AddedBelow(sec, Fraction(nsec, Pow2(k)), k, Pow2(k - 29));
    }
  }

  lemma {:induction false} ScaleIs(nsec: nat, k: nat)
    requires 0 < nsec && 0x10_0000_0000_0000 * NANOS <= nsec * Pow2(k) < 0x20_0000_0000_0000 * NANOS
    ensures nsec < 0x20_0000_0000_0000 * NANOS && Scale(nsec) == k
    decreases k
  {
    MultiplesApart(Pow2(k), 1, nsec);
    if k > 0 {
      Regroup(nsec, 2, Pow2(k - 1));
      MultiplesApart(Pow2(k - 1), 1, 2 * nsec);
      ScaleIs(2 * nsec, k - 1);
    }
  }

  lemma {:induction false} UlpIs(m: nat, k: nat)
    requires 0x10_0000_0000_0000 * Pow2(k) <= m < 0x20_0000_0000_0000 * Pow2(k)
    ensures Ulp(m) == Pow2(k)
    decreases k
  {
    if k > 0 {
      UlpIs(m / 2, k - 1);
    }
  }

  lemma SomeFraction()
    ensures Fraction(999_999_999, 0x20_0000_0000_0000) == 9_007_199_245_733_793
  {
  }

  lemma SomeRounding(m: nat, p: nat)
    requires m == 0x100_0000 * 0x20_0000_0000_0000 + 9_007_199_245_733_793 && p == 0x200_0000
    ensures RoundTo(m, p) == 0x100_0001 * 0x20_0000_0000_0000
  {
    ModUnique(m, p, 0x100_0001 * 0x1000_0000 - 1, 9_007_199_245_733_793 - 0x20_0000_0000_0000 + p);
  }

  lemma SomeSum(k: nat, j: nat)
    requires Pow2(k) == 0x20_0000_0000_0000 && Pow2(j) == 0x200_0000
    ensures Added(0x100_0000, Fraction(999_999_999, Pow2(k)), Pow2(k)) == 0x100_0001
  {
    SomeFraction();
    var m := 0x100_0000 * 0x20_0000_0000_0000 + 9_007_199_245_733_793;
    UlpIs(m, j);
    SomeRounding(m, Pow2(j));
  }

  lemma RoundsUp(d: nat, sec: nat, nsec: nat, k: nat, j: nat)
    requires Pow2(k) == 0x20_0000_0000_0000 && Pow2(j) == 0x200_0000
    requires d / NANOS == sec == 0x100_0000 && d % NANOS == nsec == 999_999_999
    ensures Seconds(d) == 0x100_0001
  {
    ScaleIs(nsec, k);
    SomeSum(k, j);
    SecondsAre(d);
  }

  /** That bound cannot be raised: there is a duration of 2^24 seconds and a fraction that is rounded up. */
  lemma SecondsRoundUp(d: nat)
    requires d == 0x100_0001 * NANOS - 1
    ensures d / NANOS == 0x100_0000 && Seconds(d) == 0x100_0001
  {
    SomePowers();
    RoundsUp(d, d / NANOS, d % NANOS, 53, 25);
  }
}
