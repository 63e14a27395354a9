/**
 Single-precision arithmetic over the reals: rounding to nearest, ties to even, with a 24-bit
 significand and gradual underflow (IEEE 754-2019, sections 3.4, 4.3.1 and 5.4.1), for the
 non-negative values, far below the overflow threshold, that the decoders meet.
 */
module Single {

  // ---- products with one non-negative factor ----

  lemma ProductMonotone(a: real, b: real, u: real)
    requires a <= b && u >= 0.0
    ensures a * u <= b * u
  {
    assert (b - a) * u >= 0.0;
  }

  lemma ProductReflects(a: real, b: real, u: real)
    requires u > 0.0
    ensures a * u <= b * u ==> a <= b
  {
    if a > b {
      assert (a - b) * u > 0.0;
    }
  }

  function Dist(x: real, y: real): (d: real)
    ensures d >= 0.0
  {
    if x < y then y - x else x - y
  }

  lemma ScaleDist(a: real, b: real, u: real, x: real)
    requires u > 0.0 && b * u == x
    ensures Dist(a * u, x) == Dist(a, b) * u
  {
    if a < b {
      assert (b - a) * u > 0.0;
    } else {
      assert (a - b) * u >= 0.0;
    }
  }

  // ---- powers of two ----

  function Pow2(e: int): (r: real)
    ensures r > 0.0
    decreases if e < 0 then -e else e
  {
    if e == 0 then 1.0 else if e > 0 then 2.0 * Pow2(e - 1) else Pow2(e + 1) / 2.0
  }

  lemma Pow2Next(e: int)
    ensures Pow2(e + 1) == 2.0 * Pow2(e)
  {
  }

  lemma {:induction false} Pow2Monotone(a: int, n: nat)
    ensures Pow2(a) <= Pow2(a + n)
  {
    if n > 0 {
      Pow2Monotone(a, n - 1);
      Pow2Next(a + n - 1);
    }
  }

  lemma Pow2Next4(e: int)
    ensures Pow2(e + 4) == 16.0 * Pow2(e)
  {
    Pow2Next(e); Pow2Next(e + 1); Pow2Next(e + 2); Pow2Next(e + 3);
  }

  /** Pow2(e + 23) and Pow2(e + 24) in units of Pow2(e). */
  lemma Binade(e: int)
    ensures Pow2(e + 23) == 8388608.0 * Pow2(e)
    ensures Pow2(e + 24) == 16777216.0 * Pow2(e)
  {
    Pow2Next4(e); Pow2Next4(e + 4); Pow2Next4(e + 8);
    Pow2Next4(e + 12); Pow2Next4(e + 16); Pow2Next4(e + 20);
    Pow2Next(e + 23);
  }

  // ---- rounding ----

  /** The integer nearest to `q`, the even one of two equally near. */
  function RoundInt(q: real): (n: int)
    ensures -0.5 <= n as real - q <= 0.5
    ensures (n as real - q == 0.5 || q - n as real == 0.5) ==> n % 2 == 0
    ensures q >= 0.0 ==> n >= 0
  {
    var f := q.Floor;
    var d := q - f as real;
    if d < 0.5 || (d == 0.5 && f % 2 == 0) then f else f + 1
  }

  /** The binary exponent of a positive number. */
  function Exponent(x: real): (e: int)
    requires x > 0.0
    ensures Pow2(e) <= x < Pow2(e + 1)
    decreases if x >= 1.0 then x else 4.0 / x
  {
    if x >= 2.0 then Exponent(x / 2.0) + 1
    else if x < 1.0 then
      var e := Exponent(2.0 * x);
      Pow2Next(e - 1);
      e - 1
    else 0
  }

  const EMIN := -126

  /** Exponent of the last significand place around `x`. */
  function UlpExponent(x: real): (e: int)
    requires x >= 0.0
    ensures e >= EMIN - 23
  {
    if x == 0.0 || Exponent(x) < EMIN then EMIN - 23 else Exponent(x) - 23
  }

  function Ulp(x: real): (u: real)
    requires x >= 0.0
    ensures u > 0.0
  {
    Pow2(UlpExponent(x))
  }

  function Significand(x: real): (n: int)
    requires x >= 0.0
    ensures n >= 0 && -0.5 <= n as real - x / Ulp(x) <= 0.5
  {
    assert x / Ulp(x) >= 0.0;
    RoundInt(x / Ulp(x))
  }

  /** The single-precision value of `x`. */
  function Round(x: real): (r: real)
    requires x >= 0.0
    ensures r >= 0.0
  {
    Significand(x) as real * Ulp(x)
  }
}

/** What the rounding function means: it lands on a single-precision value and none is nearer. */
module SingleFacts {
  import opened Single

  /** `y` is a value of the format: at most 24 significant bits, no place below 2^-149. */
  ghost predicate IsFloat(y: real, m: int, e: int) {
    0 <= m <= 0x100_0000 && e >= EMIN - 23 && y == m as real * Pow2(e)
  }

  ghost predicate Representable(y: real) {
    exists m: int, e: int :: IsFloat(y, m, e)
  }

  /**
   `r` is `x` rounded to a whole number `n` of last places `u` = 2^e, where `x` lies below the next
   binade, and at the start of its own or above unless it is subnormal; `q` is x / u.
   */
  ghost predicate Rounded(x: real, r: real, n: int, e: int, u: real, q: real) {
    && e >= EMIN - 23 && u == Pow2(e) && q * u == x && r == n as real * u
    && Dist(n as real, q) <= 0.5 && (Dist(n as real, q) == 0.5 ==> n % 2 == 0)
    && 0.0 <= x < 16777216.0 * u
    && (e > EMIN - 23 ==> 8388608.0 * u <= x)
  }

  lemma UlpExponentFits(x: real, e: int)
    requires x >= 0.0 && e == UlpExponent(x)
    ensures x < Pow2(e + 24)
    ensures e > EMIN - 23 ==> Pow2(e + 23) <= x
  {
    if x > 0.0 && Exponent(x) < EMIN {
      Pow2Monotone(Exponent(x) + 1, e + 24 - (Exponent(x) + 1));
    }
  }

  lemma UlpFits(x: real, e: int, u: real)
    requires x >= 0.0 && e == UlpExponent(x) && u == Pow2(e)
    ensures x < 16777216.0 * u
    ensures e > EMIN - 23 ==> 8388608.0 * u <= x
  {
    UlpExponentFits(x, e);
    Binade(e);
  }

  lemma NearestOrEven(q: real, n: int)
    requires n == RoundInt(q)
    ensures Dist(n as real, q) <= 0.5 && (Dist(n as real, q) == 0.5 ==> n % 2 == 0)
  {
  }

  lemma {:induction false} RoundRounds(x: real) returns (n: int, e: int, u: real, q: real)
    requires x >= 0.0
    ensures Rounded(x, Round(x), n, e, u, q) && e == UlpExponent(x) && n == Significand(x)
  {
    hide Exponent, RoundInt, Pow2, Dist;
    n, e, u := Significand(x), UlpExponent(x), Ulp(x);
    q := Quotient(x, u);
    UlpFits(x, e, u);
    NearestOrEven(q, n);
  }

  lemma QuotientWithin(x: real, u: real, q: real)
    requires u > 0.0 && q * u == x && 0.0 <= x <= 16777216.0 * u
    ensures 0.0 <= q <= 16777216.0
  {
    ProductReflects(0.0, q, u);
    ProductReflects(q, 16777216.0, u);
  }

  lemma IntegerWithin(n: int, q: real)
    requires 0.0 <= q <= 16777216.0 && Dist(n as real, q) <= 0.5
    ensures 0 <= n <= 0x100_0000
  {
  }

  /** Rounding lands on a single-precision value. */
  lemma RoundedIsRepresentable(x: real, r: real, n: int, e: int, u: real, q: real)
    requires Rounded(x, r, n, e, u, q)
    ensures Representable(r) && r >= 0.0
  {
    QuotientWithin(x, u, q);
    IntegerWithin(n, q);
    ProductMonotone(0.0, n as real, u);
    assert IsFloat(r, n, e);
  }

  lemma Quotient(x: real, u: real) returns (q: real)
    requires u > 0.0
    ensures q == x / u && q * u == x
  {
    q := x / u;
  }

  lemma HalfUnit(x: real, u: real, q: real, r: real)
    requires u > 0.0 && q * u == x && Dist(r, q) <= 0.5
    ensures Dist(r * u, x) <= u / 2.0
  {
    hide Dist;
    var d := Dist(r, q);
    ScaleDist(r, q, u, x);
    ProductMonotone(d, 0.5, u);
  }

  lemma {:induction false} NearestInteger(q: real, n: int, m: int)
    requires Dist(n as real, q) <= 0.5
    ensures Dist(n as real, q) <= Dist(m as real, q)
  {
    if m < n {
      assert m as real <= n as real - 1.0;
    } else if m > n {
      assert m as real >= n as real + 1.0;
    }
  }

  lemma NearestUnit(x: real, u: real, q: real, n: int, m: int)
    requires u > 0.0 && q * u == x && Dist(n as real, q) <= 0.5
    ensures Dist(n as real * u, x) <= Dist(m as real * u, x)
  {
    NearestInteger(q, n, m);
    CloserUnit(x, u, q, n as real, m as real);
  }

  lemma CloserUnit(x: real, u: real, q: real, a: real, b: real)
    requires u > 0.0 && q * u == x && Dist(a, q) <= Dist(b, q)
    ensures Dist(a * u, x) <= Dist(b * u, x)
  {
    hide Dist;
    var da, db := Dist(a, q), Dist(b, q);
    ScaleDist(a, q, u, x);
    ScaleDist(b, q, u, x);
    ProductMonotone(da, db, u);
  }

  /** Two units equally far from x are equally far from its quotient. */
  lemma EquallyFar(x: real, u: real, q: real, a: real, b: real, y: real, z: real)
    requires u > 0.0 && q * u == x && y == a * u && z == b * u && Dist(y, x) == Dist(z, x)
    ensures Dist(a, q) == Dist(b, q)
  {
    hide Dist;
    var da, db := Dist(a, q), Dist(b, q);
    ScaleDist(a, q, u, x);
    ScaleDist(b, q, u, x);
    ProductReflects(da, db, u);
    ProductReflects(db, da, u);
  }

  /** Of two different integers equally far from q, both are half a unit away if one is that near. */
  lemma TieIsHalf(q: real, n: int, m: int)
    requires Dist(n as real, q) <= 0.5 && Dist(m as real, q) == Dist(n as real, q) && m != n
    ensures Dist(n as real, q) == 0.5
  {
    if m < n {
      assert m as real <= n as real - 1.0;
    } else {
      assert m as real >= n as real + 1.0;
    }
  }

  lemma HalfTheUnit(m: int, p: real, half: real)
    requires p == 2.0 * half
    ensures m as real * p == (2 * m) as real * half
  {
    assert (2 * m) as real == 2.0 * m as real;
  }

  /** A number on a grid at least as coarse as `e0` is a whole number of units of it. */
  lemma {:induction false} CoarserGrid(m: int, e: int, e0: int) returns (n: int)
    requires e >= e0
    ensures m as real * Pow2(e) == n as real * Pow2(e0)
    decreases e - e0
  {
    if e == e0 {
      n := m;
    } else {
      Pow2Next(e - 1);
      HalfTheUnit(m, Pow2(e), Pow2(e - 1));
      n := CoarserGrid(2 * m, e - 1, e0);
    }
  }

  lemma FinerUnit(e: int, e0: int)
    requires e < e0
    ensures 16777216.0 * Pow2(e) <= 8388608.0 * Pow2(e0)
  {
    Pow2Monotone(e + 1, e0 - e - 1);
    Pow2Next(e);
  }

  lemma FinerGrid(m: int, p: real, u: real)
    requires 0 <= m <= 0x100_0000 && p > 0.0
    requires 16777216.0 * p <= 8388608.0 * u
    ensures m as real * p <= 8388608.0 * u
  {
    ProductMonotone(m as real, 16777216.0, p);
  }

  lemma RoundedIsWithinHalf(x: real, r: real, n: int, e: int, u: real, q: real)
    requires Rounded(x, r, n, e, u, q)
    ensures Dist(r, x) <= u / 2.0
  {
    HalfUnit(x, u, q, n as real);
  }

  /** No worse than any whole number of last places, */
  lemma RoundedIsNearer(x: real, r: real, n: int, e: int, u: real, q: real, k: int)
    requires Rounded(x, r, n, e, u, q)
    ensures Dist(r, x) <= Dist(k as real * u, x)
  {
    NearestUnit(x, u, q, n, k);
  }

  /** and than anything below x's binade, */
  lemma RoundedIsNearerThanBelow(x: real, r: real, n: int, e: int, u: real, q: real, y: real)
    requires Rounded(x, r, n, e, u, q) && e > EMIN - 23 && y <= 8388608.0 * u
    ensures Dist(r, x) <= Dist(y, x)
  {
    var k := 0x80_0000;
    assert k as real == 8388608.0;
    RoundedIsNearer(x, r, n, e, u, q, k);
  }

  /** and every single-precision number is one or the other. */
  lemma OnGridOrBelow(y: real, m: int, ey: int, e: int, u: real) returns (k: int)
    requires IsFloat(y, m, ey) && u == Pow2(e)
    ensures y == k as real * u || (e > EMIN - 23 && y <= 8388608.0 * u)
  {
    hide Pow2;
    k := 0;
    if ey >= e {
      k := CoarserGrid(m, ey, e);
    } else {
      FinerUnit(ey, e);
      FinerGrid(m, Pow2(ey), u);
    }
  }

  lemma RoundedIsNearest(x: real, r: real, n: int, e: int, u: real, q: real, y: real, k: int)
    requires Rounded(x, r, n, e, u, q)
    requires y == k as real * u || (e > EMIN - 23 && y <= 8388608.0 * u)
    ensures Dist(r, x) <= Dist(y, x)
  {
    if e > EMIN - 23 && y <= 8388608.0 * u {
      RoundedIsNearerThanBelow(x, r, n, e, u, q, y);
    } else {
      RoundedIsNearer(x, r, n, e, u, q, k);
    }
  }

  /** A number of the grid equally near is a tie, and then the significand is even. */
  lemma TieOnGrid(x: real, r: real, n: int, e: int, u: real, q: real, y: real, k: int)
    requires Rounded(x, r, n, e, u, q)
    requires y == k as real * u && Dist(y, x) == Dist(r, x) && y != r
    ensures n % 2 == 0
  {
    hide Dist, Pow2;
    EquallyFar(x, u, q, k as real, n as real, y, r);
    TieIsHalf(q, n, k);
  }

  /** Nothing below x's binade is equally near, unless it is the binade's own start. */
  lemma NoTieBelow(x: real, r: real, n: int, e: int, u: real, q: real, y: real)
    requires Rounded(x, r, n, e, u, q) && e > EMIN - 23 && y <= 8388608.0 * u
    requires Dist(y, x) == Dist(r, x)
    ensures y == 0x80_0000 as real * u
  {
    var k := 0x80_0000;
    assert k as real == 8388608.0;
    RoundedIsNearer(x, r, n, e, u, q, k);
  }

  lemma TieIsEven(x: real, r: real, n: int, e: int, u: real, q: real, y: real, k: int)
    requires Rounded(x, r, n, e, u, q)
    requires y == k as real * u || (e > EMIN - 23 && y <= 8388608.0 * u)
    requires Dist(y, x) == Dist(r, x) && y != r
    ensures n % 2 == 0
  {
    hide Dist, Pow2, Rounded;
    if y == k as real * u {
      TieOnGrid(x, r, n, e, u, q, y, k);
    } else {
      NoTieBelow(x, r, n, e, u, q, y);
      TieOnGrid(x, r, n, e, u, q, y, 0x80_0000);
    }
  }

  /** Round to nearest, ties to even, on every non-negative real. */
  lemma {:induction false} RoundIsNearest(x: real)
    requires x >= 0.0
    ensures Representable(Round(x)) && Round(x) >= 0.0
    ensures forall y :: Representable(y) ==> Dist(Round(x), x) <= Dist(y, x)
    ensures forall y :: Representable(y) && y != Round(x) && Dist(y, x) == Dist(Round(x), x) ==>
              Significand(x) % 2 == 0
  {
    hide Round, Rounded, Dist, Pow2, Significand, UlpExponent;
    var n, e, u, q := RoundRounds(x);
    UnitOf(x, Round(x), n, e, u, q);
    RoundedIsRepresentable(x, Round(x), n, e, u, q);
    forall y | Representable(y)
      ensures Dist(Round(x), x) <= Dist(y, x)
      ensures y != Round(x) && Dist(y, x) == Dist(Round(x), x) ==> n % 2 == 0
    {
      var m, ey :| IsFloat(y, m, ey);
      var k := OnGridOrBelow(y, m, ey, e, u);
      RoundedIsNearest(x, Round(x), n, e, u, q, y, k);
      if y != Round(x) && Dist(y, x) == Dist(Round(x), x) {
        TieIsEven(x, Round(x), n, e, u, q, y, k);
      }
    }
  }

  lemma UnitOf(x: real, r: real, n: int, e: int, u: real, q: real)
    requires Rounded(x, r, n, e, u, q)
    ensures u == Pow2(e)
  {
  }

  /** What is representable is not changed. */
  lemma RoundIsExactOn(x: real)
    requires x >= 0.0 && Representable(x)
    ensures Round(x) == x
  {
    RoundIsNearest(x);
    assert Dist(Round(x), x) <= Dist(x, x);
  }

  // ---- error bounds ----

  /** `x` times the unit roundoff, 2^-24. */
  function Roundoff(x: real): real {
    x / 16777216.0
  }

  /** Half of the smallest subnormal number, 2^-150. */
  const ETA: real := 1.0 / 1427247692705959881058285969449495136382746624.0
  /** The smallest normal number, 2^-126. */
  const MIN_NORMAL: real := 1.0 / 85070591730234615865843651857942052864.0

  /** The last place of the subnormal range, 2^-149. */
  lemma SmallestUlp(e: int)
    requires e == EMIN - 23
    ensures Pow2(e) == 2.0 * ETA
    ensures 8388608.0 * Pow2(e) == MIN_NORMAL
  {
    Binade(e); Binade(e + 24); Binade(e + 48); Binade(e + 72); Binade(e + 96); Binade(e + 120);
    Pow2Next4(e + 144);
    Pow2Next(e + 148);
    assert e + 149 == 0;
  }

  /** Relative error 2^-24 for normal results, and at most 2^-150 more for subnormal ones. */
  lemma RoundingError(x: real)
    requires x >= 0.0
    ensures Dist(Round(x), x) <= Roundoff(x) + ETA
    ensures x >= MIN_NORMAL ==> Dist(Round(x), x) <= Roundoff(x)
  {
    var n, e, u, q := RoundRounds(x);
    RoundedIsWithinHalf(x, Round(x), n, e, u, q);
    if e == EMIN - 23 {
      SmallestUlp(e);
    }
  }

  lemma UlpBelow1024(e: int)
    requires e <= -14
    ensures Pow2(e) <= 1.0 / 16384.0
  {
    var f := -14;
    Pow2Monotone(e, f - e);
    Pow2Next4(f); Pow2Next4(f + 4); Pow2Next4(f + 8);
    Pow2Next(f + 12); Pow2Next(f + 13);
    assert f + 14 == 0;
  }

  lemma ExponentBelow1024(x: real)
    requires 0.0 <= x < 1024.0
    ensures UlpExponent(x) <= -14
  {
    if x > 0.0 && Exponent(x) >= 10 {
      var ten := 10;
      Pow2Monotone(ten, Exponent(x) - ten);
      Pow2Next4(ten - 4); Pow2Next4(ten - 8); Pow2Next(ten - 9); Pow2Next(ten - 10);
    }
  }

  /** Below 1024 a last place is at most 2^-14, so half of one at most 2^-15. */
  lemma {:induction false} HalfUlpBelow1024(x: real)
    requires 0.0 <= x < 1024.0
    ensures Dist(Round(x), x) <= 1.0 / 32768.0
  {
    hide Round, Rounded, Dist, Pow2, UlpExponent;
    var n, e, u, q := RoundRounds(x);
    UnitOf(x, Round(x), n, e, u, q);
    RoundedIsWithinHalf(x, Round(x), n, e, u, q);
    ExponentBelow1024(x);
    UlpBelow1024(e);
  }
}
