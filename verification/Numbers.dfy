/** The numeric payloads: what convert_number and its siblings compute, and how exact they are. */
module Numbers {
  import opened Bytes
  import opened Single
  import opened SingleFacts

  // ---- FLOAT: magnitude n, to be divided by 10^k ----

  /** The value the division loop holds after `k` rounds, each one rounded to single precision. */
  function Quotient10(n: nat, k: nat): (p: real)
    ensures p >= 0.0
  {
    if k == 0 then Round(n as real) else Round(Quotient10(n, k - 1) / 10.0)
  }

  function Signed(p: real, sign: byte): real {
    if sign == 1 then -p else p
  }

  /** convert_number, on the four bytes copied out of the message. */
  method ConvertNumber(number: seq<byte>, point: byte, sign: byte) returns (p: real)
    requires |number| == 4
    ensures p == Signed(Quotient10(FromBe32(number), point), sign)
  {
    p := Round(FromBe32(number) as real);
    var k: int := 0;
    while k < point
      invariant 0 <= k <= point
      invariant p == Quotient10(FromBe32(number), k)
    {
      p := Round(p / 10.0);
      k := k + 1;
    }
    if sign == 1 {
      p := -p;
    }
  }

  function Pow10(k: nat): (p: nat)
    ensures p >= 1
  {
    if k == 0 then 1 else 10 * Pow10(k - 1)
  }

  /** The published number without its sign, n / 10^k. */
  function Decimal(n: nat, k: nat): real {
    n as real / Pow10(k) as real
  }

  /** The same, one exact division after the other. */
  function Exact(n: nat, k: nat): (x: real)
    ensures x >= 0.0
  {
    if k == 0 then n as real else Exact(n, k - 1) / 10.0
  }

  lemma {:induction false} ExactIsDecimal(n: nat, k: nat)
    ensures Exact(n, k) == Decimal(n, k)
  {
    if k > 0 {
      ExactIsDecimal(n, k - 1);
      TenTimesLess(n as real, Pow10(k - 1) as real, Pow10(k) as real);
    }
  }

  lemma TenTimesLess(n: real, p: real, p10: real)
    requires p > 0.0 && p10 == 10.0 * p
    ensures n / p10 == n / p / 10.0
  {
    var q := n / p;
    assert q * p == n;
    assert q / 10.0 * p10 == n;
  }

  /** (1 + 2^-24)^(k+1) */
  function Growth(k: nat): real {
    var g := if k == 0 then 1.0 else Growth(k - 1);
    g + Roundoff(g)
  }

  /** n/10^k * (1 + 2^-24)^(k+1), one division after the other. */
  function Bound(n: nat, k: nat): real {
    var b := if k == 0 then n as real else Bound(n, k - 1) / 10.0;
    b + Roundoff(b)
  }

  lemma {:induction false} BoundIsProduct(n: nat, k: nat)
    ensures Bound(n, k) == Exact(n, k) * Growth(k)
  {
    if k == 0 {
      var x := n as real;
      assert Exact(n, k) == x && Growth(k) == 1.0 + Roundoff(1.0);
    } else {
      BoundIsProduct(n, k - 1);
      ProductOfSteps(Exact(n, k - 1), Growth(k - 1), Bound(n, k - 1));
    }
  }

  lemma ProductOfSteps(x: real, g: real, b: real)
    requires b == x * g
    ensures b / 10.0 + Roundoff(b / 10.0) == x / 10.0 * (g + Roundoff(g))
  {
  }

  /** One rounded division adds at most a factor 1 + 2^-24, and 2^-150 where it underflows. */
  lemma {:induction false} DivisionError(n: nat, k: nat)
    requires k > 0
    ensures var p := Quotient10(n, k - 1) / 10.0;
            && Dist(Quotient10(n, k), p) <= Roundoff(p) + ETA
            && (p >= MIN_NORMAL ==> Dist(Quotient10(n, k), p) <= Roundoff(p))
  {
    RoundingError(Quotient10(n, k - 1) / 10.0);
  }

  lemma ErrorsAddUp(p: real, p': real, x: real, b: real)
    requires p >= 0.0
    ensures Dist(p, x) <= b - x + 2.0 * ETA && Dist(p', p / 10.0) <= Roundoff(p / 10.0) + ETA ==>
              Dist(p', x / 10.0) <= b / 10.0 + Roundoff(b / 10.0) - x / 10.0 + 2.0 * ETA
    ensures Dist(p, x) <= b - x && Dist(p', p / 10.0) <= Roundoff(p / 10.0) ==>
              Dist(p', x / 10.0) <= b / 10.0 + Roundoff(b / 10.0) - x / 10.0
  {
  }

  lemma OnlyRounded(r: real, x: real)
    requires Dist(r, x) <= Roundoff(x) + ETA
    ensures Dist(r, x) <= x + Roundoff(x) - x + 2.0 * ETA
  {
  }

  lemma {:induction false} WithinBound(n: nat, k: nat)
    ensures Dist(Quotient10(n, k), Exact(n, k)) <= Bound(n, k) - Exact(n, k) + 2.0 * ETA
  {
    hide Round, Dist;
    if k == 0 {
      RoundingError(n as real);
      OnlyRounded(Round(n as real), n as real);
    } else {
      WithinBound(n, k - 1);
      DivisionError(n, k);
      ErrorsAddUp(Quotient10(n, k - 1), Quotient10(n, k), Exact(n, k - 1), Bound(n, k - 1));
    }
  }

  /**
   FLOAT for every magnitude and every exponent: the loop ends within
   n/10^k * ((1 + 2^-24)^(k+1) - 1) of n/10^k, up to one smallest subnormal number.
   */
  lemma {:induction false} FloatError(n: nat, k: nat)
    ensures Dist(Quotient10(n, k), Decimal(n, k)) <= Decimal(n, k) * (Growth(k) - 1.0) + 2.0 * ETA
  {
    hide Dist, Quotient10, Exact, Bound, Growth, Decimal;
    WithinBound(n, k);
    BoundIsProduct(n, k);
    ExactIsDecimal(n, k);
    LessOne(Exact(n, k), Growth(k));
  }

  lemma LessOne(x: real, g: real)
    ensures x * (g - 1.0) == x * g - x
  {
  }

  /** `r` is a single-precision number, and none is nearer to `x`. */
  ghost predicate NearestFloat(r: real, x: real) {
    Representable(r) && forall y :: Representable(y) ==> Dist(r, x) <= Dist(y, x)
  }

  lemma {:induction false} RoundedToNearest(x: real)
    requires x >= 0.0
    ensures NearestFloat(Round(x), x)
  {
    RoundIsNearest(x);
  }

  /**
   Each step is one correctly rounded operation: the conversion of the magnitude, then one division
   by ten after the other. So is SHORT_REAL's conversion, which is exact, and its one division.
   */
  lemma {:induction false} EveryStepIsNearest(n: nat, k: nat)
    ensures NearestFloat(Quotient10(n, 0), n as real)
    ensures NearestFloat(Quotient10(n, k + 1), Quotient10(n, k) / 10.0)
    ensures n < U16 ==> NearestFloat(ShortReal(n), n as real / 100.0)
  {
    hide Round, Representable, NearestFloat;
    RoundedToNearest(n as real);
    RoundedToNearest(Quotient10(n, k) / 10.0);
    if n < U16 {
      SmallIntegersAreExact(n);
      RoundedToNearest(n as real / 100.0);
    }
  }

  /** The growth is linear for all counts of divisions that fit in a byte. */
  lemma {:induction false} GrowthIsLinear(k: nat)
    requires k <= 255
    ensures 1.0 <= Growth(k) <= 1.0 + Roundoff((k + 1) as real * (1.0 + 1.0 / 65536.0))
  {
    if k > 0 {
      GrowthIsLinear(k - 1);
      GrowthStep(Growth(k - 1), k as real);
    }
  }

  lemma GrowthStep(g: real, k: real)
    requires 0.0 <= k <= 255.0
    requires 1.0 <= g <= 1.0 + Roundoff(k * (1.0 + 1.0 / 65536.0))
    ensures 1.0 <= g + Roundoff(g) <= 1.0 + Roundoff((k + 1.0) * (1.0 + 1.0 / 65536.0))
  {
  }

  lemma {:induction false} ExactGrows(n: nat, k: nat, j: nat)
    requires n >= 1 && k <= j
    ensures Exact(n, k) >= Exact(1, j)
    decreases j
  {
    if j > 0 {
      if k < j {
        ExactGrows(n, k, j - 1);
      } else {
        ExactGrows(n, k - 1, j - 1);
      }
    }
  }

  lemma Exact4(n: nat, k: nat)
    ensures Exact(n, k + 4) == Exact(n, k) / 10000.0
  {
    assert Exact(n, k + 2) == Exact(n, k + 1) / 10.0;
    assert Exact(n, k + 3) == Exact(n, k + 2) / 10.0;
  }

  lemma SmallestExact(j: nat)
    requires j == 37
    ensures Exact(1, j) >= 2.0 * MIN_NORMAL
  {
    Exact4(1, j - 4); Exact4(1, j - 8); Exact4(1, j - 12); Exact4(1, j - 16); Exact4(1, j - 20);
    Exact4(1, j - 24); Exact4(1, j - 28); Exact4(1, j - 32); Exact4(1, j - 36);
  }

  lemma {:induction false} StaysNormal(n: nat, k: nat)
    requires 1 <= n && k <= 37
    ensures Quotient10(n, k) >= MIN_NORMAL
    ensures Dist(Quotient10(n, k), Exact(n, k)) <= Bound(n, k) - Exact(n, k)
  {
    if k == 0 {
      RoundingError(n as real);
    } else {
      hide Round, Dist;
      StaysNormal(n, k - 1);
      AtLeastHalf(n, k - 1, Quotient10(n, k - 1));
      NormalHalf(n, k);
      DivisionError(n, k);
      ErrorsAddUp(Quotient10(n, k - 1), Quotient10(n, k), Exact(n, k - 1), Bound(n, k - 1));
      AtLeastHalf(n, k, Quotient10(n, k));
    }
  }

  lemma NormalHalf(n: nat, k: nat)
    requires 1 <= n && k <= 37
    ensures Exact(n, k) / 2.0 >= MIN_NORMAL
  {
    var j := 37;
    ExactGrows(n, k, j);
    SmallestExact(j);
  }

  lemma GrowthIsSmall(k: nat)
    requires k <= 255
    ensures Growth(k) <= 1.5
  {
    GrowthIsLinear(k);
  }

  lemma BoundIsSmall(n: nat, k: nat)
    requires k <= 255
    ensures Bound(n, k) <= 1.5 * Exact(n, k)
  {
    GrowthIsSmall(k);
    BoundIsProduct(n, k);
    ScaledBound(Bound(n, k), Exact(n, k), Growth(k));
  }

  lemma ScaledBound(b: real, x: real, g: real)
    requires b == x * g && g <= 1.5 && x >= 0.0
    ensures b <= 1.5 * x
  {
    assert (1.5 - g) * x >= 0.0;
  }

  lemma AtLeastHalf(n: nat, k: nat, p: real)
    requires k <= 37 && Dist(p, Exact(n, k)) <= Bound(n, k) - Exact(n, k)
    ensures p >= Exact(n, k) / 2.0
  {
    BoundIsSmall(n, k);
  }

  /** Zero stays zero through every division. */
  lemma {:induction false} ZeroIsExact(k: nat)
    ensures Quotient10(0, k) == 0.0 && Exact(0, k) == 0.0
  {
    if k > 0 {
      ZeroIsExact(k - 1);
    }
    SmallIntegersAreExact(0);
  }

  /**
   FLOAT for exponents up to 37: only zero leaves the normal range, and every magnitude is met within
   (1 + 2^-24)^(k+1) - 1 relatively, which is at most (k+1) * 2^-24 * (1 + 2^-16).
   */
  lemma {:induction false} FloatIsAccurate(n: nat, k: nat)
    requires k <= 37
    ensures n >= 1 ==> Quotient10(n, k) >= MIN_NORMAL
    ensures Dist(Quotient10(n, k), Decimal(n, k)) <= Decimal(n, k) * (Growth(k) - 1.0)
    ensures Growth(k) - 1.0 <= Roundoff((k + 1) as real * (1.0 + 1.0 / 65536.0))
    ensures n == 0 ==> Quotient10(n, k) == Decimal(n, k) == 0.0
  {
    hide Quotient10, Exact, Bound, Growth, Decimal;
    ExactIsDecimal(n, k);
    GrowthIsLinear(k);
    if n == 0 {
      ZeroIsExact(k);
    } else {
      StaysNormal(n, k);
      BoundIsProduct(n, k);
      LessOne(Exact(n, k), Growth(k));
    }
  }

  // ---- SHORT_REAL ----

  /** (float) p / 100 */
  function ShortReal(p: nat): (r: real)
    ensures r >= 0.0
  {
    Round(Round(p as real) / 100.0)
  }

  /** What "%.2f" prints, in hundredths. */
  function Hundredths(r: real): int {
    RoundInt(100.0 * r)
  }

  lemma SmallIntegersAreExact(p: nat)
    requires p <= 0x100_0000
    ensures Round(p as real) == p as real
  {
    assert IsFloat(p as real, p, 0);
    RoundIsExactOn(p as real);
  }

  /** SHORT_REAL is within 2^-15 and prints its two decimals exactly, for every 16-bit value. */
  lemma {:induction false} ShortRealPrintsExactly(p: nat)
    requires p < U16
    ensures Dist(ShortReal(p), p as real / 100.0) <= 1.0 / 32768.0
    ensures Hundredths(ShortReal(p)) == p
  {
    hide Round;
    SmallIntegersAreExact(p);
    HalfUlpBelow1024(p as real / 100.0);
    NearestOf(100.0 * ShortReal(p), p);
  }

  lemma NearestOf(q: real, p: int)
    requires -0.25 < q - p as real < 0.25
    ensures RoundInt(q) == p
  {
  }

  // ---- INT ----

  /** `int p = ntohl(number)`, negated when the sign byte is 1, in 32-bit two's complement. */
  function IntValue(n: nat, sign: byte): int
    requires n < U32
  {
    if sign == 1 then AsInt(-AsInt(n) % U32) else AsInt(n)
  }

  /** The product with -1 stays within int; otherwise C leaves it undefined. */
  predicate ProductDefined(n: nat, sign: byte)
    requires n < U32
  {
    sign == 1 ==> -0x8000_0000 <= -AsInt(n) < 0x8000_0000
  }

  /** INT is computed and exact for every magnitude an int holds, and for no other. */
  lemma {:induction false} IntIsExactIff(n: nat, sign: byte)
    requires n < U32
    ensures ProductDefined(n, sign) && IntValue(n, sign) == (if sign == 1 then -1 else 1) * n
            <==> n < 0x8000_0000
    ensures ProductDefined(n, sign) <==> !(sign == 1 && n == 0x8000_0000)
  {
    WrappedNegation(AsInt(n));
  }

  lemma WrappedNegation(p: int)
    requires -0x8000_0000 <= p < 0x8000_0000
    ensures AsInt(-p % U32) == if p == -0x8000_0000 then p else -p
  {
    if p > 0 {
      Remainder(-p, -1, U32 - p);
    } else {
      Remainder(-p, 0, -p);
    }
  }

  lemma Remainder(x: int, q: int, r: int)
    requires x == q * U32 + r && 0 <= r < U32
    ensures x % U32 == r
  {
  }
}
