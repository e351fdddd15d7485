/** The range-reduced exponential between two powers that close in on it: (1 + x/2d)^2d below, 1/(1 - x/d)^d above. */
module ExponentialSqueeze {
  import opened ElementwiseMath
  import opened ExponentialBounds
  import opened Vectors

  // Powers by repeated multiplication

  /** The product of n factors y. */
  function Pow(y: real, n: nat): real
    decreases n, y
  {
    if n == 0 then 1.0 else Times(y, Pow(y, n - 1))
  }

  lemma {:induction false} PowAdds(y: real, m: nat, n: nat)
    ensures Pow(y, m + n) == Times(Pow(y, m), Pow(y, n))
  {
    if m > 0 {
      PowAdds(y, m - 1, n);
      TimesAssociates(y, Pow(y, m - 1), Pow(y, n));
    }
  }

  lemma {:induction false} PowIsMonotone(a: real, b: real, n: nat)
    requires 0.0 <= a <= b
    ensures 0.0 <= Pow(a, n) <= Pow(b, n)
  {
    if n > 0 {
      PowIsMonotone(a, b, n - 1);
      TimesIsBounded(a, Pow(a, n - 1), b, Pow(b, n - 1));
    }
  }

  lemma {:induction false} PowOfOne(n: nat)
    ensures Pow(1.0, n) == 1.0
  {
    if n > 0 {
      PowOfOne(n - 1);
    }
  }

  lemma {:induction false} PowOfProduct(a: real, b: real, n: nat)
    ensures Pow(Times(a, b), n) == Times(Pow(a, n), Pow(b, n))
  {
    if n > 0 {
      PowOfProduct(a, b, n - 1);
      Interchange(a, b, Pow(a, n - 1), Pow(b, n - 1));
    }
  }

  lemma Interchange(a: real, b: real, c: real, d: real)
    ensures Times(Times(a, b), Times(c, d)) == Times(Times(a, c), Times(b, d))
  {
    assert (a * b) * (c * d) == (a * c) * (b * d);
  }

  function TwoTo(n: nat): nat {
    if n == 0 then 1 else 2 * TwoTo(n - 1)
  }

  /** Squaring back n times raises to the power 2^n. */
  lemma {:induction false} SquaringsArePower(y: real, times: nat)
    ensures Powered(y, times) == Pow(y, TwoTo(times))
  {
    if times > 0 {
      SquaringsArePower(y, times - 1);
      PowAdds(y, TwoTo(times - 1), TwoTo(times - 1));
    } else {
      assert Pow(y, 1) == Times(y, Pow(y, 0)) == y;
    }
  }

  lemma {:induction false} BitLengthOfPower(times: nat)
    ensures BitLength(TwoTo(times)) == times + 1
  {
    if times > 0 {
      BitLengthOfPower(times - 1);
    } else {
      assert BitLength(1) == 1 + BitLength(0);
    }
  }

  // The polynomial against its tangents

  /** On [0, 2] each power is at most twice the one before. */
  lemma PowersHalve(s: real, s2: real, s3: real, s4: real, s5: real, s6: real)
    requires 0.0 <= s <= 2.0 && ArePowers(s, s2, s3, s4, s5, s6)
    ensures 0.0 <= s3 <= 2.0 * s2 && 0.0 <= s5 <= 2.0 * s4 && 0.0 <= s6 && Times(s, s6) <= 2.0 * s6
  {
    SquareIsNotNegative(s);
    SquareIsNotNegative(s2);
    TimesIsBounded(s, s2, 2.0, s2);
    TimesIsBounded(s, s4, 2.0, s4);
    TimesIsBounded(s2, s4, s2, s4);
    TimesIsBounded(s, s6, 2.0, s6);
  }

  /** 1/4 - s/6 + s2/40 = 1/60 + (2 - s)(7/60 - s/40) */
  lemma LowerFactor(s: real, s2: real)
    requires 0.0 <= s <= 2.0 && s2 == Times(s, s)
    ensures 0.0 <= 1.0 / 4.0 - s / 6.0 + s2 / 40.0
  {
    TimesIsBounded(2.0 - s, 7.0 / 60.0 - s / 40.0, 2.0, 7.0 / 60.0);
    assert Times(2.0 - s, 7.0 / 60.0 - s / 40.0) == 7.0 / 30.0 - s / 6.0 + s2 / 40.0;
  }

  /** 1/2 - s/3 + 7 s2/120 = 1/15 + (2 - s)(13/60 - 7 s/120) */
  lemma UpperFactor(s: real, s2: real)
    requires 0.0 <= s <= 2.0 && s2 == Times(s, s)
    ensures 0.0 <= 1.0 / 2.0 - s / 3.0 + 7.0 * s2 / 120.0
  {
    TimesIsBounded(2.0 - s, 13.0 / 60.0 - 7.0 * s / 120.0, 2.0, 13.0 / 60.0);
    assert Times(2.0 - s, 13.0 / 60.0 - 7.0 * s / 120.0) == 13.0 / 30.0 - s / 3.0 + 7.0 * s2 / 120.0;
  }

  /** The polynomial less (1 - s/2)^2. */
  lemma AboveSquare(s: real, s2: real, s3: real, s4: real, s5: real, s6: real)
    requires 0.0 <= s <= 2.0 && ArePowers(s, s2, s3, s4, s5, s6)
    ensures 0.0 <= s2 / 4.0 - s3 / 6.0 + s4 / 24.0 - s5 / 120.0 + s6 / 720.0
  {
    PowersHalve(s, s2, s3, s4, s5, s6);
    LowerFactor(s, s2);
    SquareIsNotNegative(s);
    var q := 1.0 / 4.0 - s / 6.0 + s2 / 40.0;
    TimesIsBounded(s2, q, s2, q);
    assert Times(s2, q) == s2 / 4.0 - s3 / 6.0 + s4 / 40.0;
  }

  /** One less the polynomial times (1 + s). */
  lemma BelowInverse(s: real, s2: real, s3: real, s4: real, s5: real, s6: real)
    requires 0.0 <= s <= 2.0 && ArePowers(s, s2, s3, s4, s5, s6)
    ensures 0.0 <= s2 / 2.0 - s3 / 3.0 + s4 / 8.0 - s5 / 30.0 + s6 / 144.0 - Times(s, s6) / 720.0
  {
    PowersHalve(s, s2, s3, s4, s5, s6);
    UpperFactor(s, s2);
    SquareIsNotNegative(s);
    var q := 1.0 / 2.0 - s / 3.0 + 7.0 * s2 / 120.0;
    TimesIsBounded(s2, q, s2, q);
    assert Times(s2, q) == s2 / 2.0 - s3 / 3.0 + 7.0 * s4 / 120.0;
  }

  /** The polynomial at -s by the powers of s. */
  lemma TaylorByPowers(s: real, s2: real, s3: real, s4: real, s5: real, s6: real)
    requires ArePowers(s, s2, s3, s4, s5, s6)
    ensures Taylor(-s) == 1.0 - s + s2 / 2.0 - s3 / 6.0 + s4 / 24.0 - s5 / 120.0 + s6 / 720.0
  {
    PowersOfNegated(s, s2, s3, s4, s5, s6);
  }

  lemma TimesOnePlus(s: real, s2: real, s3: real, s4: real, s5: real, s6: real, t: real)
    requires ArePowers(s, s2, s3, s4, s5, s6)
    requires t == 1.0 - s + s2 / 2.0 - s3 / 6.0 + s4 / 24.0 - s5 / 120.0 + s6 / 720.0
    ensures Times(t, 1.0 + s) ==
            1.0 - (s2 / 2.0 - s3 / 3.0 + s4 / 8.0 - s5 / 30.0 + s6 / 144.0 - Times(s, s6) / 720.0)
  {
    EvenPowers(s, s2, s3, s4, s5, s6);
    var s7 := Times(s, s6);
    assert Times(t, s) == s - s2 + s3 / 2.0 - s4 / 6.0 + s5 / 24.0 - s6 / 120.0 + s7 / 720.0;
    assert Times(t, 1.0 + s) == t + Times(t, s);
  }

  /** On [-2, 0] the polynomial lies above (1 + r/2)^2 and 1 + r, and below 1/(1 - r). */
  lemma TaylorIsSqueezed(r: real)
    requires -2.0 <= r <= 0.0
    ensures Times(1.0 + r / 2.0, 1.0 + r / 2.0) <= Taylor(r) && 1.0 + r <= Taylor(r)
    ensures 0.0 < Taylor(r) && Times(Taylor(r), 1.0 - r) <= 1.0
  {
    var s := -r;
    var s2 := Times(s, s);
    var s3, s4 := Times(s, s2), Times(s2, s2);
    var s5, s6 := Times(s, s4), Times(s2, s4);
    TaylorByPowers(s, s2, s3, s4, s5, s6);
    AboveSquare(s, s2, s3, s4, s5, s6);
    BelowInverse(s, s2, s3, s4, s5, s6);
    TimesOnePlus(s, s2, s3, s4, s5, s6, Taylor(r));
    SquareIsNotNegative(s);
    HalfSquared(r, s2);
    TaylorIsBounded(r);
  }

  lemma HalfSquared(r: real, s2: real)
    requires s2 == Times(-r, -r)
    ensures Times(1.0 + r / 2.0, 1.0 + r / 2.0) == 1.0 + r + s2 / 4.0
  {
  }

  // The exponential

  /** The exponential is the polynomial at x/d to the power d, for a divisor that is a power of two. */
  lemma ExpIsPower(x: real, limit: real, times: nat)
    ensures TwoTo(times) > 0
    ensures ExpLane(x, limit, TwoTo(times)) == Pow(Taylor(Reduced(x, limit, TwoTo(times))), TwoTo(times))
  {
    BitLengthOfPower(times);
    SquaringsArePower(Taylor(Reduced(x, limit, TwoTo(times))), times);
  }

  lemma PowerIsSqueezed(t: real, r: real, n: nat)
    requires -2.0 <= r <= 0.0 && 0.0 < t
    requires Times(1.0 + r / 2.0, 1.0 + r / 2.0) <= t && 1.0 + r <= t && Times(t, 1.0 - r) <= 1.0
    ensures Pow(1.0 + r / 2.0, n + n) <= Pow(t, n)
    ensures -1.0 <= r ==> Pow(1.0 + r, n) <= Pow(t, n)
    ensures Times(Pow(t, n), Pow(1.0 - r, n)) <= 1.0
  {
    var half := 1.0 + r / 2.0;
    SquareIsNotNegative(half);
    PowIsMonotone(Times(half, half), t, n);
    PowOfProduct(half, half, n);
    PowAdds(half, n, n);
    if -1.0 <= r {
      PowIsMonotone(1.0 + r, t, n);
    }
    PowOfProduct(t, 1.0 - r, n);
    TimesIsPositive(t, 1.0 - r);
    PowIsMonotone(Times(t, 1.0 - r), 1.0, n);
    PowOfOne(n);
  }

  /** For limit <= x <= 0 the exponential lies between the two powers; below the limit it is that of the limit. */
  lemma ExpIsSqueezed(x: real, limit: real, divisor: nat, times: nat, r: real)
    requires divisor == TwoTo(times) && divisor > 0 && limit <= x <= 0.0 && -2.0 * divisor as real <= limit
    requires r == Reduced(x, limit, divisor)
    ensures -2.0 <= r <= 0.0
    ensures Pow(1.0 + r / 2.0, divisor + divisor) <= ExpLane(x, limit, divisor)
    ensures -1.0 <= r ==> Pow(1.0 + r, divisor) <= ExpLane(x, limit, divisor)
    ensures Times(ExpLane(x, limit, divisor), Pow(1.0 - r, divisor)) <= 1.0
  {
    ReducedIsBounded(x, limit, divisor);
    TaylorIsSqueezed(r);
    ExpIsPower(x, limit, times);
    PowerIsSqueezed(Taylor(r), r, divisor);
  }

  lemma ExpIsClamped(x: real, limit: real, divisor: nat)
    requires divisor > 0 && x <= limit
    ensures ExpLane(x, limit, divisor) == ExpLane(limit, limit, divisor)
  {
  }

  lemma Divided(x: real, limit: real, divisor: nat, r: real)
    requires divisor > 0 && limit <= x && r == x / divisor as real
    ensures Reduced(x, limit, divisor) == r
  {
  }

  /** The softmax's exponential: e^x to within these two powers. */
  lemma SoftmaxExpIsSqueezed(x: real)
    requires -64.0 <= x <= 0.0
    ensures Pow(1.0 + x / 128.0, 128) <= ExpLane(x, -64.0, 128)
    ensures Pow(1.0 + x / 256.0, 256) <= ExpLane(x, -64.0, 128)
    ensures Times(ExpLane(x, -64.0, 128), Pow(1.0 - x / 128.0, 128)) <= 1.0
  {
    assert TwoTo(7) == 128;
    Divided(x, -64.0, 128, x / 128.0);
    ExpIsSqueezed(x, -64.0, 128, 7, x / 128.0);
    assert x / 128.0 / 2.0 == x / 256.0;
  }

  /** The activations' exponential. */
  lemma ActivationExpIsSqueezed(x: real)
    requires -16.0 <= x <= 0.0
    ensures -8.0 <= x ==> Pow(1.0 + x / 8.0, 8) <= ExpLane(x, -16.0, 8)
    ensures Pow(1.0 + x / 16.0, 16) <= ExpLane(x, -16.0, 8)
    ensures Times(ExpLane(x, -16.0, 8), Pow(1.0 - x / 8.0, 8)) <= 1.0
  {
    assert TwoTo(3) == 8;
    Divided(x, -16.0, 8, x / 8.0);
    ExpIsSqueezed(x, -16.0, 8, 3, x / 8.0);
    assert x / 8.0 / 2.0 == x / 16.0;
  }
}
