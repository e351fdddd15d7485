/** What the range-reduced exponential lies between, and that it keeps the order of its arguments. */
module ExponentialBounds {
  import opened ElementwiseMath
  import opened Vectors

  /** The powers of one number. */
  ghost predicate ArePowers(s: real, s2: real, s3: real, s4: real, s5: real, s6: real) {
    s2 == Times(s, s) && s3 == Times(s, s2) && s4 == Times(s2, s2) && s5 == Times(s, s4) && s6 == Times(s2, s4)
  }

  lemma EvenPowers(s: real, s2: real, s3: real, s4: real, s5: real, s6: real)
    requires ArePowers(s, s2, s3, s4, s5, s6)
    ensures s4 == Times(s, s3) && s6 == Times(s, s5)
  {
    assert s4 == s * s * (s * s);
    assert s6 == s * s * s4;
  }

  lemma PowersAreOrdered(s: real, s2: real, s3: real, s4: real, s5: real, s6: real)
    requires 0.0 <= s <= 2.0 && ArePowers(s, s2, s3, s4, s5, s6)
    ensures 0.0 <= s2 <= 2.0 * s && 0.0 <= s3 && 0.0 <= s4 <= 2.0 * s3 && s4 <= 16.0
    ensures 0.0 <= s5 && 0.0 <= s6 <= 2.0 * s5
  {
    EvenPowers(s, s2, s3, s4, s5, s6);
    TimesIsBounded(s, s, 2.0, s);
    TimesIsBounded(s, s2, 2.0, s2);
    TimesIsBounded(s, s3, 2.0, s3);
    TimesIsBounded(s2, s2, 4.0, 4.0);
    TimesIsBounded(s, s4, 2.0, s4);
    TimesIsBounded(s, s5, 2.0, s5);
  }

  lemma PowersOfNegated(s: real, s2: real, s3: real, s4: real, s5: real, s6: real)
    requires ArePowers(s, s2, s3, s4, s5, s6)
    ensures ArePowers(-s, s2, -s3, s4, -s5, s6)
  {
  }

  /** 1 - Taylor(-s) = s (1 - s/2) + s^3/6 (1 - s/4) + s^5/120 (1 - s/6). */
  lemma UpperTail(s: real, s2: real, s3: real, s4: real, s5: real, s6: real)
    requires 0.0 <= s <= 2.0 && ArePowers(s, s2, s3, s4, s5, s6)
    ensures s - s2 / 2.0 + s3 / 6.0 - s4 / 24.0 + s5 / 120.0 - s6 / 720.0 >= 0.0
  {
    PowersAreOrdered(s, s2, s3, s4, s5, s6);
  }

  /** The quartic part is at least 1/4, the rest at least -8/45. */
  lemma LowerTail(s: real, s2: real, s3: real, s4: real, s5: real, s6: real)
    requires 0.0 <= s <= 2.0 && ArePowers(s, s2, s3, s4, s5, s6)
    ensures 1.0 - s + s2 / 2.0 - s3 / 6.0 + s4 / 24.0 - s5 / 120.0 + s6 / 720.0 > 0.0
  {
    PowersAreOrdered(s, s2, s3, s4, s5, s6);
    QuarticIsPositive(s, s2, s3, s4);
    RestIsBounded(s, s2, s4, s5, s6);
  }

  lemma QuarticIsPositive(s: real, s2: real, s3: real, s4: real)
    requires s2 == Times(s, s) && s3 == Times(s, s2) && s4 == Times(s2, s2)
    ensures 1.0 - s + s2 / 2.0 - s3 / 6.0 + s4 / 24.0 >= 0.25
  {
    var a, b := s2 - 2.0 * s, s - 1.5;
    SquareIsNotNegative(a);
    SquareIsNotNegative(b);
    assert Times(a, a) == s4 - 4.0 * s3 + 4.0 * s2;
    assert Times(b, b) == s2 - 3.0 * s + 2.25;
  }

  lemma RestIsBounded(s: real, s2: real, s4: real, s5: real, s6: real)
    requires 0.0 <= s <= 2.0 && s2 == Times(s, s) && s2 <= 2.0 * s
    requires 0.0 <= s4 <= 16.0 && s5 == Times(s, s4) && s6 == Times(s2, s4)
    ensures 6.0 * s5 - s6 <= 128.0
  {
    var part := 6.0 * s - s2;
    TimesIsBounded(2.0 - s, 4.0 - s, 2.0, 4.0);
    assert Times(2.0 - s, 4.0 - s) == 8.0 - part;
    TimesIsBounded(part, s4, 8.0, 16.0);
    assert Times(part, s4) == 6.0 * s5 - s6;
  }

  /** On [-2, 0] the polynomial stays in (0, 1]. */
  lemma TaylorIsBounded(r: real)
    requires -2.0 <= r <= 0.0
    ensures 0.0 < Taylor(r) <= 1.0
  {
    var s := -r;
    var s2 := Times(s, s);
    var s3, s4 := Times(s, s2), Times(s2, s2);
    var s5, s6 := Times(s, s4), Times(s2, s4);
    PowersOfNegated(s, s2, s3, s4, s5, s6);
    UpperTail(s, s2, s3, s4, s5, s6);
    LowerTail(s, s2, s3, s4, s5, s6);
  }

  lemma {:induction false} PoweredIsBounded(x: real, times: nat)
    requires 0.0 < x <= 1.0
    ensures 0.0 < Powered(x, times) <= 1.0
  {
    if times > 0 {
      PoweredIsBounded(x, times - 1);
      var half := Powered(x, times - 1);
      TimesIsBounded(half, half, 1.0, 1.0);
      TimesIsPositive(half, half);
    }
  }

  lemma {:induction false} PoweredOne(times: nat)
    ensures Powered(1.0, times) == 1.0
  {
    if times > 0 {
      PoweredOne(times - 1);
    }
  }

  lemma ProductOfBounds(m: real, d: real, inverse: real)
    requires -2.0 * d <= m <= 0.0 < inverse && Times(inverse, d) == 1.0
    ensures -2.0 <= Times(m, inverse) <= 0.0
    ensures m == 0.0 ==> Times(m, inverse) == 0.0
  {
    TimesIsBounded(-m, inverse, 2.0 * d, inverse);
    Negated(m, inverse);
    TimesCommutes(inverse, d);
    TimesAssociates(2.0, d, inverse);
  }

  lemma InverseOf(d: real)
    requires d > 0.0
    ensures 1.0 / d > 0.0 && Times(1.0 / d, d) == 1.0
  {
  }

  lemma ReducedIsBounded(x: real, limit: real, divisor: nat)
    requires divisor > 0 && x <= 0.0 && limit <= 0.0 && -2.0 * divisor as real <= limit
    ensures -2.0 <= Reduced(x, limit, divisor) <= 0.0
    ensures x == 0.0 ==> Reduced(x, limit, divisor) == 0.0
  {
    InverseOf(divisor as real);
    ProductOfBounds(Max(x, limit), divisor as real, 1.0 / divisor as real);
  }

  lemma {:induction false} HornerAtZero(r: real, k: nat)
    requires r == 0.0
    ensures Horner(r, k) == 1.0
    decreases 6 - k
  {
    if k < 6 {
      HornerAtZero(r, k + 1);
    }
  }

  lemma ExpandedIsBounded(r: real)
    requires -2.0 <= r <= 0.0
    ensures 0.0 < Taylor(r) <= 1.0
    ensures r == 0.0 ==> Taylor(r) == 1.0
  {
    TaylorIsBounded(r);
    if r == 0.0 {
      TaylorIsHorner(r);
      HornerAtZero(r, 0);
    }
  }

  lemma SquaredBackIsBounded(value: real, times: nat)
    requires 0.0 < value <= 1.0
    ensures 0.0 < Powered(value, times) <= 1.0
    ensures value == 1.0 ==> Powered(value, times) == 1.0
  {
    PoweredIsBounded(value, times);
    PoweredOne(times);
  }

  /** For every argument up to 0 the exponential lies in (0, 1], and it is exactly 1 at 0. */
  lemma ExpIsBounded(x: real, limit: real, divisor: nat)
    requires divisor > 0 && x <= 0.0 && limit <= 0.0 && -2.0 * divisor as real <= limit
    ensures 0.0 < ExpLane(x, limit, divisor) <= 1.0
    ensures x == 0.0 ==> ExpLane(x, limit, divisor) == 1.0
  {
    ReducedIsBounded(x, limit, divisor);
    ExpandedIsBounded(Reduced(x, limit, divisor));
    SquaredBackIsBounded(Taylor(Reduced(x, limit, divisor)), BitLength(divisor) - 1);
  }

  // The exponential keeps order

  lemma HalfToWhole(x: real, y: real)
    requires 0.0 <= x && 0.5 <= y <= 1.0
    ensures 0.5 * x <= Times(x, y) <= x
  {
    TimesIsBounded(x, 0.5, x, y);
    TimesIsBounded(x, y, x, 1.0);
  }

  lemma UpToHalf(x: real, y: real)
    requires 0.0 <= x <= 0.5 && 0.0 <= y
    ensures 0.0 <= Times(x, y) <= 0.5 * y
  {
    TimesIsBounded(x, y, 0.5, y);
  }

  lemma UpToWhole(x: real, y: real)
    requires 0.0 <= x && 0.0 <= y <= 1.0
    ensures 0.0 <= Times(x, y) <= x
  {
    TimesIsBounded(x, y, x, 1.0);
  }

  lemma Negated(x: real, y: real)
    ensures Times(-x, y) == -Times(x, y)
  {
  }

  lemma DifferenceOfProducts(r: real, r': real, h: real, h': real)
    ensures Times(r', h') - Times(r, h) == Times(r' - r, h') + Times(r, h' - h)
  {
  }

  /** A product of arguments in [-1/2, 0] with factors in [1/2, 1] keeps their order and distance. */
  lemma ProductKeepsOrder(r: real, r': real, h: real, h': real)
    requires -0.5 <= r <= r' <= 0.0 && 0.5 <= h <= 1.0 && 0.5 <= h' <= 1.0
    requires 0.0 <= h' - h <= r' - r
    ensures -0.5 <= Times(r, h) <= Times(r', h') <= 0.0
    ensures Times(r', h') - Times(r, h) <= r' - r
  {
    DifferenceOfProducts(r, r', h, h');
    HalfToWhole(r' - r, h');
    Negated(r, h' - h);
    UpToHalf(-r, h' - h);
    Negated(r, h);
    UpToHalf(-r, h);
    Negated(r', h');
    UpToHalf(-r', h');
  }

  /** One Horner step 1 + c r h at two arguments. */
  lemma HornerStep(r: real, r': real, h: real, h': real, c: real)
    requires -0.5 <= r <= r' <= 0.0 && 0.5 <= h <= 1.0 && 0.5 <= h' <= 1.0 && 0.0 <= c <= 1.0
    requires 0.0 <= h' - h <= r' - r
    ensures var g, g' := 1.0 + Times(Times(r, h), c), 1.0 + Times(Times(r', h'), c);
            0.5 <= g <= 1.0 && 0.5 <= g' <= 1.0 && 0.0 <= g' - g <= r' - r
  {
    ProductKeepsOrder(r, r', h, h');
    var p, p' := Times(r, h), Times(r', h');
    UpToWhole(p' - p, c);
    UpToWhole(-p, c);
    UpToWhole(-p', c);
    Negated(p, c);
    Negated(p', c);
    assert Times(p' - p, c) == Times(p', c) - Times(p, c);
  }

  /** The polynomial nested: 1 + r (1 + r/2 (1 + r/3 (1 + r/4 (1 + r/5 (1 + r/6))))). */
  function Horner(r: real, k: nat): real
    decreases 6 - k
  {
    if k >= 6 then 1.0 else 1.0 + Times(Times(r, Horner(r, k + 1)), 1.0 / (k + 1) as real)
  }

  lemma {:induction false} HornerKeepsOrder(r: real, r': real, k: nat)
    requires -0.5 <= r <= r' <= 0.0
    ensures 0.5 <= Horner(r, k) <= 1.0 && 0.5 <= Horner(r', k) <= 1.0
    ensures 0.0 <= Horner(r', k) - Horner(r, k) <= r' - r
    decreases 6 - k
  {
    if k < 6 {
      HornerKeepsOrder(r, r', k + 1);
      HornerStep(r, r', Horner(r, k + 1), Horner(r', k + 1), 1.0 / (k + 1) as real);
    }
  }

  lemma TaylorIsHorner(r: real)
    ensures Taylor(r) == Horner(r, 0)
  {
    var s2 := Times(r, r);
    var s3, s4 := Times(r, s2), Times(s2, s2);
    var s5, s6 := Times(r, s4), Times(s2, s4);
    EvenPowers(r, s2, s3, s4, s5, s6);
    assert Horner(r, 5) == 1.0 + r / 6.0;
    assert Times(r, Horner(r, 5)) == r + s2 / 6.0;
    assert Horner(r, 4) == 1.0 + r / 5.0 + s2 / 30.0;
    assert Times(r, Horner(r, 4)) == r + s2 / 5.0 + s3 / 30.0;
    assert Horner(r, 3) == 1.0 + r / 4.0 + s2 / 20.0 + s3 / 120.0;
    assert Times(r, Horner(r, 3)) == r + s2 / 4.0 + s3 / 20.0 + s4 / 120.0;
    assert Horner(r, 2) == 1.0 + r / 3.0 + s2 / 12.0 + s3 / 60.0 + s4 / 360.0;
    assert Times(r, Horner(r, 2)) == r + s2 / 3.0 + s3 / 12.0 + s4 / 60.0 + s5 / 360.0;
    assert Horner(r, 1) == 1.0 + r / 2.0 + s2 / 6.0 + s3 / 24.0 + s4 / 120.0 + s5 / 720.0;
    assert Times(r, Horner(r, 1)) == r + s2 / 2.0 + s3 / 6.0 + s4 / 24.0 + s5 / 120.0 + s6 / 720.0;
  }

  lemma TaylorKeepsOrder(r: real, r': real)
    requires -0.5 <= r <= r' <= 0.0
    ensures 0.0 <= Taylor(r) <= Taylor(r')
  {
    TaylorIsHorner(r);
    TaylorIsHorner(r');
    HornerKeepsOrder(r, r', 0);
  }

  lemma {:induction false} PoweredIsMonotone(a: real, b: real, times: nat)
    requires 0.0 <= a <= b
    ensures 0.0 <= Powered(a, times) <= Powered(b, times)
  {
    if times > 0 {
      PoweredIsMonotone(a, b, times - 1);
      TimesIsBounded(Powered(a, times - 1), Powered(a, times - 1), Powered(b, times - 1), Powered(b, times - 1));
    }
  }

  lemma ReducedKeepsOrder(x: real, y: real, limit: real, divisor: nat)
    requires divisor > 0 && x <= y <= 0.0 && -0.5 * divisor as real <= limit <= 0.0
    ensures -0.5 <= Reduced(x, limit, divisor) <= Reduced(y, limit, divisor) <= 0.0
  {
    var d := divisor as real;
    var inverse := 1.0 / d;
    assert inverse * d == 1.0 && inverse > 0.0;
    var a, b := -Max(y, limit), -Max(x, limit);
    TimesIsBounded(a, inverse, b, inverse);
    TimesIsBounded(b, inverse, 0.5 * d, inverse);
    Negated(Max(x, limit), inverse);
    Negated(Max(y, limit), inverse);
    assert Times(0.5 * d, inverse) == 0.5 * (inverse * d);
  }

  /** On the range a half divisor wide the exponential keeps the order of its arguments. */
  lemma ExpKeepsOrder(x: real, y: real, limit: real, divisor: nat)
    requires divisor > 0 && x <= y <= 0.0 && -0.5 * divisor as real <= limit <= 0.0
    ensures ExpLane(x, limit, divisor) <= ExpLane(y, limit, divisor)
  {
    ReducedKeepsOrder(x, y, limit, divisor);
    TaylorKeepsOrder(Reduced(x, limit, divisor), Reduced(y, limit, divisor));
    PoweredIsMonotone(
      Taylor(Reduced(x, limit, divisor)), Taylor(Reduced(y, limit, divisor)), BitLength(divisor) - 1);
  }
}
