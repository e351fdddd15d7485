/** The decay factor of the recurrence: the exponential of a scaled softplus, from elementwise submissions. */
module DecayMultiplier {
  import opened Words
  import opened ElementwiseMath
  import opened ExponentialSqueeze
  import opened Softmax
  import opened Vectors

  const TERMS: nat := 4

  /** |c| as the two submissions give it. */
  function Absolute(c: real): real {
    Max(c, 0.0) + Max(Times(c, -1.0), 0.0)
  }

  /** exp(-|c|) */
  function Tail(c: real): real {
    ActivationExp(Times(Absolute(c), -1.0))
  }

  /** e / (e + 2), through the reciprocal. */
  function Ratio(e: real): real {
    Times(e, Newton(e + 2.0, 0.5, ACTIVATION_RECIPROCAL_ITERATIONS))
  }

  /** ratio^(2k + 1) */
  function Term(ratio: real, k: nat): real
    decreases k, ratio
  {
    if k == 0 then ratio else Times(Term(ratio, k - 1), Times(ratio, ratio))
  }

  /** ratio + ratio^3/3 + ... + ratio^(2k + 1)/(2k + 1): half the logarithm of 1 + e. */
  function Series(ratio: real, k: nat): real
    decreases k, ratio
  {
    if k == 0 then ratio else Series(ratio, k - 1) + Times(Term(ratio, k), 1.0 / (2 * k + 1) as real)
  }

  function Softplus(c: real): real {
    Max(c, 0.0) + Times(Series(Ratio(Tail(c)), TERMS), 2.0)
  }

  function Multiplier(alpha: real, bias: real, aLog: real): real {
    ActivationExp(Times(Softplus(alpha + bias), aLog))
  }

  // The submissions

  method SeriesLanes(ratio: Lanes) returns (series: Lanes)
    ensures forall i :: 0 <= i < LANES ==> series[i] == Series(ratio[i], TERMS)
  {
    var ratioSquared := Run(Square, ratio, Const(0.0));
    var term := ratio;
    series := ratio;
    for k := 0 to TERMS
      invariant forall i :: 0 <= i < LANES ==> term[i] == Term(ratio[i], k) && series[i] == Series(ratio[i], k)
    {
      term := Run(Mul, term, ratioSquared);
      series := Run(Add, series, Run(Mul, term, Const(1.0 / (2 * k + 3) as real)));
    }
  }

  method SoftplusLanes(combined: Lanes) returns (softplus: Lanes)
    ensures forall i :: 0 <= i < LANES ==> softplus[i] == Softplus(combined[i])
  {
    var zero, negativeOne := Const(0.0), Const(-1.0);
    var positive := Run(Maximum, combined, zero);
    var negative := Run(Mul, combined, negativeOne);
    var absolute := Run(Add, positive, Run(Maximum, negative, zero));
    var expNegative := Exp(Run(Mul, absolute, negativeOne), ACTIVATION_EXP_LIMIT, ACTIVATION_EXP_DIVISOR);
    assert forall i :: 0 <= i < LANES ==> expNegative[i] == Tail(combined[i]);
    var denominator := Run(Add, expNegative, Const(2.0));
    var reciprocal := Reciprocal(denominator, 0.5, ACTIVATION_RECIPROCAL_ITERATIONS);
    var ratio := Run(Mul, expNegative, reciprocal);
    assert forall i :: 0 <= i < LANES ==> ratio[i] == Ratio(Tail(combined[i]));
    var series := SeriesLanes(ratio);
    softplus := Run(Add, positive, Run(Mul, series, Const(2.0)));
  }

  method MultiplierLanes(alpha: Lanes, bias: Lanes, aLog: Lanes) returns (multiplier: Lanes)
    ensures forall i :: 0 <= i < LANES ==> multiplier[i] == Multiplier(alpha[i], bias[i], aLog[i])
  {
    var softplus := SoftplusLanes(Run(Add, alpha, bias));
    multiplier := Exp(Run(Mul, softplus, aLog), ACTIVATION_EXP_LIMIT, ACTIVATION_EXP_DIVISOR);
  }

  /** Up to 64 values from `offset` on, and zeros behind them. */
  function Chunk(values: seq<real>, offset: nat): (lanes: Lanes)
    ensures forall i :: 0 <= i < LANES ==> lanes[i] == if offset + i < |values| then values[offset + i] else 0.0
  {
    seq(LANES, i requires 0 <= i => if offset + i < |values| then values[offset + i] else 0.0)
  }

  /** Every factor lies in (0, 1]; vectors of unequal lengths and positive a_log values are refused. */
  method Call(alpha: seq<real>, bias: seq<real>, aLog: seq<real>) returns (r: Result<seq<real>>)
    ensures r.Ok? <==> |alpha| == |bias| == |aLog| && forall i :: 0 <= i < |aLog| ==> aLog[i] <= 0.0
    ensures r.Err? ==> r.fault == ValueError
    ensures r.Ok? ==>
              && |r.value| == |alpha|
              && forall i :: 0 <= i < |alpha| ==>
                   r.value[i] == Multiplier(alpha[i], bias[i], aLog[i]) && 0.0 < r.value[i] <= 1.0
  {
    if |bias| != |alpha| || |aLog| != |alpha| || exists i :: 0 <= i < |aLog| && aLog[i] > 0.0 {
      return Err(ValueError);
    }
    var result: seq<real> := [];
    var offset := 0;
    while offset < |alpha|
      invariant |result| == if offset < |alpha| then offset else |alpha|
      invariant forall i :: 0 <= i < |result| ==> result[i] == Multiplier(alpha[i], bias[i], aLog[i])
    {
      var width := if |alpha| - offset < LANES then |alpha| - offset else LANES;
      var multiplier := MultiplierLanes(Chunk(alpha, offset), Chunk(bias, offset), Chunk(aLog, offset));
      result := result + multiplier[..width];
      offset := offset + LANES;
    }
    forall i | 0 <= i < |alpha|
      ensures 0.0 < result[i] <= 1.0
    {
      MultiplierIsBounded(alpha[i], bias[i], aLog[i]);
    }
    return Ok(result);
  }

  // What they compute

  lemma {:induction false} PoweredOfNegated(x: real, times: nat)
    requires times > 0
    ensures Powered(-x, times) == Powered(x, times)
  {
    if times == 1 {
      assert Times(-x, -x) == Times(x, x);
    } else {
      PoweredOfNegated(x, times - 1);
    }
  }

  /** The reciprocal of e + 2 is positive, and not too large. */
  lemma ReciprocalOfSum(e: real, y: real)
    requires 0.0 < e <= 1.0 && y == Newton(e + 2.0, 0.5, ACTIVATION_RECIPROCAL_ITERATIONS)
    ensures 0.0 < y && Times(e + 2.0, y) <= 1.0
  {
    var start := Error(e + 2.0, 0.5);
    NewtonSquaresError(e + 2.0, 0.5, ACTIVATION_RECIPROCAL_ITERATIONS);
    assert start == -(e / 2.0);
    PoweredOfNegated(e / 2.0, ACTIVATION_RECIPROCAL_ITERATIONS);
    SixSquaringsVanish(e / 2.0, ACTIVATION_RECIPROCAL_ITERATIONS);
    FactorIsPositive(e + 2.0, y);
  }

  /** e <= 1 makes e + 2 at least 3 e. */
  lemma RatioIsBounded(e: real)
    requires 0.0 < e <= 1.0
    ensures 0.0 < Ratio(e) <= 1.0 / 3.0
  {
    var y := Newton(e + 2.0, 0.5, ACTIVATION_RECIPROCAL_ITERATIONS);
    ReciprocalOfSum(e, y);
    TimesIsPositive(e, y);
    TimesIsBounded(3.0 * e, y, e + 2.0, y);
    TimesAssociates(3.0, e, y);
  }

  /** Every term is at most a ninth of the one before. */
  lemma {:induction false} TermsShrink(ratio: real, k: nat)
    requires 0.0 < ratio <= 1.0 / 3.0
    ensures 0.0 < Term(ratio, k) && 9.0 * Term(ratio, k + 1) <= Term(ratio, k)
  {
    if k > 0 {
      TermsShrink(ratio, k - 1);
      TimesIsPositive(ratio, ratio);
      TimesIsPositive(Term(ratio, k - 1), Times(ratio, ratio));
    }
    TimesIsBounded(ratio, ratio, 1.0 / 3.0, 1.0 / 3.0);
    TimesIsBounded(Term(ratio, k), Times(ratio, ratio), Term(ratio, k), 1.0 / 9.0);
  }

  lemma PartIsBounded(term: real, k: nat)
    requires 0.0 < term && k >= 1
    ensures 0.0 <= Times(term, 1.0 / (2 * k + 1) as real) <= term / 3.0
  {
    var d := (2 * k + 1) as real;
    assert 0.0 <= 1.0 / d <= 1.0 / 3.0;
    TimesIsBounded(term, 1.0 / d, term, 1.0 / 3.0);
  }

  /** What is added behind the first term stays below a twenty-fourth of it. */
  lemma {:induction false} SeriesIsBounded(ratio: real, k: nat)
    requires 0.0 < ratio <= 1.0 / 3.0
    ensures ratio <= Series(ratio, k) && Series(ratio, k) + Term(ratio, k) / 24.0 <= ratio + ratio / 24.0
  {
    if k > 0 {
      SeriesIsBounded(ratio, k - 1);
      TermsShrink(ratio, k - 1);
      TermsShrink(ratio, k);
      PartIsBounded(Term(ratio, k), k);
    }
  }

  /** The softplus lies above max(c, 0), by at most 25/36: ln 2 is just below that. */
  lemma SoftplusIsBounded(c: real)
    ensures Max(c, 0.0) < Softplus(c) <= Max(c, 0.0) + 25.0 / 36.0
  {
    ActivationExpIsBounded(Times(Absolute(c), -1.0));
    var ratio := Ratio(Tail(c));
    RatioIsBounded(Tail(c));
    SeriesIsBounded(ratio, TERMS);
    TermsShrink(ratio, TERMS);
  }

  lemma SoftplusIsPositive(c: real)
    ensures 0.0 < Softplus(c)
  {
    SoftplusIsBounded(c);
  }

  lemma ScaledDown(x: real, factor: real)
    requires 0.0 < x && factor <= 0.0
    ensures Times(x, factor) <= 0.0 && (factor == 0.0 ==> Times(x, factor) == 0.0)
  {
    assert x * -factor >= 0.0;
  }

  lemma ExpOfScaledDown(x: real, factor: real)
    requires 0.0 < x && factor <= 0.0
    ensures 0.0 < ActivationExp(Times(x, factor)) <= 1.0
    ensures factor == 0.0 ==> ActivationExp(Times(x, factor)) == 1.0
  {
    ScaledDown(x, factor);
    ActivationExpIsBounded(Times(x, factor));
  }

  /** For every a_log up to 0 the factor lies in (0, 1], and it is 1 where a_log is 0. */
  lemma MultiplierIsBounded(alpha: real, bias: real, aLog: real)
    requires aLog <= 0.0
    ensures 0.0 < Multiplier(alpha, bias, aLog) <= 1.0
    ensures aLog == 0.0 ==> Multiplier(alpha, bias, aLog) == 1.0
  {
    SoftplusIsPositive(alpha + bias);
    ExpOfScaledDown(Softplus(alpha + bias), aLog);
  }

  /** The series by its powers. */
  lemma SeriesIsSum(ratio: real)
    ensures Series(ratio, TERMS) ==
            ratio + Times(Pow(ratio, 3), 1.0 / 3.0) + Times(Pow(ratio, 5), 1.0 / 5.0)
            + Times(Pow(ratio, 7), 1.0 / 7.0) + Times(Pow(ratio, 9), 1.0 / 9.0)
  {
    TermIsPower(ratio, 1);
    TermIsPower(ratio, 2);
    TermIsPower(ratio, 3);
    TermIsPower(ratio, 4);
    SeriesStep(ratio, 0);
    SeriesStep(ratio, 1);
    SeriesStep(ratio, 2);
    SeriesStep(ratio, 3);
  }

  lemma SeriesStep(ratio: real, k: nat)
    ensures Series(ratio, k + 1) == Series(ratio, k) + Times(Term(ratio, k + 1), 1.0 / (2 * k + 3) as real)
  {
  }

  lemma {:induction false} TermIsPower(ratio: real, k: nat)
    ensures Term(ratio, k) == Pow(ratio, 2 * k + 1)
  {
    if k == 0 {
      assert Pow(ratio, 1) == Times(ratio, Pow(ratio, 0)) == ratio;
    } else {
      TermIsPower(ratio, k - 1);
      assert Pow(ratio, 2 * k + 1) == Times(ratio, Pow(ratio, 2 * k));
      assert Pow(ratio, 2 * k) == Times(ratio, Pow(ratio, 2 * k - 1));
      TimesAssociates(ratio, ratio, Pow(ratio, 2 * k - 1));
      TimesCommutes(Times(ratio, ratio), Pow(ratio, 2 * k - 1));
    }
  }

  /** The ratio is e/(e + 2), short of it by one part in 2^64 at most. */
  lemma RatioIsQuotient(e: real)
    requires 0.0 < e <= 1.0
    ensures Times(e, 1.0 - TWO_TO_MINUS_32 * TWO_TO_MINUS_32) <= Times(Ratio(e), e + 2.0) <= e
  {
    var y := Newton(e + 2.0, 0.5, ACTIVATION_RECIPROCAL_ITERATIONS);
    NewtonSquaresError(e + 2.0, 0.5, ACTIVATION_RECIPROCAL_ITERATIONS);
    assert Error(e + 2.0, 0.5) == -(e / 2.0);
    PoweredOfNegated(e / 2.0, ACTIVATION_RECIPROCAL_ITERATIONS);
    SixSquaringsVanish(e / 2.0, ACTIVATION_RECIPROCAL_ITERATIONS);
    TimesAssociates(e, y, e + 2.0);
    TimesCommutes(y, e + 2.0);
    TimesIsBounded(e, 1.0 - TWO_TO_MINUS_32 * TWO_TO_MINUS_32, e, Times(e + 2.0, y));
    TimesIsBounded(e, Times(e + 2.0, y), e, 1.0);
  }

  lemma AbsoluteIsDistance(c: real)
    ensures Absolute(c) == if c < 0.0 then -c else c
  {
  }

  /** The factor is the exponential of the softplus times a_log, to within two powers; its tail is that of -|c|. */
  lemma MultiplierIsSqueezed(alpha: real, bias: real, aLog: real)
    requires aLog <= 0.0
    ensures var c, m := alpha + bias, Multiplier(alpha, bias, aLog);
            var z := Max(Times(Softplus(c), aLog), -16.0);
            Pow(1.0 + z / 16.0, 16) <= m && Times(m, Pow(1.0 - z / 8.0, 8)) <= 1.0
    ensures var c, distance := alpha + bias, if alpha + bias < 0.0 then -(alpha + bias) else alpha + bias;
            var z := Max(-distance, -16.0);
            Pow(1.0 + z / 16.0, 16) <= Tail(c) && Times(Tail(c), Pow(1.0 - z / 8.0, 8)) <= 1.0
  {
    var c := alpha + bias;
    SoftplusIsPositive(c);
    ScaledDown(Softplus(c), aLog);
    ActivationIsSqueezed(Times(Softplus(c), aLog));
    AbsoluteIsDistance(c);
    ActivationIsSqueezed(Times(Absolute(c), -1.0));
  }

  /** Twice the series, multiplied by e + 2, for a ratio that is e/(e + 2) up to 2^-64 of it. */
  lemma TwiceSeries(e: real, ratio: real, series: real)
    requires 0.0 < e <= 1.0 && ratio <= series <= ratio + ratio / 24.0
    requires Times(e, 1.0 - TWO_TO_MINUS_32 * TWO_TO_MINUS_32) <= Times(ratio, e + 2.0) <= e
    ensures 2.0 * Times(e, 1.0 - TWO_TO_MINUS_32 * TWO_TO_MINUS_32) <= Times(2.0 * series, e + 2.0) <= 25.0 / 12.0 * e
  {
    Scaled(ratio, series, e + 2.0);
    Scaled(series, ratio + ratio / 24.0, e + 2.0);
    assert Times(ratio + ratio / 24.0, e + 2.0) == 25.0 / 24.0 * Times(ratio, e + 2.0);
    assert Times(2.0 * series, e + 2.0) == 2.0 * Times(series, e + 2.0);
  }

  lemma Scaled(a: real, b: real, factor: real)
    requires a <= b && 0.0 < factor
    ensures Times(a, factor) <= Times(b, factor)
  {
    TimesIsBounded(b - a, factor, b - a, factor);
    assert Times(b - a, factor) == Times(b, factor) - Times(a, factor);
  }

  /** Above max(c, 0) the softplus adds 2 e/(e + 2), e the exponential of -|c|, and at most a twenty-fourth more:
      that is the logarithm of 1 + e. */
  lemma SoftplusFollowsTail(c: real)
    ensures var e, excess := Tail(c), Softplus(c) - Max(c, 0.0);
            2.0 * Times(e, 1.0 - TWO_TO_MINUS_32 * TWO_TO_MINUS_32) <= Times(excess, e + 2.0) <= 25.0 / 12.0 * e
  {
    var e := Tail(c);
    TailIsBounded(c);
    RatioIsBounded(e);
    RatioIsQuotient(e);
    TermsShrink(Ratio(e), TERMS);
    SeriesIsBounded(Ratio(e), TERMS);
    ExcessIs(c);
    TwiceSeries(e, Ratio(e), Series(Ratio(e), TERMS));
  }

  lemma TailIsBounded(c: real)
    ensures 0.0 < Tail(c) <= 1.0
  {
    ActivationExpIsBounded(Times(Absolute(c), -1.0));
  }

  lemma ExcessIs(c: real)
    ensures Softplus(c) - Max(c, 0.0) == 2.0 * Series(Ratio(Tail(c)), TERMS)
  {
  }
}
