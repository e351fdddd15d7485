/** Newton's reciprocal, the 128-wide softmax and the sigmoid built from elementwise submissions. */
module Softmax {
  import opened Words
  import opened ElementwiseMath
  import opened ExponentialBounds
  import opened ExponentialSqueeze
  import opened Vectors

  const WIDTH: nat := 128
  const EXP_LIMIT := -64.0
  const EXP_DIVISOR: nat := 128
  const ACTIVATION_EXP_LIMIT := -16.0
  const ACTIVATION_EXP_DIVISOR: nat := 8
  const RECIPROCAL_ITERATIONS: nat := 12
  const ACTIVATION_RECIPROCAL_ITERATIONS: nat := 6
  const TWO_TO_MINUS_32 := 1.0 / 4294967296.0

  // Newton's iteration

  function NewtonStep(x: real, y: real): real {
    Times(y, 2.0 + Times(Times(x, y), -1.0))
  }

  function Newton(x: real, start: real, iterations: nat): real
    decreases iterations, x
  {
    if iterations == 0 then start else NewtonStep(x, Newton(x, start, iterations - 1))
  }

  /** How far y is from the reciprocal of x. */
  function Error(x: real, y: real): real {
    1.0 - Times(x, y)
  }

  lemma StepSquaresError(x: real, y: real)
    ensures Error(x, NewtonStep(x, y)) == Times(Error(x, y), Error(x, y))
  {
    var p := x * y;
    assert x * (y * (2.0 - p)) == p * (2.0 - p);
    assert (1.0 - p) * (1.0 - p) == 1.0 - p * (2.0 - p);
  }

  /** After n iterations the error is the first one squared n times. */
  lemma {:induction false} NewtonSquaresError(x: real, start: real, iterations: nat)
    ensures Error(x, Newton(x, start, iterations)) == Powered(Error(x, start), iterations)
  {
    if iterations > 0 {
      NewtonSquaresError(x, start, iterations - 1);
      StepSquaresError(x, Newton(x, start, iterations - 1));
    }
  }

  method Reciprocal(source: Lanes, start: real, iterations: nat) returns (estimate: Lanes)
    ensures forall i :: 0 <= i < LANES ==> estimate[i] == Newton(source[i], start, iterations)
  {
    estimate := Const(start);
    for k := 0 to iterations
      invariant forall i :: 0 <= i < LANES ==> estimate[i] == Newton(source[i], start, k)
    {
      var product := Run(Mul, source, estimate);
      var negative := Run(Mul, product, Const(-1.0));
      var correction := Run(Add, Const(2.0), negative);
      estimate := Run(Mul, estimate, correction);
    }
  }

  lemma {:induction false} PoweredSplits(x: real, first: nat, rest: nat)
    ensures Powered(x, first + rest) == Powered(Powered(x, first), rest)
  {
    if rest > 0 {
      PoweredSplits(x, first, rest - 1);
    }
  }

  /** One squaring of a bounded number, with the bound rounded up. */
  lemma SquaresBelow(x: real, times: nat, bound: real, next: real)
    requires 0.0 <= Powered(x, times) <= bound && bound * bound <= next
    ensures 0.0 <= Powered(x, times + 1) <= next
  {
    TimesIsBounded(Powered(x, times), Powered(x, times), bound, bound);
  }

  /** (127/128)^128 <= 1/2 */
  lemma SevenSquaringsHalve(x: real, times: nat)
    requires 0.0 <= x <= 127.0 / 128.0 && times == 7
    ensures 0.0 <= Powered(x, times) <= 0.5
  {
    SquaresBelow(x, 0, 127.0 / 128.0, 0.98444);
    SquaresBelow(x, 1, 0.98444, 0.96913);
    SquaresBelow(x, 2, 0.96913, 0.93922);
    SquaresBelow(x, 3, 0.93922, 0.88214);
    SquaresBelow(x, 4, 0.88214, 0.77818);
    SquaresBelow(x, 5, 0.77818, 0.60557);
    SquaresBelow(x, 6, 0.60557, 0.5);
  }

  lemma FiveSquaringsVanish(x: real, times: nat)
    requires 0.0 <= x <= 0.5 && times == 5
    ensures 0.0 <= Powered(x, times) <= TWO_TO_MINUS_32
  {
    SquaresBelow(x, 0, 0.5, 0.25);
    SquaresBelow(x, 1, 0.25, 0.0625);
    SquaresBelow(x, 2, 0.0625, 1.0 / 256.0);
    SquaresBelow(x, 3, 1.0 / 256.0, 1.0 / 65536.0);
    SquaresBelow(x, 4, 1.0 / 65536.0, TWO_TO_MINUS_32);
  }

  /** Twelve squarings of a start error up to 1 - 1/128 leave at most 2^-32. */
  lemma TwelveSquaringsVanish(e: real, times: nat)
    requires 0.0 <= e <= 127.0 / 128.0 && times == RECIPROCAL_ITERATIONS
    ensures 0.0 <= Powered(e, times) <= TWO_TO_MINUS_32
  {
    var rest := times - 7;
    SevenSquaringsHalve(e, times - rest);
    PoweredSplits(e, times - rest, rest);
    FiveSquaringsVanish(Powered(e, times - rest), rest);
  }

  /** Six squarings of an error up to 1/2 leave at most 2^-64. */
  lemma SixSquaringsVanish(e: real, times: nat)
    requires 0.0 <= e <= 0.5 && times == ACTIVATION_RECIPROCAL_ITERATIONS
    ensures 0.0 <= Powered(e, times) <= TWO_TO_MINUS_32 * TWO_TO_MINUS_32
  {
    FiveSquaringsVanish(e, times - 1);
    SquaresBelow(e, times - 1, TWO_TO_MINUS_32, TWO_TO_MINUS_32 * TWO_TO_MINUS_32);
  }

  // Softmax

  /** The unnormalised weight of a score under the maximum. */
  function Weight(score: real, maximum: real): real {
    ExpLane(score + Times(maximum, -1.0), EXP_LIMIT, EXP_DIVISOR)
  }

  function Weights(scores: seq<real>, maximum: real): (weights: seq<real>)
    ensures |weights| == |scores|
  {
    seq(|scores|, i requires 0 <= i < |scores| => Weight(scores[i], maximum))
  }

  function Total(scores: seq<real>, maximum: real): real {
    Sum(Weights(scores, maximum), |scores|)
  }

  function Scaled(weights: seq<real>, factor: real): (scaled: seq<real>)
    ensures |scaled| == |weights|
  {
    seq(|weights|, i requires 0 <= i < |weights| => Times(weights[i], factor))
  }

  /** The reciprocal of a total as the softmax computes it. */
  function ReciprocalOf(total: real): real {
    Newton(total, 1.0 / WIDTH as real, RECIPROCAL_ITERATIONS)
  }

  /** What that reciprocal leaves of the error it starts from: (1 - total/128)^4096. */
  function Shortfall(total: real): real {
    Powered(1.0 - total / WIDTH as real, RECIPROCAL_ITERATIONS)
  }

  function Normalizer(scores: seq<real>, maximum: real): real {
    ReciprocalOf(Total(scores, maximum))
  }

  /** For every total a softmax can have, the product with its reciprocal falls short of 1 by at most 2^-32. */
  lemma ReciprocalFallsShort(total: real)
    requires 1.0 <= total <= WIDTH as real
    ensures 0.0 < ReciprocalOf(total) && Times(total, ReciprocalOf(total)) == 1.0 - Shortfall(total)
    ensures 0.0 <= Shortfall(total) <= TWO_TO_MINUS_32
  {
    var y := ReciprocalOf(total);
    NewtonSquaresError(total, 1.0 / WIDTH as real, RECIPROCAL_ITERATIONS);
    StartError(total);
    TwelveSquaringsVanish(1.0 - total / WIDTH as real, RECIPROCAL_ITERATIONS);
    FactorIsPositive(total, y);
  }

  lemma StartError(total: real)
    ensures Error(total, 1.0 / WIDTH as real) == 1.0 - total / WIDTH as real
  {
  }

  lemma {:induction false} SumOfScaled(weights: seq<real>, factor: real, n: nat)
    requires n <= |weights|
    ensures Sum(Scaled(weights, factor), n) == Times(Sum(weights, n), factor)
  {
    if n > 0 {
      SumOfScaled(weights, factor, n - 1);
      Distributes(Sum(weights, n - 1), weights[n - 1], factor);
    }
  }

  ghost predicate AreWeights(weights: seq<real>) {
    forall i :: 0 <= i < |weights| ==> 0.0 < weights[i] <= 1.0
  }

  lemma {:induction false} SumIsBounded(weights: seq<real>, n: nat)
    requires AreWeights(weights) && n <= |weights|
    ensures 0.0 <= Sum(weights, n) <= n as real
    ensures forall i :: 0 <= i < n ==> weights[i] <= Sum(weights, n)
  {
    if n > 0 {
      SumIsBounded(weights, n - 1);
    }
  }

  lemma WeightIsBounded(score: real, maximum: real)
    requires score <= maximum
    ensures 0.0 < Weight(score, maximum) <= 1.0
    ensures score == maximum ==> Weight(score, maximum) == 1.0
  {
    var distance := score + Times(maximum, -1.0);
    assert distance <= 0.0;
    ExpIsBounded(distance, EXP_LIMIT, EXP_DIVISOR);
  }

  lemma WeightsAreBounded(scores: seq<real>, maximum: real)
    requires IsMaximum(scores, |scores|, maximum)
    ensures AreWeights(Weights(scores, maximum))
    ensures 1.0 <= Total(scores, maximum) <= |scores| as real
  {
    var weights := Weights(scores, maximum);
    forall i | 0 <= i < |scores|
      ensures 0.0 < weights[i] <= 1.0
    {
      WeightIsBounded(scores[i], maximum);
    }
    SumIsBounded(weights, |scores|);
    var i :| 0 <= i < |scores| && scores[i] == maximum;
    WeightIsBounded(scores[i], maximum);
    assert weights[i] <= Sum(weights, |scores|);
  }

  /** The normaliser is the total's reciprocal up to 2^-32, and positive. */
  lemma NormalizerIsPositive(scores: seq<real>, maximum: real)
    requires |scores| == WIDTH && IsMaximum(scores, WIDTH, maximum)
    ensures var total, y := Total(scores, maximum), Normalizer(scores, maximum);
            0.0 < y && Times(total, y) == 1.0 - Shortfall(total) && 0.0 <= Shortfall(total) <= TWO_TO_MINUS_32
  {
    WeightsAreBounded(scores, maximum);
    ReciprocalFallsShort(Total(scores, maximum));
  }

  /** For any scores: every output is positive and together they fall short of 1 by at most 2^-32. */
  lemma SoftmaxIsNormalized(scores: seq<real>, maximum: real)
    requires |scores| == WIDTH && IsMaximum(scores, WIDTH, maximum)
    ensures var p := Probabilities(scores, maximum);
            && (forall i :: 0 <= i < WIDTH ==> 0.0 < p[i])
            && 1.0 - TWO_TO_MINUS_32 <= Sum(p, WIDTH) <= 1.0
            && Sum(p, WIDTH) == 1.0 - Shortfall(Total(scores, maximum))
            && 0.0 <= Shortfall(Total(scores, maximum)) <= TWO_TO_MINUS_32
  {
    var weights, y := Weights(scores, maximum), Normalizer(scores, maximum);
    WeightsAreBounded(scores, maximum);
    NormalizerIsPositive(scores, maximum);
    SumOfScaled(weights, y, WIDTH);
    forall i | 0 <= i < WIDTH
      ensures 0.0 < Scaled(weights, y)[i]
    {
      TimesIsPositive(weights[i], y);
    }
  }

  lemma FactorIsPositive(x: real, y: real)
    requires 0.0 < x && 0.0 < Times(x, y)
    ensures 0.0 < y
  {
    if y <= 0.0 {
      ProductWithNegative(x, y);
    }
  }

  lemma ProductWithNegative(x: real, y: real)
    requires 0.0 < x && y <= 0.0
    ensures Times(x, y) <= 0.0
  {
    assert x * -y >= 0.0;
  }

  /** A higher score never gets a lower probability. */
  lemma SoftmaxKeepsOrder(scores: seq<real>, maximum: real, i: nat, j: nat)
    requires |scores| == WIDTH && IsMaximum(scores, WIDTH, maximum)
    requires i < WIDTH && j < WIDTH && scores[i] <= scores[j]
    ensures var p := Probabilities(scores, maximum);
            p[i] <= p[j]
  {
    var weights, y := Weights(scores, maximum), Normalizer(scores, maximum);
    NormalizerIsPositive(scores, maximum);
    WeightIsBounded(scores[i], maximum);
    WeightKeepsOrder(scores[i], scores[j], maximum);
    TimesIsBounded(weights[i], y, weights[j], y);
  }

  lemma WeightKeepsOrder(low: real, high: real, maximum: real)
    requires low <= high <= maximum
    ensures Weight(low, maximum) <= Weight(high, maximum)
  {
    var x, y := low + Times(maximum, -1.0), high + Times(maximum, -1.0);
    assert x <= y <= 0.0;
    ExpKeepsOrder(x, y, EXP_LIMIT, EXP_DIVISOR);
  }

  /** The outputs under the scores' maximum, in score order. */
  function Probabilities(scores: seq<real>, maximum: real): (p: seq<real>)
    ensures |p| == |scores|
  {
    Scaled(Weights(scores, maximum), Normalizer(scores, maximum))
  }

  /** The submissions of one softmax. */
  method Submissions(scores: seq<real>) returns (p: seq<real>)
    requires |scores| == WIDTH
    ensures p == Probabilities(scores, Largest(scores, WIDTH))
  {
    var left, right := scores[..LANES], scores[LANES..];
    var leftMax := ReduceMax(left);
    var rightMax := ReduceMax(right);
    var largest := Run(Maximum, Const(leftMax), Const(rightMax))[0];
    MaximumOfHalves(scores, leftMax, rightMax);
    MaximumIsUnique(scores, WIDTH, largest);
    var leftExp := Shifted(left, largest);
    var rightExp := Shifted(right, largest);
    p := Normalize(scores, largest, leftExp, rightExp);
  }

  /** Softmax of 128 scores: positive probabilities, in the order of the scores, that sum to 1 up to 2^-32 and fall off
      from the largest one as the exponential of the scores' distance does. */
  method Call(scores: seq<real>) returns (r: Result<seq<real>>)
    ensures |scores| != WIDTH ==> r == Err(ValueError)
    ensures |scores| == WIDTH ==>
              r.Ok? && |r.value| == WIDTH && IsDistribution(scores, r.value) && FallsOff(scores, r.value)
  {
    if |scores| != WIDTH {
      return Err(ValueError);
    }
    var p := Submissions(scores);
    SoftmaxIsDistribution(scores, Largest(scores, WIDTH));
    SoftmaxFallsOff(scores);
    return Ok(p);
  }

  /** Positive, ordered as the scores, and summing to 1 up to 2^-32. */
  ghost predicate IsDistribution(scores: seq<real>, p: seq<real>)
    requires |p| == |scores|
  {
    && (forall i :: 0 <= i < |p| ==> 0.0 < p[i])
    && (forall i, j :: 0 <= i < |p| && 0 <= j < |p| && scores[i] <= scores[j] ==> p[i] <= p[j])
    && 1.0 - TWO_TO_MINUS_32 <= Sum(p, |p|) <= 1.0
  }

  /** Against the probability of a largest score, the one of a score at distance x lies between (1 + x/256)^256 and
      1/(1 - x/128)^128, where distances beyond -64 count as -64. */
  ghost predicate FallsOff(scores: seq<real>, p: seq<real>)
    requires |p| == |scores|
  {
    forall i, j {:trigger p[i], p[j]} ::
      0 <= i < |p| && 0 <= j < |p| && (forall k :: 0 <= k < |scores| ==> scores[k] <= scores[j]) ==>
        IsExponentialRatio(p[i], p[j], Max(scores[i] - scores[j], -64.0))
  }

  ghost predicate IsExponentialRatio(lower: real, upper: real, x: real) {
    && Times(upper, Pow(1.0 + x / 256.0, 256)) <= lower
    && Times(lower, Pow(1.0 - x / 128.0, 128)) <= upper
  }

  /** A share of `y` that is squeezed as its weight is. */
  lemma ShareIsSqueezed(w: real, y: real, lower: real, upper: real)
    requires 0.0 < y && 0.0 <= lower <= w && 0.0 <= upper && Times(w, upper) <= 1.0
    ensures Times(y, lower) <= Times(w, y) && Times(Times(w, y), upper) <= y
  {
    TimesIsBounded(lower, y, w, y);
    TimesCommutes(y, lower);
    TimesIsBounded(Times(w, upper), y, 1.0, y) by {
      TimesNotNegative(w, upper);
    }
    Rearrange(w, y, upper);
  }

  lemma TimesNotNegative(a: real, b: real)
    requires 0.0 <= a && 0.0 <= b
    ensures 0.0 <= Times(a, b)
  {
    TimesIsBounded(a, b, a, b);
  }

  lemma Rearrange(a: real, b: real, c: real)
    ensures Times(Times(a, b), c) == Times(Times(a, c), b)
  {
    assert (a * b) * c == (a * c) * b;
  }

  ghost predicate IsExponentialWeight(w: real, x: real) {
    && 0.0 <= Pow(1.0 + x / 256.0, 256) <= w && 0.0 <= Pow(1.0 - x / 128.0, 128)
    && Times(w, Pow(1.0 - x / 128.0, 128)) <= 1.0
  }

  lemma WeightIsSqueezed(score: real, maximum: real)
    requires score <= maximum
    ensures IsExponentialWeight(Weight(score, maximum), Max(score - maximum, -64.0))
  {
    var distance, x := score + Times(maximum, -1.0), Max(score - maximum, -64.0);
    if distance < -64.0 {
      ExpIsClamped(distance, EXP_LIMIT, EXP_DIVISOR);
    }
    SoftmaxExpIsSqueezed(x);
    PowIsMonotone(1.0 + x / 256.0, 1.0 + x / 256.0, 256);
    PowIsMonotone(1.0 - x / 128.0, 1.0 - x / 128.0, 128);
  }

  /** The weights are what the exponential makes of the distances from the maximum. */
  ghost predicate AreExponential(scores: seq<real>, weights: seq<real>, maximum: real) {
    && |weights| == |scores|
    && (forall i :: 0 <= i < |scores| && scores[i] == maximum ==> weights[i] == 1.0)
    && forall i :: 0 <= i < |scores| ==> IsExponentialWeight(weights[i], Max(scores[i] - maximum, -64.0))
  }

  lemma WeightsAreExponential(scores: seq<real>, maximum: real)
    requires forall i :: 0 <= i < |scores| ==> scores[i] <= maximum
    ensures AreExponential(scores, Weights(scores, maximum), maximum)
  {
    forall i | 0 <= i < |scores|
      ensures IsExponentialWeight(Weights(scores, maximum)[i], Max(scores[i] - maximum, -64.0))
      ensures scores[i] == maximum ==> Weights(scores, maximum)[i] == 1.0
    {
      WeightIsSqueezed(scores[i], maximum);
      WeightIsBounded(scores[i], maximum);
    }
  }

  lemma SoftmaxFallsOff(scores: seq<real>)
    requires |scores| == WIDTH
    ensures FallsOff(scores, Probabilities(scores, Largest(scores, WIDTH)))
  {
    var maximum := Largest(scores, WIDTH);
    NormalizerIsPositive(scores, maximum);
    WeightsAreExponential(scores, maximum);
    ScaledFallOff(scores, Weights(scores, maximum), maximum, Normalizer(scores, maximum));
  }

  lemma ScaledFallOff(scores: seq<real>, weights: seq<real>, maximum: real, y: real)
    requires AreExponential(scores, weights, maximum) && IsMaximum(scores, |scores|, maximum) && 0.0 < y
    ensures FallsOff(scores, Scaled(weights, y))
  {
    var p := Scaled(weights, y);
    forall i, j | 0 <= i < |p| && 0 <= j < |p| && (forall k :: 0 <= k < |scores| ==> scores[k] <= scores[j])
      ensures IsExponentialRatio(p[i], p[j], Max(scores[i] - scores[j], -64.0))
    {
      assert scores[j] == maximum;
      RatioOfWeights(weights[i], weights[j], y, Max(scores[i] - maximum, -64.0));
    }
  }

  lemma RatioOfWeights(w: real, one: real, y: real, x: real)
    requires one == 1.0 && 0.0 < y && IsExponentialWeight(w, x)
    ensures IsExponentialRatio(Times(w, y), Times(one, y), x)
  {
    ShareIsSqueezed(w, y, Pow(1.0 + x / 256.0, 256), Pow(1.0 - x / 128.0, 128));
    assert Times(one, y) == y;
  }

  lemma SoftmaxIsDistribution(scores: seq<real>, maximum: real)
    requires |scores| == WIDTH && IsMaximum(scores, WIDTH, maximum)
    ensures IsDistribution(scores, Probabilities(scores, maximum))
  {
    SoftmaxIsNormalized(scores, maximum);
    var p := Probabilities(scores, maximum);
    forall i, j | 0 <= i < WIDTH && 0 <= j < WIDTH && scores[i] <= scores[j]
      ensures p[i] <= p[j]
    {
      SoftmaxKeepsOrder(scores, maximum, i, j);
    }
  }

  method Normalize(ghost scores: seq<real>, ghost maximum: real, leftExp: Lanes, rightExp: Lanes)
    returns (result: seq<real>)
    requires |scores| == WIDTH
    requires forall i :: 0 <= i < LANES ==> leftExp[i] == Weights(scores, maximum)[i]
    requires forall i :: 0 <= i < LANES ==> rightExp[i] == Weights(scores, maximum)[LANES + i]
    ensures result == Probabilities(scores, maximum)
  {
    var leftSum := ReduceSum(leftExp);
    var rightSum := ReduceSum(rightExp);
    var total := Run(Add, Const(leftSum), Const(rightSum))[0];
    SumOfHalves(Weights(scores, maximum), leftExp, rightExp, LANES);
    assert total == Total(scores, maximum);
    var estimate := Reciprocal(Const(total), 1.0 / WIDTH as real, RECIPROCAL_ITERATIONS);
    var reciprocal := estimate[0];
    assert reciprocal == Normalizer(scores, maximum);
    result := ScaleHalves(Weights(scores, maximum), leftExp, rightExp, reciprocal);
  }

  method ScaleHalves(ghost weights: seq<real>, leftExp: Lanes, rightExp: Lanes, reciprocal: real)
    returns (result: seq<real>)
    requires |weights| == WIDTH
    requires forall i :: 0 <= i < LANES ==> leftExp[i] == weights[i] && rightExp[i] == weights[LANES + i]
    ensures result == Scaled(weights, reciprocal)
  {
    var leftProbability: seq<real> := Run(Mul, leftExp, Const(reciprocal));
    var rightProbability: seq<real> := Run(Mul, rightExp, Const(reciprocal));
    result := leftProbability + rightProbability;
  }

  method Shifted(scores: Lanes, maximum: real) returns (weights: Lanes)
    ensures forall i :: 0 <= i < LANES ==> weights[i] == Weight(scores[i], maximum)
  {
    var negativeMaximum := Run(Mul, Const(maximum), Const(-1.0));
    weights := Exp(Run(Add, scores, negativeMaximum), EXP_LIMIT, EXP_DIVISOR);
  }

  lemma MaximumOfHalves(scores: seq<real>, left: real, right: real)
    requires |scores| == WIDTH
    requires IsMaximum(scores[..LANES], LANES, left) && IsMaximum(scores[LANES..], LANES, right)
    ensures IsMaximum(scores, WIDTH, Max(left, right))
  {
    var larger := Max(left, right);
    assert forall i :: 0 <= i < LANES ==> scores[i] == scores[..LANES][i] && scores[LANES + i] == scores[LANES..][i];
    forall i | 0 <= i < WIDTH
      ensures scores[i] <= larger
    {
      assert i >= LANES ==> scores[i] == scores[LANES..][i - LANES];
    }
  }

  lemma {:induction false} SumOfFirst(weights: seq<real>, left: seq<real>, n: nat)
    requires n <= |left| <= |weights| && forall i :: 0 <= i < |left| ==> left[i] == weights[i]
    ensures Sum(weights, n) == Sum(left, n)
  {
    if n > 0 {
      SumOfFirst(weights, left, n - 1);
    }
  }

  lemma {:induction false} SumOfHalves(weights: seq<real>, left: seq<real>, right: seq<real>, n: nat)
    requires |left| == |right| == LANES && n <= LANES && |weights| == WIDTH
    requires forall i :: 0 <= i < LANES ==> left[i] == weights[i] && right[i] == weights[LANES + i]
    ensures Sum(weights, LANES + n) == Sum(left, LANES) + Sum(right, n)
  {
    if n == 0 {
      SumOfFirst(weights, left, LANES);
    } else {
      SumOfHalves(weights, left, right, n - 1);
    }
  }

  // Sigmoid

  function ActivationExp(x: real): real {
    ExpLane(x, ACTIVATION_EXP_LIMIT, ACTIVATION_EXP_DIVISOR)
  }

  /** -max(-x, 0) */
  function NegativePart(x: real): real {
    Times(Max(Times(x, -1.0), 0.0), -1.0)
  }

  /** -max(x, 0) */
  function PositivePart(x: real): real {
    Times(Max(x, 0.0), -1.0)
  }

  function Sigmoid(x: real): real {
    Share(ActivationExp(NegativePart(x)), ActivationExp(PositivePart(x)))
  }

  /** One of two weights over their sum. */
  function Share(numerator: real, other: real): real {
    Times(numerator, Newton(numerator + other, 0.5, ACTIVATION_RECIPROCAL_ITERATIONS))
  }

  method SigmoidLanes(value: Lanes) returns (result: Lanes)
    ensures forall i :: 0 <= i < LANES ==> result[i] == Sigmoid(value[i])
  {
    var zero, negativeOne := Const(0.0), Const(-1.0);
    var negative := Run(Mul, value, negativeOne);
    var negativeHalf := Run(Maximum, negative, zero);
    var positiveHalf := Run(Maximum, value, zero);
    var numerator := Exp(Run(Mul, negativeHalf, negativeOne), ACTIVATION_EXP_LIMIT, ACTIVATION_EXP_DIVISOR);
    var other := Exp(Run(Mul, positiveHalf, negativeOne), ACTIVATION_EXP_LIMIT, ACTIVATION_EXP_DIVISOR);
    var denominator := Run(Add, numerator, other);
    var reciprocal := Reciprocal(denominator, 0.5, ACTIVATION_RECIPROCAL_ITERATIONS);
    result := Run(Mul, numerator, reciprocal);
  }

  lemma PartsMirror(x: real)
    ensures NegativePart(x) <= 0.0 && PositivePart(x) <= 0.0
    ensures NegativePart(x) == 0.0 || PositivePart(x) == 0.0
    ensures NegativePart(-x) == PositivePart(x) && PositivePart(-x) == NegativePart(x)
  {
    assert Times(-x, -1.0) == x && Times(x, -1.0) == -x;
  }

  lemma ActivationExpIsBounded(x: real)
    requires x <= 0.0
    ensures 0.0 < ActivationExp(x) <= 1.0
    ensures x == 0.0 ==> ActivationExp(x) == 1.0
  {
    ExpIsBounded(x, ACTIVATION_EXP_LIMIT, ACTIVATION_EXP_DIVISOR);
  }

  /** Two weights, one of them 1: their shares are positive and sum to 1 - e, with e at most 2^-64. */
  lemma SharesAreNormalized(n: real, o: real)
    requires 0.0 < n <= 1.0 && 0.0 < o <= 1.0 && (n == 1.0 || o == 1.0)
    ensures 0.0 < Share(n, o) && 0.0 < Share(o, n)
    ensures 1.0 - TWO_TO_MINUS_32 * TWO_TO_MINUS_32 <= Share(n, o) + Share(o, n) <= 1.0
  {
    assert n + o == o + n;
    var y := Newton(n + o, 0.5, ACTIVATION_RECIPROCAL_ITERATIONS);
    NewtonSquaresError(n + o, 0.5, ACTIVATION_RECIPROCAL_ITERATIONS);
    assert Error(n + o, 0.5) == 1.0 - (n + o) / 2.0;
    SixSquaringsVanish(Error(n + o, 0.5), ACTIVATION_RECIPROCAL_ITERATIONS);
    FactorIsPositive(n + o, y);
    Distributes(n, o, y);
    TimesIsPositive(n, y);
    TimesIsPositive(o, y);
  }

  /** The two weights of a sigmoid lie in (0, 1], one of them is 1, and negation exchanges them. */
  lemma SigmoidWeights(x: real, n: real, o: real)
    requires n == ActivationExp(NegativePart(x)) && o == ActivationExp(PositivePart(x))
    ensures 0.0 < n <= 1.0 && 0.0 < o <= 1.0 && (n == 1.0 || o == 1.0)
    ensures Sigmoid(x) == Share(n, o) && Sigmoid(-x) == Share(o, n)
  {
    PartsMirror(x);
    ActivationExpIsBounded(NegativePart(x));
    ActivationExpIsBounded(PositivePart(x));
  }

  /** The sigmoid lies strictly between 0 and 1, and with its mirror image falls short of 1 by at most 2^-64. */
  lemma SigmoidsAreComplementary(x: real)
    ensures 0.0 < Sigmoid(x) < 1.0
    ensures 1.0 - TWO_TO_MINUS_32 * TWO_TO_MINUS_32 <= Sigmoid(x) + Sigmoid(-x) <= 1.0
  {
    var n, o := ActivationExp(NegativePart(x)), ActivationExp(PositivePart(x));
    SigmoidWeights(x, n, o);
    SharesAreNormalized(n, o);
  }

  lemma ActivationIsSqueezed(x: real)
    requires x <= 0.0
    ensures var z, e := Max(x, -16.0), ActivationExp(x);
            && 0.0 <= Pow(1.0 + z / 16.0, 16) <= e && 0.0 <= Pow(1.0 - z / 8.0, 8)
            && Times(e, Pow(1.0 - z / 8.0, 8)) <= 1.0
  {
    var z := Max(x, -16.0);
    if x < -16.0 {
      ExpIsClamped(x, ACTIVATION_EXP_LIMIT, ACTIVATION_EXP_DIVISOR);
    }
    ActivationExpIsSqueezed(z);
    PowIsMonotone(1.0 + z / 16.0, 1.0 + z / 16.0, 16);
    PowIsMonotone(1.0 - z / 8.0, 1.0 - z / 8.0, 8);
  }

  /** From x = 0 on the sigmoid is the share of weight 1 against the exponential of -x, and at -x the other share. */
  lemma SigmoidIsShare(x: real)
    requires 0.0 <= x
    ensures Sigmoid(x) == Share(1.0, ActivationExp(-x)) && Sigmoid(-x) == Share(ActivationExp(-x), 1.0)
  {
    NegativeWeight(x);
    PositiveWeight(x);
    SigmoidWeights(x, 1.0, ActivationExp(-x));
  }

  lemma NegativeWeight(x: real)
    requires 0.0 <= x
    ensures ActivationExp(NegativePart(x)) == 1.0
  {
    PartsOfPositive(x);
    ActivationExpIsBounded(NegativePart(x));
  }

  lemma PositiveWeight(x: real)
    requires 0.0 <= x
    ensures ActivationExp(PositivePart(x)) == ActivationExp(-x)
  {
    PartsOfPositive(x);
  }

  /** The smaller share against the larger one falls off as the exponential does. */
  lemma SharesFallOff(o: real, z: real)
    requires 0.0 < o <= 1.0
    requires 0.0 <= Pow(1.0 + z / 16.0, 16) <= o && 0.0 <= Pow(1.0 - z / 8.0, 8)
    requires Times(o, Pow(1.0 - z / 8.0, 8)) <= 1.0
    ensures Times(Share(1.0, o), Pow(1.0 + z / 16.0, 16)) <= Share(o, 1.0)
    ensures Times(Share(o, 1.0), Pow(1.0 - z / 8.0, 8)) <= Share(1.0, o)
  {
    var y := Newton(1.0 + o, 0.5, ACTIVATION_RECIPROCAL_ITERATIONS);
    SharesOfSum(1.0, o, y);
    ShareIsSqueezed(o, y, Pow(1.0 + z / 16.0, 16), Pow(1.0 - z / 8.0, 8));
  }

  lemma PartsOfPositive(x: real)
    requires 0.0 <= x
    ensures NegativePart(x) == 0.0 && PositivePart(x) == -x
  {
  }

  lemma SharesOfSum(n: real, o: real, y: real)
    requires n == 1.0 && 0.0 < o <= 1.0 && y == Newton(n + o, 0.5, ACTIVATION_RECIPROCAL_ITERATIONS)
    ensures 0.0 < y && Share(n, o) == y && Share(o, n) == Times(o, y)
  {
    SharesAreNormalized(n, o);
    assert n + o == o + n;
  }
}
