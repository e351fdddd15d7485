/** Row-wise RMS and L2 normalisation from elementwise submissions, and the inverse square root they divide by. */
module Normalization {
  import opened Words
  import opened ElementwiseMath
  import opened Vectors

  const ROOT_HALF := 0.7071067811865476
  const ROOT_ITERATIONS: nat := 5
  const TWO_TO_MINUS_40 := 1.0 / 1099511627776.0

  // The starting estimate

  /** 2 to the power e. */
  function Pow2(e: int): real
    decreases if e < 0 then -e else e
  {
    if e == 0 then 1.0 else if e > 0 then 2.0 * Pow2(e - 1) else Pow2(e + 1) / 2.0
  }

  /** The exponent math.frexp gives: x is 2^e times a fraction in [1/2, 1). */
  predicate IsExponent(x: real, e: int) {
    Pow2(e - 1) <= x < Pow2(e)
  }

  lemma {:induction false} Pow2IsPositive(e: int)
    ensures 0.0 < Pow2(e)
    decreases if e < 0 then -e else e
  {
    if e != 0 {
      Pow2IsPositive(if e > 0 then e - 1 else e + 1);
    }
  }

  lemma {:induction false} Pow2Doubles(e: int)
    ensures Pow2(e) == 2.0 * Pow2(e - 1)
  {
  }

  /** 2^(2h) * (2^-h)^2 = 1 */
  lemma {:induction false} HalvesCancel(h: int)
    ensures Times(Pow2(h + h), Times(Pow2(-h), Pow2(-h))) == 1.0
    decreases if h < 0 then -h else h
  {
    if h != 0 {
      var g := if h > 0 then h - 1 else h + 1;
      HalvesCancel(g);
      Pow2Doubles(h + h);
      Pow2Doubles(h + h - 1);
      Pow2Doubles(g + g);
      Pow2Doubles(g + g - 1);
      Pow2Doubles(-h);
      Pow2Doubles(-g);
      if h > 0 {
        Rescale(Pow2(g + g), Pow2(-g), Pow2(h + h), Pow2(-h));
      } else {
        Rescale(Pow2(h + h), Pow2(-h), Pow2(g + g), Pow2(-g));
      }
    }
  }

  lemma Rescale(a: real, b: real, a': real, b': real)
    requires a' == 4.0 * a && b == 2.0 * b'
    ensures Times(a', Times(b', b')) == Times(a, Times(b, b))
  {
    assert a * (b * b) == a * (4.0 * (b' * b'));
  }

  function Start(e: int): real {
    Times(if e % 2 == 1 then ROOT_HALF else 1.0, Pow2(-(e / 2)))
  }

  /** How far y is from the inverse root of x. */
  function Residual(x: real, y: real): real {
    1.0 - Times(Times(x, y), y)
  }

  lemma TimesIsMonotone(a: real, b: real, w: real)
    requires 0.0 < w
    ensures a <= b ==> Times(a, w) <= Times(b, w)
    ensures a < b ==> Times(a, w) < Times(b, w)
  {
    assert Times(b, w) - Times(a, w) == (b - a) * w;
    if a < b {
      TimesIsPositive(b - a, w);
      assert Times(b - a, w) == (b - a) * w;
    }
  }

  /** Scaling by an even power of two brings the argument into [1/2, 1) or [1, 2), by the exponent's parity. */
  lemma ScaledArgument(x: real, e: int, h: int, w: real)
    requires IsExponent(x, e) && h == e / 2 && w == Times(Pow2(-h), Pow2(-h))
    ensures e % 2 == 1 ==> 1.0 <= Times(x, w) < 2.0
    ensures e % 2 == 0 ==> 0.5 <= Times(x, w) < 1.0
  {
    Pow2IsPositive(-h);
    TimesIsPositive(Pow2(-h), Pow2(-h));
    HalvesCancel(h);
    TimesIsMonotone(Pow2(e - 1), x, w);
    TimesIsMonotone(x, Pow2(e), w);
    DoubledPower(e, w);
    if e % 2 == 1 {
      assert e - 1 == h + h;
    } else {
      assert e == h + h;
    }
  }

  lemma DoubledPower(e: int, w: real)
    ensures Times(Pow2(e), w) == 2.0 * Times(Pow2(e - 1), w)
  {
    Pow2Doubles(e);
    TimesAssociates(2.0, Pow2(e - 1), w);
  }

  /** For both exponent parities the start is within a half: an odd exponent goes through sqrt(1/2). */
  lemma StartIsClose(x: real, e: int)
    requires IsExponent(x, e)
    ensures -0.5 <= Residual(x, Start(e)) <= 0.5
  {
    var p := Pow2(-(e / 2));
    ScaledArgument(x, e, e / 2, Times(p, p));
    SquareOfStart(x, if e % 2 == 1 then ROOT_HALF else 1.0, p);
  }

  lemma SquareOfStart(x: real, f: real, p: real)
    ensures Times(Times(x, Times(f, p)), Times(f, p)) == Times(f * f, Times(x, Times(p, p)))
  {
    var y := f * p;
    assert (x * y) * y == x * (y * y);
    assert y * y == (f * f) * (p * p);
  }

  // Newton's step for the inverse root

  function RootStep(x: real, y: real): real {
    Times(y, Times(3.0 + Times(Times(Times(x, y), y), -1.0), 0.5))
  }

  function Root(x: real, start: real, steps: nat): real {
    if steps == 0 then start else RootStep(x, Root(x, start, steps - 1))
  }

  /** What one step makes of a residual: d^2 (3 + d) / 4. */
  function NextResidual(d: real): real {
    Times(Times(d, d), 3.0 + d) / 4.0
  }

  lemma StepOnResidual(x: real, y: real)
    ensures Residual(x, RootStep(x, y)) == NextResidual(Residual(x, y))
  {
    var u := (x * y) * y;
    var c := (3.0 - u) * 0.5;
    assert RootStep(x, y) == y * c;
    assert (x * (y * c)) * (y * c) == (u * c) * c;
    ResidualPolynomial(u, c);
  }

  lemma ResidualPolynomial(u: real, c: real)
    requires c == (3.0 - u) * 0.5
    ensures 1.0 - (u * c) * c == ((1.0 - u) * (1.0 - u)) * (3.0 + (1.0 - u)) / 4.0
  {
    assert c * c == (9.0 - 6.0 * u + u * u) / 4.0;
    assert (u * c) * c == u * (c * c);
    assert u * (9.0 - 6.0 * u + u * u) == 9.0 * u - 6.0 * (u * u) + u * (u * u);
    assert (1.0 - u) * (1.0 - u) == 1.0 - 2.0 * u + u * u;
    assert (1.0 - 2.0 * u + u * u) * (4.0 - u) == 4.0 - 9.0 * u + 6.0 * (u * u) - u * (u * u);
  }

  /** A bounded residual shrinks quadratically, and is never negative again. */
  lemma ResidualShrinks(d: real, bound: real, next: real)
    requires -bound <= d <= bound <= 0.5 && bound * bound * (3.0 + bound) / 4.0 <= next
    ensures 0.0 <= NextResidual(d) <= next
  {
    var size := if d < 0.0 then -d else d;
    assert Times(size, size) == Times(d, d);
    TimesIsBounded(size, size, bound, bound);
    TimesIsBounded(Times(d, d), 3.0 + d, Times(bound, bound), 3.0 + bound);
  }

  /** Five steps from a start within a half leave at most 2^-40. */
  lemma FiveStepsConverge(x: real, start: real)
    requires -0.5 <= Residual(x, start) <= 0.5
    ensures 0.0 <= Residual(x, Root(x, start, ROOT_ITERATIONS)) <= TWO_TO_MINUS_40
  {
    StepConverges(x, start, 0, 0.5, 0.21875);
    StepConverges(x, start, 1, 0.21875, 0.0386);
    StepConverges(x, start, 2, 0.0386, 0.001133);
    StepConverges(x, start, 3, 0.001133, 0.000000964);
    StepConverges(x, start, 4, 0.000000964, TWO_TO_MINUS_40);
  }

  lemma StepConverges(x: real, start: real, steps: nat, bound: real, next: real)
    requires -bound <= Residual(x, Root(x, start, steps)) <= bound <= 0.5
    requires bound * bound * (3.0 + bound) / 4.0 <= next
    ensures 0.0 <= Residual(x, Root(x, start, steps + 1)) <= next
  {
    StepOnResidual(x, Root(x, start, steps));
    ResidualShrinks(Residual(x, Root(x, start, steps)), bound, next);
  }

  lemma {:induction false} RootStaysPositive(x: real, start: real, steps: nat)
    requires 0.0 < x && 0.0 < start && -0.5 <= Residual(x, start) <= 0.5
    ensures 0.0 < Root(x, start, steps) && -0.5 <= Residual(x, Root(x, start, steps)) <= 0.5
  {
    if steps > 0 {
      RootStaysPositive(x, start, steps - 1);
      var y := Root(x, start, steps - 1);
      StepOnResidual(x, y);
      ResidualShrinks(Residual(x, y), 0.5, 0.5);
      TimesIsPositive(y, Times(3.0 + Times(Times(Times(x, y), y), -1.0), 0.5));
    }
  }

  lemma StartIsPositive(e: int)
    ensures 0.0 < Start(e)
  {
    Pow2IsPositive(-(e / 2));
    TimesIsPositive(if e % 2 == 1 then ROOT_HALF else 1.0, Pow2(-(e / 2)));
  }

  /** The inverse root is positive and |1 - x y^2| is at most 2^-40. */
  ghost predicate IsInverseRoot(x: real, y: real) {
    0.0 < y && 0.0 <= Residual(x, y) <= TWO_TO_MINUS_40
  }

  /** The submissions: five steps from the start the exponent gives; `exponent` is math.frexp's. */
  method InverseSqrt(value: real, exponent: int) returns (r: Result<real>)
    requires 0.0 < value ==> IsExponent(value, exponent)
    ensures value <= 0.0 ==> r == Err(RuntimeError)
    ensures 0.0 < value ==> r == Ok(Root(value, Start(exponent), ROOT_ITERATIONS)) && IsInverseRoot(value, r.value)
  {
    if value <= 0.0 {
      return Err(RuntimeError);
    }
    var factor := if exponent % 2 != 0 then ROOT_HALF else 1.0;
    var initial := factor * Pow2(-(exponent / 2));
    var source := Const(value);
    var estimate := Const(initial);
    for k := 0 to ROOT_ITERATIONS
      invariant forall i :: 0 <= i < LANES ==> estimate[i] == Root(value, Start(exponent), k)
    {
      var product := Run(Mul, source, estimate);
      product := Run(Mul, product, estimate);
      var negative := Run(Mul, product, Const(-1.0));
      var correction := Run(Add, Const(3.0), negative);
      var half := Run(Mul, correction, Const(0.5));
      estimate := Run(Mul, estimate, half);
    }
    InverseRootConverges(value, exponent);
    return Ok(estimate[0]);
  }

  lemma InverseRootConverges(x: real, e: int)
    requires 0.0 < x && IsExponent(x, e)
    ensures IsInverseRoot(x, Root(x, Start(e), ROOT_ITERATIONS))
  {
    StartIsClose(x, e);
    StartIsPositive(e);
    FiveStepsConverge(x, Start(e));
    RootStaysPositive(x, Start(e), ROOT_ITERATIONS);
  }

  /** Every positive number has an exponent, so the convergence covers all of them. */
  lemma {:induction false} ExponentExists(x: real, low: int, high: int) returns (e: int)
    requires low < high && Pow2(low) <= x < Pow2(high)
    ensures IsExponent(x, e)
    decreases high - low
  {
    if x < Pow2(high - 1) {
      e := ExponentExists(x, low, high - 1);
    } else {
      e := high;
    }
  }

  lemma {:induction false} Pow2Exceeds(n: nat)
    ensures n as real < Pow2(n)
  {
    if n > 0 {
      Pow2Exceeds(n - 1);
    }
  }

  lemma {:induction false} Pow2Inverts(n: int)
    requires 0 <= n
    ensures Times(Pow2(n), Pow2(-n)) == 1.0
  {
    if n > 0 {
      Pow2Inverts(n - 1);
      Pow2Doubles(n);
      Pow2Doubles(-(n - 1));
      assert Times(2.0 * Pow2(n - 1), Pow2(-n)) == Times(Pow2(n - 1), 2.0 * Pow2(-n));
    }
  }

  lemma PositiveHasExponent(x: real) returns (e: int)
    requires 0.0 < x
    ensures IsExponent(x, e)
  {
    var above, below := x.Floor + 1, (1.0 / x).Floor + 1;
    assert 1.0 / x > 0.0 && Times(1.0 / x, x) == 1.0;
    Pow2Exceeds(above);
    Pow2Exceeds(below);
    Pow2Inverts(below);
    Pow2IsPositive(-below);
    ReciprocalIsBelow(1.0 / x, x, Pow2(below), Pow2(-below));
    assert Pow2(-below) <= x < Pow2(above);
    if above <= -below {
      Pow2IsMonotone(above, -below);
    }
    e := ExponentExists(x, -below, above);
  }

  lemma {:induction false} Pow2IsMonotone(a: int, b: int)
    requires a <= b
    ensures Pow2(a) <= Pow2(b)
    decreases b - a
  {
    if a < b {
      Pow2IsMonotone(a, b - 1);
      Pow2IsPositive(b - 1);
      Pow2Doubles(b);
    }
  }

  /** If 1/x < 1/p then p < x. */
  lemma ReciprocalIsBelow(inverseX: real, x: real, inverseP: real, p: real)
    requires 0.0 < x && 0.0 < p && Times(inverseX, x) == 1.0 && Times(inverseP, p) == 1.0 && inverseX < inverseP
    ensures p <= x
  {
    TimesIsMonotone(inverseX, inverseP, x);
    if x < p {
      ProductIsBelow(inverseP, x, p);
    }
  }

  lemma ProductIsBelow(q: real, x: real, p: real)
    requires 0.0 < x < p && Times(q, p) == 1.0
    ensures Times(q, x) < 1.0
  {
    if q <= 0.0 {
      NotPositive(q, p);
    } else {
      TimesIsPositive(q, p - x);
      assert Times(q, p - x) == Times(q, p) - Times(q, x);
    }
  }

  lemma NotPositive(q: real, p: real)
    requires q <= 0.0 && 0.0 < p
    ensures Times(q, p) <= 0.0
  {
    assert -q * p >= 0.0;
  }

  // One row

  /** Sum of the squares of the first n elements. */
  function SumOfSquares(row: seq<real>, n: nat): real
    requires n <= |row|
  {
    if n == 0 then 0.0 else SumOfSquares(row, n - 1) + Times(row[n - 1], row[n - 1])
  }

  lemma {:induction false} ChunkAdds(row: seq<real>, from: nat, squares: seq<real>, n: nat)
    requires from + |squares| <= |row| && n <= |squares|
    requires forall i :: 0 <= i < |squares| ==> squares[i] == Times(row[from + i], row[from + i])
    ensures SumOfSquares(row, from + n) == SumOfSquares(row, from) + Sum(squares, n)
  {
    if n > 0 {
      ChunkAdds(row, from, squares, n - 1);
    }
  }

  lemma {:induction false} SumIgnoresZeros(values: seq<real>, n: nat, m: nat)
    requires n <= m <= |values| && forall i :: n <= i < m ==> values[i] == 0.0
    ensures Sum(values, m) == Sum(values, n)
    decreases m
  {
    if n < m {
      SumIgnoresZeros(values, n, m - 1);
    }
  }

  lemma {:induction false} SumIgnoresLater(values: seq<real>, n: nat, at: nat, value: real)
    requires n <= at < |values|
    ensures Sum(values[at := value], n) == Sum(values, n)
  {
    if n > 0 {
      SumIgnoresLater(values, n - 1, at, value);
    }
  }

  /** The rows the operations accept: whole chunks, at most one partial sum a lane. */
  predicate Accepts(row: seq<real>) {
    |row| > 0 && |row| % LANES == 0 && |row| <= LANES * LANES
  }

  method SumSquares(row: seq<real>) returns (total: real)
    requires Accepts(row)
    ensures total == SumOfSquares(row, |row|)
  {
    var partials: Lanes := Const(0.0);
    for index := 0 to |row| / LANES
      invariant Sum(partials, index) == SumOfSquares(row, index * LANES)
      invariant forall i :: index <= i < LANES ==> partials[i] == 0.0
    {
      var offset := index * LANES;
      var squared := Run(Square, row[offset..offset + LANES], Const(0.0));
      var partial := ReduceSum(squared);
      ChunkAdds(row, offset, squared, LANES);
      SumIgnoresLater(partials, index, index, partial);
      partials := partials[index := partial];
    }
    SumIgnoresZeros(partials, |row| / LANES, LANES);
    total := ReduceSum(partials);
  }

  /** What the inverse root is taken of. */
  function Adjusted(row: seq<real>, eps: real, mean: bool): real
    requires |row| > 0
  {
    var total := SumOfSquares(row, |row|);
    if mean then Max(Times(total, 1.0 / |row| as real), eps) else Times(total, 1.0) + eps
  }

  function ScaledRow(row: seq<real>, factor: real): (r: seq<real>)
    ensures |r| == |row|
  {
    seq(|row|, i requires 0 <= i < |row| => Times(row[i], factor))
  }

  lemma {:induction false} SquaresOfScaled(row: seq<real>, factor: real, n: nat)
    requires n <= |row|
    ensures SumOfSquares(ScaledRow(row, factor), n) == Times(SumOfSquares(row, n), Times(factor, factor))
  {
    if n > 0 {
      SquaresOfScaled(row, factor, n - 1);
      SquareOfProduct(row[n - 1], factor);
      var f2 := Times(factor, factor);
      Distributes(SumOfSquares(row, n - 1), Times(row[n - 1], row[n - 1]), f2);
    }
  }

  lemma SquareOfProduct(a: real, f: real)
    ensures Times(Times(a, f), Times(a, f)) == Times(Times(a, a), Times(f, f))
  {
    assert (a * f) * (a * f) == (a * a) * (f * f);
  }

  /** The scaled row's square sum times the adjusted sum is scale^2 times the square sum itself, up to 2^-40 of it. */
  lemma RowIsNormalized(row: seq<real>, adjusted: real, inverse: real, scale: real)
    requires 0.0 < adjusted && IsInverseRoot(adjusted, inverse)
    ensures var target := Times(SumOfSquares(row, |row|), Times(scale, scale));
            var squares := SumOfSquares(ScaledRow(row, Times(inverse, scale)), |row|);
            Times(target, 1.0 - TWO_TO_MINUS_40) <= Times(squares, adjusted) <= target
  {
    var total := SumOfSquares(row, |row|);
    var w, s2 := Times(inverse, inverse), Times(scale, scale);
    SquaresOfScaled(row, Times(inverse, scale), |row|);
    SquareOfProduct(inverse, scale);
    TimesAssociates(adjusted, inverse, inverse);
    Regroup(total, w, s2, adjusted);
    SquaresAreNotNegative(row, |row|);
    SquareIsNotNegative(scale);
    TimesIsBounded(total, s2, total, s2);
    Shrinks(Times(total, s2), Residual(adjusted, inverse));
  }

  lemma Regroup(a: real, b: real, c: real, d: real)
    ensures Times(Times(a, Times(b, c)), d) == Times(Times(a, c), Times(d, b))
  {
    assert (a * (b * c)) * d == (a * c) * (d * b);
  }

  /** The weight of the RMS form; the L2 form has none. */
  datatype Weight = Unweighted | Weighted(weight: seq<real>)

  function Weigh(weight: Weight, i: nat, x: real): real
    requires weight.Weighted? ==> i < |weight.weight|
  {
    if weight.Weighted? then Times(x, weight.weight[i]) else x
  }

  function WeighedRow(row: seq<real>, weight: Weight): (r: seq<real>)
    requires weight.Weighted? ==> |weight.weight| == |row|
    ensures |r| == |row|
  {
    seq(|row|, i requires 0 <= i < |row| => Weigh(weight, i, row[i]))
  }

  /** One row: its square sum, the adjusted inverse root, and the scaled and weighed chunks. */
  method Normalize(row: seq<real>, weight: Weight, eps: real, mean: bool, outputScale: real, exponent: int)
    returns (r: Result<seq<real>>, ghost inverse: real)
    requires |row| > 0 && 0.0 < Adjusted(row, eps, mean) ==> IsExponent(Adjusted(row, eps, mean), exponent)
    ensures !Accepts(row) || (weight.Weighted? && |weight.weight| != |row|) ==> r == Err(ValueError)
    ensures Accepts(row) && (weight.Weighted? ==> |weight.weight| == |row|) ==>
              if Adjusted(row, eps, mean) <= 0.0 then r == Err(RuntimeError)
              else
                && IsInverseRoot(Adjusted(row, eps, mean), inverse)
                && r == Ok(WeighedRow(ScaledRow(row, Times(inverse, outputScale)), weight))
                && (forall i :: 0 <= i < |row| ==>
                      var scaled := Times(row[i], Times(inverse, outputScale));
                      r.value[i] == if weight.Weighted? then Times(scaled, weight.weight[i]) else scaled)
  {
    inverse := 0.0;
    if !Accepts(row) || (weight.Weighted? && |weight.weight| != |row|) {
      return Err(ValueError), inverse;
    }
    var adjusted := AdjustedSum(row, eps, mean);
    var root := InverseSqrt(adjusted, exponent);
    if root.Err? {
      return Err(root.fault), inverse;
    }
    inverse := root.value;
    var factor := root.value;
    if outputScale != 1.0 {
      factor := Run(Mul, Const(factor), Const(outputScale))[0];
    }
    assert factor == Times(inverse, outputScale);
    var result := ScaleChunks(row, weight, factor);
    return Ok(result), inverse;
  }

  method AdjustedSum(row: seq<real>, eps: real, mean: bool) returns (adjusted: real)
    requires Accepts(row)
    ensures adjusted == Adjusted(row, eps, mean)
  {
    var total := SumSquares(row);
    var scaledTotal := Run(Mul, Const(total), Const(1.0 / (if mean then |row| as real else 1.0)));
    adjusted := Run(if mean then Maximum else Add, scaledTotal, Const(eps))[0];
  }

  method ScaleChunks(row: seq<real>, weight: Weight, factor: real) returns (result: seq<real>)
    requires Accepts(row) && (weight.Weighted? ==> |weight.weight| == |row|)
    ensures result == WeighedRow(ScaledRow(row, factor), weight)
  {
    result := [];
    for index := 0 to |row| / LANES
      invariant |result| == index * LANES
      invariant forall i :: 0 <= i < |result| ==> result[i] == Weigh(weight, i, Times(row[i], factor))
    {
      var offset := index * LANES;
      var chunk: seq<real> := ScaleChunk(row, weight, factor, offset);
      result := result + chunk;
    }
  }

  method ScaleChunk(row: seq<real>, weight: Weight, factor: real, offset: nat) returns (chunk: Lanes)
    requires offset + LANES <= |row| && (weight.Weighted? ==> |weight.weight| == |row|)
    ensures forall i :: 0 <= i < LANES ==> chunk[i] == Weigh(weight, offset + i, Times(row[offset + i], factor))
  {
    chunk := Run(Mul, row[offset..offset + LANES], Const(factor));
    if weight.Weighted? {
      chunk := Run(Mul, chunk, weight.weight[offset..offset + LANES]);
    }
  }

  /** The L2 form, for every output scale: the square norm of the result, times total + eps, is scale^2 times the
      total, up to 2^-40 of it. */
  lemma L2NormIsScale(row: seq<real>, eps: real, inverse: real, scale: real)
    requires |row| > 0 && 0.0 < Adjusted(row, eps, false) && IsInverseRoot(Adjusted(row, eps, false), inverse)
    ensures var total := SumOfSquares(row, |row|);
            var target := Times(total, Times(scale, scale));
            var squares := SumOfSquares(ScaledRow(row, Times(inverse, scale)), |row|);
            Times(target, 1.0 - TWO_TO_MINUS_40) <= Times(squares, total + eps) <= target
  {
    RowIsNormalized(row, Adjusted(row, eps, false), inverse, scale);
  }

  /** The RMS form, for every row: the scaled row's square sum times the larger of mean square and eps is the
      row's square sum, up to 2^-40 of it. */
  lemma RmsIsOne(row: seq<real>, eps: real, inverse: real)
    requires |row| > 0 && 0.0 < Adjusted(row, eps, true) && IsInverseRoot(Adjusted(row, eps, true), inverse)
    ensures var total := SumOfSquares(row, |row|);
            var squares := SumOfSquares(ScaledRow(row, inverse), |row|);
            Times(total, 1.0 - TWO_TO_MINUS_40) <= Times(squares, Max(total / |row| as real, eps)) <= total
  {
    var total := SumOfSquares(row, |row|);
    RowIsNormalized(row, Adjusted(row, eps, true), inverse, 1.0);
    MeanIsQuotient(total, |row| as real);
    assert Times(inverse, 1.0) == inverse;
    assert Times(total, Times(1.0, 1.0)) == total;
  }

  /** So where the mean square is at least eps, the mean square of the scaled row is 1 up to 2^-40. */
  lemma RmsMeanIsOne(row: seq<real>, eps: real, inverse: real)
    requires |row| > 0 && 0.0 < SumOfSquares(row, |row|) && eps <= SumOfSquares(row, |row|) / |row| as real
    requires IsInverseRoot(Adjusted(row, eps, true), inverse)
    ensures 1.0 - TWO_TO_MINUS_40 <= SumOfSquares(ScaledRow(row, inverse), |row|) / |row| as real <= 1.0
  {
    var total, n := SumOfSquares(row, |row|), |row| as real;
    MeanIsQuotient(total, n);
    QuotientIsPositive(total, n);
    RmsIsOne(row, eps, inverse);
    RatioIsBounded(SumOfSquares(ScaledRow(row, inverse), |row|), total, n, TWO_TO_MINUS_40);
  }

  lemma QuotientIsPositive(total: real, n: real)
    requires 0.0 < total && 0.0 < n
    ensures 0.0 < total / n
  {
  }

  /** total (1 - e) <= squares * (total / n) <= total, divided by the total. */
  lemma RatioIsBounded(squares: real, total: real, n: real, e: real)
    requires 0.0 < total && 0.0 < n
    requires Times(total, 1.0 - e) <= Times(squares, total / n) <= total
    ensures 1.0 - e <= squares / n <= 1.0
  {
    var q := squares / n;
    assert Times(squares, total / n) == Times(q, total) by {
      assert squares * (total / n) == (squares / n) * total;
    }
    TimesCommutes(total, 1.0 - e);
    if q < 1.0 - e {
      TimesIsMonotone(q, 1.0 - e, total);
    }
    if 1.0 < q {
      TimesIsMonotone(1.0, q, total);
    }
  }

  lemma MeanIsQuotient(total: real, n: real)
    requires 0.0 < n
    ensures Times(total, 1.0 / n) == total / n
  {
  }

  lemma {:induction false} SquaresAreNotNegative(row: seq<real>, n: nat)
    requires n <= |row|
    ensures 0.0 <= SumOfSquares(row, n)
  {
    if n > 0 {
      SquaresAreNotNegative(row, n - 1);
      SquareIsNotNegative(row[n - 1]);
    }
  }

  lemma Shrinks(total: real, d: real)
    requires 0.0 <= total && 0.0 <= d <= TWO_TO_MINUS_40
    ensures Times(total, 1.0 - TWO_TO_MINUS_40) <= Times(total, 1.0 - d) <= total
  {
    TimesIsBounded(total, d, total, TWO_TO_MINUS_40);
    assert Times(total, 1.0 - d) == total - Times(total, d);
  }
}
