/** Arithmetic composed from 64-lane elementwise submissions, in exact arithmetic: halving reductions,
    the range-reduced exponential and Newton's reciprocal. */
module ElementwiseMath {
  import opened Vectors

  const LANES: nat := 64

  type Lanes = lanes: seq<real> | |lanes| == 64 witness seq(64, _ => 0.0)

  datatype Mode = Add | Mul | Maximum | Square

  function Max(x: real, y: real): real {
    if x < y then y else x
  }

  function Apply(mode: Mode, x: real, y: real): real {
    match mode
    case Add => x + y
    case Mul => Times(x, y)
    case Maximum => Max(x, y)
    case Square => Times(x, x)
  }

  /** One submission. */
  function Run(mode: Mode, left: Lanes, right: Lanes): (result: Lanes)
    ensures forall i :: 0 <= i < LANES ==> result[i] == Apply(mode, left[i], right[i])
  {
    seq(LANES, i requires 0 <= i < LANES => Apply(mode, left[i], right[i]))
  }

  function Const(value: real): (lanes: Lanes)
    ensures forall i :: 0 <= i < LANES ==> lanes[i] == value
  {
    seq(LANES, _ => value)
  }

  // Halving reductions

  /** `m` is the largest of the first `n` values. */
  ghost predicate IsMaximum(values: seq<real>, n: nat, m: real)
    requires n <= |values|
  {
    && (exists i :: 0 <= i < n && values[i] == m)
    && forall i :: 0 <= i < n ==> values[i] <= m
  }

  function Largest(values: seq<real>, n: nat): (m: real)
    requires 0 < n <= |values|
    ensures IsMaximum(values, n, m)
  {
    if n == 1 then values[0]
    else
      var m := Max(Largest(values, n - 1), values[n - 1]);
      assert m == Largest(values, n - 1) || m == values[n - 1];
      m
  }

  lemma MaximumIsUnique(values: seq<real>, n: nat, m: real)
    requires n <= |values| && IsMaximum(values, n, m)
    ensures n > 0 && m == Largest(values, n)
  {
  }

  /** One halving: lane i combined with lane i + half. */
  ghost predicate IsFolded(mode: Mode, values: seq<real>, folded: seq<real>, half: nat) {
    && half + half <= |values| && half <= |folded|
    && forall i :: 0 <= i < half ==> folded[i] == Apply(mode, values[i], values[half + i])
  }

  lemma {:induction false} SumSplits(values: seq<real>, folded: seq<real>, half: nat, n: nat)
    requires IsFolded(Add, values, folded, half) && n <= half
    ensures Sum(values, half + n) == Sum(values, half) + (Sum(folded, n) - Sum(values, n))
  {
    if n > 0 {
      SumSplits(values, folded, half, n - 1);
    }
  }

  lemma MaximumFolds(values: seq<real>, folded: seq<real>, half: nat, m: real)
    requires IsFolded(Maximum, values, folded, half) && IsMaximum(folded, half, m)
    ensures IsMaximum(values, half + half, m)
  {
    var i :| 0 <= i < half && folded[i] == m;
    assert values[i] == m || values[half + i] == m;
    forall j | 0 <= j < half + half
      ensures values[j] <= m
    {
      var k := if j < half then j else j - half;
      assert folded[k] == Max(values[k], values[half + k]) && folded[k] <= m;
      assert j == k || j == half + k;
    }
  }

  /** Pads the two halves of the first `width` lanes with zeros and submits them. */
  method Fold(mode: Mode, current: Lanes, width: nat) returns (folded: Lanes)
    requires width <= LANES && width % 2 == 0
    ensures IsFolded(mode, current, folded, width / 2)
  {
    var half := width / 2;
    var front := current[..half] + Const(0.0)[half..];
    var back := current[half..width] + Const(0.0)[half..];
    folded := Run(mode, front, back);
  }

  lemma SumFolds(values: seq<real>, folded: seq<real>, half: nat)
    requires IsFolded(Add, values, folded, half)
    ensures Sum(values, half + half) == Sum(folded, half)
  {
    SumSplits(values, folded, half, half);
  }

  method ReduceSum(values: Lanes) returns (sum: real)
    ensures sum == Sum(values, LANES)
  {
    var current, width := values, LANES;
    while width > 1
      invariant width in {64, 32, 16, 8, 4, 2, 1}
      invariant Sum(current, width) == Sum(values, LANES)
    {
      var folded := Fold(Add, current, width);
      SumFolds(current, folded, width / 2);
      current, width := folded, width / 2;
    }
    sum := current[0];
  }

  method ReduceMax(values: Lanes) returns (maximum: real)
    ensures maximum == Largest(values, LANES)
  {
    var current, width := values, LANES;
    while width > 1
      invariant width in {64, 32, 16, 8, 4, 2, 1}
      invariant forall m :: IsMaximum(current, width, m) ==> IsMaximum(values, LANES, m)
    {
      var folded := Fold(Maximum, current, width);
      forall m | IsMaximum(folded, width / 2, m)
        ensures IsMaximum(current, width, m)
      {
        MaximumFolds(current, folded, width / 2, m);
      }
      current, width := folded, width / 2;
    }
    maximum := current[0];
    assert IsMaximum(current, 1, current[0]);
    MaximumIsUnique(values, LANES, maximum);
  }

  // The exponential

  /** The Taylor polynomial of degree 6, summed in the order of the submissions. */
  function Taylor(r: real): real {
    var square := Times(r, r);
    var cube := Times(r, square);
    var fourth := Times(square, square);
    var fifth := Times(r, fourth);
    var sixth := Times(square, fourth);
    1.0 + r + Times(square, 1.0 / 2.0) + Times(cube, 1.0 / 6.0) + Times(fourth, 1.0 / 24.0) +
    Times(fifth, 1.0 / 120.0) + Times(sixth, 1.0 / 720.0)
  }

  /** `x` squared `times` times. */
  function Powered(x: real, times: nat): real
    decreases times, x
  {
    if times == 0 then x else Times(Powered(x, times - 1), Powered(x, times - 1))
  }

  function BitLength(n: nat): nat {
    if n == 0 then 0 else 1 + BitLength(n / 2)
  }

  /** Clamping and range reduction. */
  function Reduced(x: real, limit: real, divisor: nat): real
    requires divisor > 0
  {
    Times(Max(x, limit), 1.0 / divisor as real)
  }

  /** One lane of the exponential: clamp, reduce, expand, and square back. */
  function ExpLane(x: real, limit: real, divisor: nat): real
    requires divisor > 0
  {
    Powered(Taylor(Reduced(x, limit, divisor)), BitLength(divisor) - 1)
  }

  method AddTerm(sum: Lanes, power: Lanes, factor: real) returns (result: Lanes)
    ensures forall i :: 0 <= i < LANES ==> result[i] == sum[i] + Times(power[i], factor)
  {
    var term := Run(Mul, power, Const(factor));
    result := Run(Add, sum, term);
  }

  method Expand(reduced: Lanes) returns (result: Lanes)
    ensures forall i :: 0 <= i < LANES ==> result[i] == Taylor(reduced[i])
  {
    var square := Run(Square, reduced, Const(0.0));
    var cube := Run(Mul, reduced, square);
    var fourth := Run(Square, square, Const(0.0));
    var fifth := Run(Mul, reduced, fourth);
    var sixth := Run(Mul, square, fourth);
    result := Run(Add, Const(1.0), reduced);
    result := AddTerm(result, square, 1.0 / 2.0);
    result := AddTerm(result, cube, 1.0 / 6.0);
    result := AddTerm(result, fourth, 1.0 / 24.0);
    result := AddTerm(result, fifth, 1.0 / 120.0);
    result := AddTerm(result, sixth, 1.0 / 720.0);
  }

  method Reduce(values: Lanes, limit: real, divisor: nat) returns (reduced: Lanes)
    requires divisor > 0
    ensures forall i :: 0 <= i < LANES ==> reduced[i] == Reduced(values[i], limit, divisor)
  {
    var clamped := Run(Maximum, values, Const(limit));
    reduced := Run(Mul, clamped, Const(1.0 / divisor as real));
  }

  method SquareBack(expanded: Lanes, times: nat) returns (result: Lanes)
    ensures forall i :: 0 <= i < LANES ==> result[i] == Powered(expanded[i], times)
  {
    result := expanded;
    for k := 0 to times
      invariant forall i :: 0 <= i < LANES ==> result[i] == Powered(expanded[i], k)
    {
      result := Run(Mul, result, result);
    }
  }

  method Exp(values: Lanes, limit: real, divisor: nat) returns (result: Lanes)
    requires divisor > 0
    ensures forall i :: 0 <= i < LANES ==> result[i] == ExpLane(values[i], limit, divisor)
  {
    var reduced := Reduce(values, limit, divisor);
    var expanded := Expand(reduced);
    result := SquareBack(expanded, BitLength(divisor) - 1);
  }
}
