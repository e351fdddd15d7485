/** The model's own recurrence on the CPU, whose state is the transpose of the reference's. */
module RecurrentStep {
  import opened GatedDelta
  import opened Vectors

  function ColumnOf(m: Matrix<real>, columns: nat, e: nat): (column: Vector)
    requires IsMatrix(m, |m|, columns) && e < columns
    ensures |column| == |m|
  {
    seq(|m|, d requires 0 <= d < |m| => m[d][e])
  }

  /** (m.T @ x)[e] over the first n rows. */
  function TransposedDot(m: Matrix<real>, columns: nat, x: Vector, e: nat, n: nat): real
    requires IsMatrix(m, |m|, columns) && e < columns && n <= |m| == |x|
  {
    if n == 0 then 0.0 else TransposedDot(m, columns, x, e, n - 1) + m[n - 1][e] * x[n - 1]
  }

  function Scaled(m: Matrix<real>, columns: nat, factor: real): (r: Matrix<real>)
    requires IsMatrix(m, |m|, columns)
    ensures IsMatrix(r, |m|, columns)
    ensures forall d, e :: 0 <= d < |m| && 0 <= e < columns ==> r[d][e] == m[d][e] * factor
  {
    seq(|m|, d requires 0 <= d < |m| => seq(columns, e requires 0 <= e < columns => m[d][e] * factor))
  }

  /** m + np.outer(key, delta) */
  function WithOuter(m: Matrix<real>, columns: nat, key: Vector, delta: Vector): (r: Matrix<real>)
    requires IsMatrix(m, |m|, columns) && |key| == |m| && |delta| == columns
    ensures IsMatrix(r, |m|, columns)
    ensures forall d, e :: 0 <= d < |m| && 0 <= e < columns ==> r[d][e] == m[d][e] + key[d] * delta[e]
  {
    seq(|m|, d requires 0 <= d < |m| => seq(columns, e requires 0 <= e < columns => m[d][e] + key[d] * delta[e]))
  }

  /** The scalar gate of a head as a decay of every key lane. */
  function Repeated(factor: real, n: nat): (r: Vector)
    ensures |r| == n && forall d :: 0 <= d < n ==> r[d] == factor
  {
    seq(n, _ => factor)
  }

  /** m.T @ x */
  function TransposedProduct(m: Matrix<real>, columns: nat, x: Vector): (y: Vector)
    requires IsMatrix(m, |m|, columns) && |x| == |m|
    ensures |y| == columns
  {
    seq(columns, e requires 0 <= e < columns => TransposedDot(m, columns, x, e, |m|))
  }

  function Delta(value: Vector, memory: Vector, beta: real): (delta: Vector)
    requires |value| == |memory|
    ensures |delta| == |value|
  {
    seq(|value|, e requires 0 <= e < |value| => Correction(value[e], memory[e], beta))
  }

  /** The state after one token: decayed, then corrected by the outer product of key and delta. */
  function Stepped(m: Matrix<real>, decay: real, key: Vector, value: Vector, beta: real): (after: Matrix<real>)
    requires IsMatrix(m, |key|, |value|)
    ensures IsMatrix(after, |key|, |value|)
  {
    var scaled := Scaled(m, |value|, decay);
    WithOuter(scaled, |value|, key, Delta(value, TransposedProduct(scaled, |value|, key), beta))
  }

  /** One head of one token on the CPU, in place: decay, correction by the outer product, read-out. */
  method CpuStep(
    state: array2<real>, decay: real, key: Vector, value: Vector, beta: real, query: Vector, ghost before: Matrix<real>)
    returns (output: Vector)
    requires state.Length0 == |key| == |query| && state.Length1 == |value|
    requires IsMatrix(before, |key|, |value|) && Shows(state, before)
    modifies state
    ensures Shows(state, Stepped(before, decay, key, value, beta))
    ensures output == TransposedProduct(Stepped(before, decay, key, value, beta), |value|, query)
  {
    ghost var scaled := Scaled(before, |value|, decay);
    Scale(state, decay, before);
    var memory := TransposedTimes(state, key, scaled);
    var delta := Delta(value, memory, beta);
    AddOuter(state, key, delta, scaled);
    output := TransposedTimes(state, query, Stepped(before, decay, key, value, beta));
  }

  method Scale(state: array2<real>, factor: real, ghost m: Matrix<real>)
    requires Shows(state, m)
    modifies state
    ensures Shows(state, Scaled(m, state.Length1, factor))
  {
    forall d, e | 0 <= d < state.Length0 && 0 <= e < state.Length1 {
      state[d, e] := state[d, e] * factor;
    }
  }

  method AddOuter(state: array2<real>, key: Vector, delta: Vector, ghost m: Matrix<real>)
    requires Shows(state, m) && |key| == state.Length0 && |delta| == state.Length1
    modifies state
    ensures Shows(state, WithOuter(m, state.Length1, key, delta))
  {
    forall d, e | 0 <= d < state.Length0 && 0 <= e < state.Length1 {
      state[d, e] := state[d, e] + key[d] * delta[e];
    }
  }

  /** The array holds the matrix. */
  ghost predicate Shows(state: array2<real>, m: Matrix<real>)
    reads state
  {
    && IsMatrix(m, state.Length0, state.Length1)
    && forall d, e :: 0 <= d < state.Length0 && 0 <= e < state.Length1 ==> state[d, e] == m[d][e]
  }

  /** state.T @ x */
  method TransposedTimes(state: array2<real>, x: Vector, ghost m: Matrix<real>) returns (y: Vector)
    requires Shows(state, m) && |x| == state.Length0
    ensures y == TransposedProduct(m, state.Length1, x)
  {
    y := [];
    for e := 0 to state.Length1
      invariant |y| == e && forall i :: 0 <= i < e ==> y[i] == TransposedDot(m, state.Length1, x, i, |x|)
    {
      var sum := 0.0;
      for d := 0 to |x|
        invariant sum == TransposedDot(m, state.Length1, x, e, d)
      {
        sum := sum + state[d, e] * x[d];
      }
      y := y + [sum];
    }
  }

  lemma {:induction false} TransposedDotIsDot(m: Matrix<real>, columns: nat, x: Vector, e: nat, n: nat)
    requires IsMatrix(m, |m|, columns) && e < columns && n <= |m| == |x|
    ensures TransposedDot(m, columns, x, e, n) == Dot(ColumnOf(m, columns, e), x, n)
  {
    if n > 0 {
      TransposedDotIsDot(m, columns, x, e, n - 1);
    }
  }

  lemma ScaledColumn(m: Matrix<real>, columns: nat, factor: real, e: nat)
    requires IsMatrix(m, |m|, columns) && e < columns
    ensures ColumnOf(Scaled(m, columns, factor), columns, e) == Decayed(ColumnOf(m, columns, e), Repeated(factor, |m|))
  {
    var left, right :=
      ColumnOf(Scaled(m, columns, factor), columns, e), Decayed(ColumnOf(m, columns, e), Repeated(factor, |m|));
    assert forall d :: 0 <= d < |m| ==> left[d] == right[d];
  }

  lemma OuterColumn(m: Matrix<real>, columns: nat, key: Vector, delta: Vector, e: nat)
    requires IsMatrix(m, |m|, columns) && |key| == |m| && |delta| == columns && e < columns
    ensures ColumnOf(WithOuter(m, columns, key, delta), columns, e) == Corrected(ColumnOf(m, columns, e), key, delta[e])
  {
    var left, right :=
      ColumnOf(WithOuter(m, columns, key, delta), columns, e), Corrected(ColumnOf(m, columns, e), key, delta[e]);
    assert forall d :: 0 <= d < |m| ==> left[d] == right[d];
  }

  lemma MemoryIsDot(before: Matrix<real>, columns: nat, decay: real, key: Vector, e: nat)
    requires IsMatrix(before, |key|, columns) && e < columns
    ensures TransposedProduct(Scaled(before, columns, decay), columns, key)[e] ==
            Dot(Decayed(ColumnOf(before, columns, e), Repeated(decay, |key|)), key, |key|)
  {
    ScaledColumn(before, columns, decay, e);
    TransposedDotIsDot(Scaled(before, columns, decay), columns, key, e, |key|);
  }

  /** Every column of the CPU step is the reference step of that value lane. */
  lemma SteppedColumn(before: Matrix<real>, decay: real, key: Vector, value: Vector, beta: real, e: nat)
    requires IsMatrix(before, |key|, |value|) && e < |value|
    ensures ColumnOf(Stepped(before, decay, key, value, beta), |value|, e) ==
            Next(ColumnOf(before, |value|, e), Repeated(decay, |key|), key, value[e], beta)
  {
    var scaled := Scaled(before, |value|, decay);
    var delta := Delta(value, TransposedProduct(scaled, |value|, key), beta);
    ScaledColumn(before, |value|, decay, e);
    MemoryIsDot(before, |value|, decay, key, e);
    OuterColumn(scaled, |value|, key, delta, e);
  }

  /** The CPU step is the reference step, transposed: state columns and outputs alike. */
  lemma CpuStepIsReference(
    before: Matrix<real>, decay: real, key: Vector, value: Vector, beta: real, query: Vector, e: nat)
    requires IsMatrix(before, |key|, |value|) && |query| == |key| && e < |value|
    ensures var after := Stepped(before, decay, key, value, beta);
            var next := Next(ColumnOf(before, |value|, e), Repeated(decay, |key|), key, value[e], beta);
            && ColumnOf(after, |value|, e) == next
            && TransposedProduct(after, |value|, query)[e] == Dot(next, query, |query|)
  {
    SteppedColumn(before, decay, key, value, beta, e);
    TransposedDotIsDot(Stepped(before, decay, key, value, beta), |value|, query, e, |query|);
  }
}
