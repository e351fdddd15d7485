/** Matrices, and finite sums and dot products in exact arithmetic. */
module Vectors {

  type Vector = seq<real>

  type Matrix<T> = seq<seq<T>>

  predicate IsMatrix<T>(m: Matrix<T>, rows: nat, columns: nat) {
    |m| == rows && forall i :: 0 <= i < rows ==> |m[i]| == columns
  }

  /** A product, named so that proofs can speak of it as one number. */
  function Times(x: real, y: real): real {
    x * y
  }

  lemma Distributes(a: real, b: real, factor: real)
    ensures Times(a + b, factor) == Times(a, factor) + Times(b, factor)
  {
  }

  lemma TimesCommutes(a: real, b: real)
    ensures Times(a, b) == Times(b, a)
  {
  }

  lemma TimesAssociates(a: real, b: real, c: real)
    ensures Times(Times(a, b), c) == Times(a, Times(b, c))
  {
  }

  lemma TimesIsBounded(x: real, y: real, a: real, b: real)
    requires 0.0 <= x <= a && 0.0 <= y <= b
    ensures 0.0 <= Times(x, y) <= Times(a, b)
  {
    assert x * y <= x * b <= a * b;
  }

  lemma TimesIsPositive(x: real, y: real)
    requires 0.0 < x && 0.0 < y
    ensures 0.0 < Times(x, y)
  {
  }

  lemma SquareIsNotNegative(x: real)
    ensures 0.0 <= Times(x, x)
  {
  }

  /** Sum of the first n terms. */
  function Sum(terms: Vector, n: nat): real
    requires n <= |terms|
  {
    if n == 0 then 0.0 else Sum(terms, n - 1) + terms[n - 1]
  }

  /** Sum of a[d] * b[d] for d < n. */
  function Dot(a: Vector, b: Vector, n: nat): real
    requires n <= |a| && n <= |b|
  {
    if n == 0 then 0.0 else Dot(a, b, n - 1) + a[n - 1] * b[n - 1]
  }

  /** Sum of `n` products from `from` on. */
  function Partial(a: Vector, b: Vector, from: nat, n: nat): real
    requires from + n <= |a| && from + n <= |b|
  {
    if n == 0 then 0.0 else Partial(a, b, from, n - 1) + a[from + n - 1] * b[from + n - 1]
  }

  lemma {:induction false} DotSplits(a: Vector, b: Vector, from: nat, n: nat)
    requires from + n <= |a| && from + n <= |b|
    ensures Dot(a, b, from + n) == Dot(a, b, from) + Partial(a, b, from, n)
  {
    if n > 0 {
      DotSplits(a, b, from, n - 1);
    }
  }
}
