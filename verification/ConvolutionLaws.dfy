/** The causal convolution over the reals: which weight meets which value. */
module ConvolutionLaws {
  import opened CausalConvolution
  import opened Vectors

  function Exact(): Arithmetic<real> {
    Arithmetic(0.0, (x: real, y: real) => x * y, (x: real, y: real) => x + y, (x: real) => true)
  }

  /** Channel c of the last `size` values up to time t, oldest first, with zeros before the first. */
  function Column(channels: nat, size: nat, values: Rows<real>, t: nat, c: nat): (column: Vector)
    requires t < |values| && HasShape(values, |values|, channels) && c < channels
    ensures |column| == size
  {
    seq(size, j requires 0 <= j < size => if t + 1 + j < size then 0.0 else values[t + 1 + j - size][c])
  }

  /** Tap j is multiplied with the value of time t + 1 + j - size, and the products are summed. */
  lemma ResultIsDot(channels: nat, size: nat, values: Rows<real>, t: nat, weight: Rows<real>, c: nat)
    requires size >= 1 && t < |values| && HasShape(values, |values|, channels)
    requires HasShape(weight, channels, size) && c < channels
    ensures Convolved(Exact(), CausalWindow(Exact(), channels, size, values, t), weight)[c] ==
            Dot(Column(channels, size, values, t, c), weight[c], size)
  {
    TapsAreDot(channels, size, values, t, weight, c, size);
  }

  lemma {:induction false} TapsAreDot(
    channels: nat, size: nat, values: Rows<real>, t: nat, weight: Rows<real>, c: nat, n: nat)
    requires 1 <= n <= size && t < |values| && HasShape(values, |values|, channels)
    requires HasShape(weight, channels, size) && c < channels
    ensures TapSum(Exact(), CausalWindow(Exact(), channels, size, values, t), weight, c, n) ==
            Dot(Column(channels, size, values, t, c), weight[c], n)
  {
    WindowIsColumn(channels, size, values, t, c, n - 1);
    if n > 1 {
      TapsAreDot(channels, size, values, t, weight, c, n - 1);
    } else {
      assert Dot(Column(channels, size, values, t, c), weight[c], 0) == 0.0;
    }
  }

  lemma WindowIsColumn(channels: nat, size: nat, values: Rows<real>, t: nat, c: nat, j: nat)
    requires j < size && t < |values| && HasShape(values, |values|, channels) && c < channels
    ensures CausalWindow(Exact(), channels, size, values, t)[j][c] == Column(channels, size, values, t, c)[j]
  {
    assert CausalWindow(Exact(), channels, size, values, t)[j] == Past(Exact(), channels, values, t + 1 + j - size);
  }

  /** The impulse law: a weight row that is 1 at tap j alone returns the value of time t + 1 + j - size. */
  lemma ImpulseReturnsValue(channels: nat, size: nat, values: Rows<real>, t: nat, weight: Rows<real>, c: nat, j: nat)
    requires size >= 1 && t < |values| && HasShape(values, |values|, channels)
    requires HasShape(weight, channels, size) && c < channels && j < size
    requires forall i :: 0 <= i < size ==> weight[c][i] == if i == j then 1.0 else 0.0
    ensures Convolved(Exact(), CausalWindow(Exact(), channels, size, values, t), weight)[c] ==
            if t + 1 + j < size then 0.0 else values[t + 1 + j - size][c]
  {
    ResultIsDot(channels, size, values, t, weight, c);
    DotWithImpulse(Column(channels, size, values, t, c), weight[c], j, size);
  }

  lemma {:induction false} DotWithImpulse(a: Vector, impulse: Vector, j: nat, n: nat)
    requires n <= |a| && n <= |impulse| && j < |a|
    requires forall i :: 0 <= i < |impulse| ==> impulse[i] == if i == j then 1.0 else 0.0
    ensures Dot(a, impulse, n) == if j < n then a[j] else 0.0
  {
    if n > 0 {
      DotWithImpulse(a, impulse, j, n - 1);
    }
  }

  /** The newest value meets the last tap: 1 * 10 + 2 * 1, for any lane arithmetic that is the integers'. */
  lemma NewestMeetsLastTap(arithmetic: Arithmetic<int>)
    requires forall x, y :: arithmetic.mul(x, y) == x * y && arithmetic.add(x, y) == x + y
    ensures Convolved(arithmetic, CausalWindow(arithmetic, 1, 2, [[1], [2]], 1), [[10, 1]]) == [12]
  {
    var window := CausalWindow(arithmetic, 1, 2, [[1], [2]], 1);
    assert window[0] == Past(arithmetic, 1, [[1], [2]], 0) && window[1] == Past(arithmetic, 1, [[1], [2]], 1);
    assert Tap(arithmetic, window, [[10, 1]], 0, 0) == arithmetic.mul(1, 10);
    assert Tap(arithmetic, window, [[10, 1]], 0, 1) == arithmetic.mul(2, 1);
    assert TapSum(arithmetic, window, [[10, 1]], 0, 1) == 10;
    assert TapSum(arithmetic, window, [[10, 1]], 0, 2) == 12;
  }
}
