/** The resident ring of a depthwise causal convolution, against the concatenate-and-shift window. */
module CausalConvolution {
  import opened Grids
  import opened Words

  const LANES: nat := 64

  /** Lane arithmetic; nothing is assumed of it. */
  datatype Arithmetic<!T> = Arithmetic(zero: T, mul: (T, T) -> T, add: (T, T) -> T, finite: T -> bool)

  type Rows<T> = seq<seq<T>>

  predicate HasShape<T>(rows: Rows<T>, count: nat, width: nat) {
    |rows| == count && forall i :: 0 <= i < count ==> |rows[i]| == width
  }

  predicate AllFinite<T>(arithmetic: Arithmetic<T>, row: seq<T>) {
    forall i :: 0 <= i < |row| ==> arithmetic.finite(row[i])
  }

  /** What a call accepts: one value a channel, one weight row of `size` taps a channel, all finite. */
  predicate Accepts<T>(arithmetic: Arithmetic<T>, channels: nat, size: nat, value: seq<T>, weight: Rows<T>) {
    && |value| == channels && HasShape(weight, channels, size)
    && AllFinite(arithmetic, value)
    && forall c :: 0 <= c < channels ==> AllFinite(arithmetic, weight[c])
  }

  function Tap<T>(arithmetic: Arithmetic<T>, window: Rows<T>, weight: Rows<T>, c: nat, tap: nat): T
    requires tap < |window| && c < |weight|
    requires HasShape(window, |window|, |weight|) && HasShape(weight, |weight|, |window|)
  {
    arithmetic.mul(window[tap][c], weight[c][tap])
  }

  /** The sum over the first `n` taps of channel `c`, in tap order. */
  function TapSum<T>(arithmetic: Arithmetic<T>, window: Rows<T>, weight: Rows<T>, c: nat, n: nat): T
    requires 1 <= n <= |window| && c < |weight|
    requires HasShape(window, |window|, |weight|) && HasShape(weight, |weight|, |window|)
  {
    if n == 1 then Tap(arithmetic, window, weight, c, 0)
    else arithmetic.add(TapSum(arithmetic, window, weight, c, n - 1), Tap(arithmetic, window, weight, c, n - 1))
  }

  /** The reference: every channel of the window against its taps. */
  function Convolved<T>(arithmetic: Arithmetic<T>, window: Rows<T>, weight: Rows<T>): (result: seq<T>)
    requires |window| > 0
    requires HasShape(window, |window|, |weight|) && HasShape(weight, |weight|, |window|)
  {
    seq(|weight|, c requires 0 <= c < |weight| => TapSum(arithmetic, window, weight, c, |window|))
  }

  /** The reference state update: append the value, drop the oldest row. */
  function Shifted<T>(state: Rows<T>, value: seq<T>): (shifted: Rows<T>)
    ensures |shifted| == |state|
  {
    (state + [value])[1..]
  }

  function Silence<T>(arithmetic: Arithmetic<T>, channels: nat, count: nat): (rows: Rows<T>)
    ensures HasShape(rows, count, channels)
  {
    seq(count, _ => seq(channels, _ => arithmetic.zero))
  }

  /** The reference state after a run of `values`, started from zeros. */
  function StateAfter<T>(arithmetic: Arithmetic<T>, channels: nat, count: nat, values: Rows<T>): (state: Rows<T>)
    ensures |state| == count
  {
    if values == [] then Silence(arithmetic, channels, count)
    else Shifted(StateAfter(arithmetic, channels, count, values[..|values| - 1]), values[|values| - 1])
  }

  /** The value at time `t`, with silence before the first. */
  function Past<T>(arithmetic: Arithmetic<T>, channels: nat, values: Rows<T>, t: int): (row: seq<T>)
    requires t < |values| && HasShape(values, |values|, channels)
    ensures |row| == channels
  {
    if t < 0 then seq(channels, _ => arithmetic.zero) else values[t]
  }

  /** The causal window of `size` rows that ends with the value at time `t`. */
  function CausalWindow<T>(
    arithmetic: Arithmetic<T>, channels: nat, size: nat, values: Rows<T>, t: nat): (window: Rows<T>)
    requires t < |values| && HasShape(values, |values|, channels)
    ensures HasShape(window, size, channels)
  {
    var window := seq(size, i requires 0 <= i < size => Past(arithmetic, channels, values, t + 1 + i - size));
    assert forall i :: 0 <= i < size ==> window[i] == Past(arithmetic, channels, values, t + 1 + i - size);
    window
  }

  lemma {:induction false} StateIsPast<T>(arithmetic: Arithmetic<T>, channels: nat, count: nat, values: Rows<T>)
    requires HasShape(values, |values|, channels)
    ensures forall i :: 0 <= i < count ==>
              StateAfter(arithmetic, channels, count, values)[i] ==
              Past(arithmetic, channels, values, |values| + i - count)
    decreases |values|
  {
    if values != [] {
      var before, value := values[..|values| - 1], values[|values| - 1];
      StateIsPast(arithmetic, channels, count, before);
      var state := StateAfter(arithmetic, channels, count, before);
      forall i | 0 <= i < count
        ensures Shifted(state, value)[i] == Past(arithmetic, channels, values, |values| + i - count)
      {
        assert Shifted(state, value)[i] == (state + [value])[i + 1];
      }
    }
  }

  /** The window of a step is the state of the run before it and the new value. */
  lemma WindowIsStateAndValue<T>(arithmetic: Arithmetic<T>, channels: nat, size: nat, values: Rows<T>, t: nat)
    requires t < |values| && HasShape(values, |values|, channels) && size >= 1
    ensures StateAfter(arithmetic, channels, size - 1, values[..t]) + [values[t]] ==
            CausalWindow(arithmetic, channels, size, values, t)
  {
    StateIsPast(arithmetic, channels, size - 1, values[..t]);
    var state := StateAfter(arithmetic, channels, size - 1, values[..t]);
    var left, right := state + [values[t]], CausalWindow(arithmetic, channels, size, values, t);
    forall i | 0 <= i < size
      ensures left[i] == right[i]
    {
      if i < size - 1 {
        assert state[i] == Past(arithmetic, channels, values[..t], t + i - (size - 1));
      }
    }
  }

  /** The ring row after `offset` others, starting behind the row at `cursor`. */
  function Slot(cursor: nat, offset: nat, size: nat): nat {
    if cursor + offset + 1 < size then cursor + offset + 1 else cursor + offset + 1 - size
  }

  lemma SlotWraps(cursor: nat, offset: nat, size: nat)
    requires cursor < size && offset < size
    ensures (cursor + offset + 1) % size == Slot(cursor, offset, size) < size
  {
    WrapsOnce(cursor + offset + 1, size);
  }

  /** One elementwise submission: all lanes of both operands. */
  function Lanes<T>(op: (T, T) -> T, a: seq<T>, b: seq<T>): (r: seq<T>)
    requires |a| == |b| == LANES
    ensures |r| == LANES
  {
    seq(LANES, i requires 0 <= i < LANES => op(a[i], b[i]))
  }

  class CausalConvolution<T> {
    const arithmetic: Arithmetic<T>
    const channels: nat
    const kernelSize: nat
    const history: array2<T>
    var cursor: nat

    ghost predicate Valid()
      reads this
    {
      && channels >= 1 && kernelSize >= 1 && cursor < kernelSize
      && history.Length0 == kernelSize && history.Length1 == channels
    }

    constructor (arithmetic: Arithmetic<T>, channels: nat, kernelSize: nat)
      requires channels >= 1 && kernelSize >= 1
      ensures Valid() && fresh(history)
      ensures this.arithmetic == arithmetic && this.channels == channels && this.kernelSize == kernelSize
      ensures View() == Silence(arithmetic, channels, kernelSize - 1)
    {
      this.arithmetic, this.channels, this.kernelSize := arithmetic, channels, kernelSize;
      history := new T[kernelSize, channels]((i, j) => arithmetic.zero);
      cursor := 0;
      new;
      ghost var view, silence := View(), Silence(arithmetic, channels, kernelSize - 1);
      assert forall i :: 0 <= i < |view| ==> view[i] == silence[i];
    }

    function Row(index: nat): (row: seq<T>)
      requires index < history.Length0
      reads history
      ensures |row| == history.Length1
    {
      seq(history.Length1, c requires 0 <= c < history.Length1 reads history => history[index, c])
    }

    /** The rows in ring order behind the cursor, oldest first. */
    function Ordered(count: nat): (rows: Rows<T>)
      requires Valid() && count <= kernelSize
      reads this, history
      ensures HasShape(rows, count, channels)
    {
      seq(count, offset requires 0 <= offset < count reads this, history requires Valid() =>
        Row(Slot(cursor, offset, kernelSize)))
    }

    /** The convolution state: the last kernelSize - 1 rows, oldest first. */
    function View(): (rows: Rows<T>)
      requires Valid()
      reads this, history
      ensures HasShape(rows, kernelSize - 1, channels)
    {
      Ordered(kernelSize - 1)
    }

    /** The window that the row under the cursor completes. */
    lemma WindowIsOrdered(state: Rows<T>, value: seq<T>)
      requires Valid() && HasShape(state, kernelSize - 1, channels) && Row(cursor) == value
      requires forall t :: 0 <= t < kernelSize - 1 ==> state[t] == Row(Slot(cursor, t, kernelSize))
      ensures Ordered(kernelSize) == state + [value]
    {
      var ordered, window := Ordered(kernelSize), state + [value];
      assert forall t :: 0 <= t < kernelSize ==> ordered[t] == window[t];
    }

    method StoreRow(value: seq<T>)
      requires Valid() && |value| == channels
      modifies history
      ensures Row(cursor) == value
      ensures forall r {:trigger Row(r)} :: 0 <= r < kernelSize && r != cursor ==> Row(r) == old(Row(r))
    {
      for c := 0 to channels
        invariant forall i :: 0 <= i < c ==> history[cursor, i] == value[i]
        invariant forall r, i :: 0 <= r < kernelSize && 0 <= i < channels && r != cursor ==>
          history[r, i] == old(history[r, i])
      {
        history[cursor, c] := value[c];
      }
    }

    method LoadSource(source: array<T>, index: nat, start: nat, width: nat)
      requires Valid() && index < kernelSize && start + width <= channels && width <= LANES == source.Length
      modifies source
      ensures forall l :: 0 <= l < LANES ==>
                source[l] == if l < width then history[index, start + l] else arithmetic.zero
    {
      for l := 0 to LANES
        invariant forall i :: 0 <= i < l ==> source[i] == arithmetic.zero
      {
        source[l] := arithmetic.zero;
      }
      for l := 0 to width
        invariant forall i :: 0 <= i < LANES ==>
          source[i] == if i < l then history[index, start + i] else arithmetic.zero
      {
        source[l] := history[index, start + l];
      }
    }

    method LoadTaps(coefficient: array<T>, weight: Rows<T>, start: nat, width: nat, tap: nat)
      requires HasShape(weight, channels, kernelSize) && tap < kernelSize
      requires start + width <= channels && width <= LANES == coefficient.Length
      modifies coefficient
      ensures forall l :: 0 <= l < LANES ==>
        coefficient[l] == if l < width then weight[start + l][tap] else arithmetic.zero
    {
      for l := 0 to LANES
        invariant forall i :: 0 <= i < l ==> coefficient[i] == arithmetic.zero
      {
        coefficient[l] := arithmetic.zero;
      }
      for l := 0 to width
        invariant forall i :: 0 <= i < LANES ==>
          coefficient[i] == if i < l then weight[start + i][tap] else arithmetic.zero
      {
        coefficient[l] := weight[start + l][tap];
      }
    }

    /** The products of one tap for one chunk of channels. */
    method MultiplyTap(
      source: array<T>, coefficient: array<T>, index: nat, weight: Rows<T>, start: nat, width: nat, tap: nat,
      ghost window: Rows<T>) returns (product: seq<T>)
      requires Valid() && HasShape(weight, channels, kernelSize) && HasShape(window, kernelSize, channels)
      requires tap < kernelSize && index < kernelSize && window[tap] == Row(index)
      requires start + width <= channels && width <= LANES == source.Length == coefficient.Length
      requires source != coefficient
      modifies source, coefficient
      ensures |product| == LANES
      ensures forall l :: 0 <= l < width ==> product[l] == Tap(arithmetic, window, weight, start + l, tap)
    {
      LoadSource(source, index, start, width);
      LoadTaps(coefficient, weight, start, width, tap);
      product := Lanes(arithmetic.mul, source[..], coefficient[..]);
      forall l | 0 <= l < width
        ensures product[l] == Tap(arithmetic, window, weight, start + l, tap)
      {
        assert history[index, start + l] == Row(index)[start + l];
      }
    }

    /** The channels [start, start + width): lane sums over the taps in ring order. */
    method ConvolveChunk(order: seq<nat>, weight: Rows<T>, start: nat, width: nat, ghost window: Rows<T>)
      returns (total: seq<T>)
      requires Valid() && HasShape(weight, channels, kernelSize) && HasShape(window, kernelSize, channels)
      requires |order| == kernelSize && start + width <= channels && width <= LANES
      requires forall tap :: 0 <= tap < kernelSize ==> order[tap] < kernelSize && window[tap] == Row(order[tap])
      ensures |total| == LANES
      ensures forall l :: 0 <= l < width ==> total[l] == TapSum(arithmetic, window, weight, start + l, kernelSize)
    {
      var source := new T[LANES](_ => arithmetic.zero);
      var coefficient := new T[LANES](_ => arithmetic.zero);
      total := MultiplyTap(source, coefficient, order[0], weight, start, width, 0, window);
      for tap := 1 to kernelSize
        invariant |total| == LANES
        invariant forall l :: 0 <= l < width ==> total[l] == TapSum(arithmetic, window, weight, start + l, tap)
      {
        var product := MultiplyTap(source, coefficient, order[tap], weight, start, width, tap, window);
        total := Lanes(arithmetic.add, total, product);
      }
    }

    /** The ring positions of the window, oldest first. */
    method Order() returns (order: seq<nat>)
      requires Valid()
      ensures |order| == kernelSize
      ensures forall offset :: 0 <= offset < kernelSize ==>
          order[offset] == Slot(cursor, offset, kernelSize) < kernelSize
    {
      order := [];
      for offset := 0 to kernelSize
        invariant |order| == offset
        invariant forall i :: 0 <= i < offset ==> order[i] == Slot(cursor, i, kernelSize) < kernelSize
      {
        SlotWraps(cursor, offset, kernelSize);
        order := order + [(cursor + offset + 1) % kernelSize];
      }
    }

    method ConvolveAll(order: seq<nat>, weight: Rows<T>, ghost window: Rows<T>) returns (result: seq<T>)
      requires Valid() && HasShape(weight, channels, kernelSize) && HasShape(window, kernelSize, channels)
      requires |order| == kernelSize
      requires forall tap :: 0 <= tap < kernelSize ==> order[tap] < kernelSize && window[tap] == Row(order[tap])
      ensures result == Convolved(arithmetic, window, weight)
    {
      result := [];
      var start := 0;
      while start < channels
        invariant |result| == if start < channels then start else channels
        invariant forall c :: 0 <= c < |result| ==> result[c] == TapSum(arithmetic, window, weight, c, kernelSize)
      {
        var width := if channels - start < LANES then channels - start else LANES;
        var total := ConvolveChunk(order, weight, start, width, window);
        result := result + total[..width];
        start := start + LANES;
      }
    }

    /** One call: the tap-ordered result over the state and the new value, and the state shifted by it. */
    method Call(value: seq<T>, weight: Rows<T>) returns (r: Result<seq<T>>)
      requires Valid()
      modifies this, history
      ensures Valid()
      ensures if Accepts(arithmetic, channels, kernelSize, value, weight)
              then
                && r == Ok(Convolved(arithmetic, old(View()) + [value], weight))
                && View() == Shifted(old(View()), value)
              else r == Err(ValueError) && View() == old(View())
    {
      if !Accepts(arithmetic, channels, kernelSize, value, weight) {
        return Err(ValueError);
      }
      ghost var state := View();
      StoreRow(value);
      WindowIsOrdered(state, value);
      ghost var window := Ordered(kernelSize);
      var order := Order();
      var result := ConvolveAll(order, weight, window);
      Advance();
      assert View() == window[1..];
      return Ok(result);
    }

    method Advance()
      requires Valid()
      modifies this
      ensures Valid() && View() == old(Ordered(kernelSize))[1..]
    {
      WrapsOnce(cursor + 1, kernelSize);
      ghost var window := Ordered(kernelSize);
      cursor := (cursor + 1) % kernelSize;
      assert forall t :: 0 <= t < kernelSize - 1 ==> View()[t] == window[1..][t];
    }
  }

  /** A whole run from zeros: every result is the causal window of its time against its own taps. */
  method Run<T>(arithmetic: Arithmetic<T>, channels: nat, size: nat, values: Rows<T>, weights: seq<Rows<T>>)
    returns (results: seq<seq<T>>)
    requires channels >= 1 && size >= 1 && |weights| == |values| && HasShape(values, |values|, channels)
    requires forall t :: 0 <= t < |values| ==> Accepts(arithmetic, channels, size, values[t], weights[t])
    ensures |results| == |values|
    ensures forall t :: 0 <= t < |values| ==>
              && HasShape(weights[t], channels, size)
              && results[t] ==
                 Convolved(arithmetic, CausalWindow(arithmetic, channels, size, values, t), weights[t])
  {
    var convolution := new CausalConvolution(arithmetic, channels, size);
    results := [];
    for t := 0 to |values|
      invariant convolution.Valid() && fresh(convolution) && fresh(convolution.history)
      invariant convolution.arithmetic == arithmetic
      invariant convolution.channels == channels && convolution.kernelSize == size
      invariant convolution.View() == StateAfter(arithmetic, channels, size - 1, values[..t])
      invariant |results| == t
      invariant forall i :: 0 <= i < t ==>
        && HasShape(weights[i], channels, size)
        && results[i] == Convolved(arithmetic, CausalWindow(arithmetic, channels, size, values, i), weights[i])
    {
      WindowIsStateAndValue(arithmetic, channels, size, values, t);
      assert values[..t + 1][..t] == values[..t];
      var r := convolution.Call(values[t], weights[t]);
      results := results + [r.value];
    }
  }
}
