/** The gated delta recurrence: its sequential reference in exact arithmetic. */
module GatedDelta {
  import opened Grids
  import opened Vectors

  /** The gates: one a head, or one a key lane. */
  datatype Gate = PerHead(g: Vector) | PerKey(g: Vector)

  datatype Mask = Everywhere | Where(tokens: seq<bool>)

  /** Row-major tensors q, k: [B, T, Hk, Dk], v: [B, T, Hv, Dv], beta: [B, T, Hv], state: [B, Hv, Dv, Dk]. */
  datatype Problem = Problem(
    B: nat, T: nat, Hk: nat, Hv: nat, Dk: nat, Dv: nat,
    q: Vector, k: Vector, v: Vector, gate: Gate, beta: Vector, state: Vector, mask: Mask)
  {
    predicate Valid() {
      && Hk > 0 && Hv % Hk == 0
      && |q| == |k| == B * T * Hk * Dk
      && |v| == B * T * Hv * Dv
      && |beta| == B * T * Hv
      && |gate.g| == (if gate.PerHead? then B * T * Hv else B * T * Hv * Dk)
      && |state| == B * Hv * Dv * Dk
      && (mask.Where? ==> |mask.tokens| == B * T)
    }

    /** The rows of the state, one for each (batch, head, value lane). */
    function Rows(): nat {
      B * Hv * Dv
    }

    /** How many value heads share a key head. */
    function Factor(): nat
      requires Hk > 0
    {
      Hv / Hk
    }

    predicate HasHead(b: nat, t: nat, hv: nat) {
      b < B && t < T && hv < Hv
    }

    /** The line of value head `hv` at token (b, t) in a [B, T, Hv, ...] tensor. */
    function ValueLine(b: nat, t: nat, hv: nat): nat {
      Cell(Cell(b, T, t), Hv, hv)
    }

    /** The line of its key head in a [B, T, Hk, Dk] tensor: heads are repeated Factor() times. */
    function KeyLine(b: nat, t: nat, hv: nat): nat
      requires Hk > 0
    {
      Cell(Cell(b, T, t), Hk, Line(hv, Factor()))
    }

    function StateLine(b: nat, hv: nat, dv: nat): nat {
      Cell(Cell(b, Hv, hv), Dv, dv)
    }

    lemma ValueLineIsInside(b: nat, t: nat, hv: nat)
      requires HasHead(b, t, hv)
      ensures ValueLine(b, t, hv) < B * T * Hv
    {
      CellIsInside(b, B, T, t);
      CellIsInside(Cell(b, T, t), B * T, Hv, hv);
    }

    lemma KeyLineIsInside(b: nat, t: nat, hv: nat)
      requires Hk > 0 && Hv % Hk == 0 && HasHead(b, t, hv)
      ensures KeyLine(b, t, hv) < B * T * Hk
    {
      assert Hv == Hk * Factor();
      LineIsInside(hv, Hk, Factor());
      CellIsInside(b, B, T, t);
      CellIsInside(Cell(b, T, t), B * T, Hk, Line(hv, Factor()));
    }

    lemma StateLineIsInside(b: nat, hv: nat, dv: nat)
      requires b < B && hv < Hv && dv < Dv
      ensures StateLine(b, hv, dv) < Rows()
    {
      CellIsInside(b, B, Hv, hv);
      CellIsInside(Cell(b, Hv, hv), B * Hv, Dv, dv);
    }

    function Query(b: nat, t: nat, hv: nat): (query: Vector)
      requires Valid() && HasHead(b, t, hv)
      ensures |query| == Dk
    {
      KeyLineIsInside(b, t, hv);
      Slice(q, B * T * Hk, Dk, KeyLine(b, t, hv))
    }

    function Key(b: nat, t: nat, hv: nat): (key: Vector)
      requires Valid() && HasHead(b, t, hv)
      ensures |key| == Dk
    {
      KeyLineIsInside(b, t, hv);
      Slice(k, B * T * Hk, Dk, KeyLine(b, t, hv))
    }

    function Value(b: nat, t: nat, hv: nat, dv: nat): real
      requires Valid() && HasHead(b, t, hv) && dv < Dv
    {
      ValueLineIsInside(b, t, hv);
      CellIsInside(ValueLine(b, t, hv), B * T * Hv, Dv, dv);
      v[Cell(ValueLine(b, t, hv), Dv, dv)]
    }

    function Beta(b: nat, t: nat, hv: nat): real
      requires Valid() && HasHead(b, t, hv)
    {
      ValueLineIsInside(b, t, hv);
      beta[ValueLine(b, t, hv)]
    }

    /** The decay of every key lane. */
    function Decay(b: nat, t: nat, hv: nat): (decay: Vector)
      requires Valid() && HasHead(b, t, hv)
      ensures |decay| == Dk
    {
      ValueLineIsInside(b, t, hv);
      match gate
      case PerHead(g) => seq(Dk, _ => g[ValueLine(b, t, hv)])
      case PerKey(g) => Slice(g, B * T * Hv, Dk, ValueLine(b, t, hv))
    }

    predicate IsUnmasked(b: nat, t: nat)
      requires Valid() && b < B && t < T
    {
      CellIsInside(b, B, T, t);
      mask.Where? ==> mask.tokens[Cell(b, T, t)]
    }

    /** The state row of (b, hv, dv) after `t` tokens. */
    function StateAfter(b: nat, hv: nat, dv: nat, t: nat): (row: Vector)
      requires Valid() && b < B && hv < Hv && dv < Dv && t <= T
      ensures |row| == Dk
    {
      if t == 0 then
        StateLineIsInside(b, hv, dv);
        Slice(state, Rows(), Dk, StateLine(b, hv, dv))
      else
        var row := StateAfter(b, hv, dv, t - 1);
        if IsUnmasked(b, t - 1) then Updated(row, b, t - 1, hv, dv) else row
    }

    function Updated(row: Vector, b: nat, t: nat, hv: nat, dv: nat): (next: Vector)
      requires Valid() && HasHead(b, t, hv) && dv < Dv && |row| == Dk
      ensures |next| == Dk
    {
      Next(row, Decay(b, t, hv), Key(b, t, hv), Value(b, t, hv, dv), Beta(b, t, hv))
    }

    /** The reference output of token t. */
    function Output(b: nat, t: nat, hv: nat, dv: nat): real
      requires Valid() && HasHead(b, t, hv) && dv < Dv
    {
      Dot(Updated(StateAfter(b, hv, dv, t), b, t, hv, dv), Query(b, t, hv), Dk)
    }
  }

  /** Line `line` of a row-major tensor of `lines` lines of `width`. */
  function Slice(tensor: Vector, lines: nat, width: nat, line: nat): (slice: Vector)
    requires |tensor| == lines * width && line < lines
    ensures |slice| == width
    ensures forall d :: 0 <= d < width ==> Cell(line, width, d) < |tensor| && slice[d] == tensor[Cell(line, width, d)]
  {
    LinesAreApart(line, lines, width);
    tensor[line * width..line * width + width]
  }

  function Decayed(row: Vector, decay: Vector): (r: Vector)
    requires |row| == |decay|
    ensures |r| == |row|
  {
    seq(|row|, d requires 0 <= d < |row| => row[d] * decay[d])
  }

  function Corrected(row: Vector, key: Vector, delta: real): (r: Vector)
    requires |row| == |key|
    ensures |r| == |row|
  {
    seq(|row|, d requires 0 <= d < |row| => row[d] + key[d] * delta)
  }

  function Correction(value: real, memory: real, beta: real): real {
    (value - memory) * beta
  }

  /** One step of the reference on one state row. */
  function Next(row: Vector, decay: Vector, key: Vector, value: real, beta: real): (next: Vector)
    requires |row| == |decay| == |key|
    ensures |next| == |row|
  {
    var decayed := Decayed(row, decay);
    Corrected(decayed, key, Correction(value, Dot(decayed, key, |key|), beta))
  }

  // The lane split

  /** `width` products a lane, `lanes` lanes: the lane sums add up to the dot product. */
  ghost predicate AreLaneSums(terms: Vector, a: Vector, b: Vector, width: nat) {
    forall l :: 0 <= l < |terms| ==>
      && Cell(l, width, width) <= |a| && Cell(l, width, width) <= |b|
      && terms[l] == Partial(a, b, Cell(l, width, 0), width)
  }

  lemma {:induction false} LaneSumsAreDot(terms: Vector, a: Vector, b: Vector, width: nat, lanes: nat)
    requires AreLaneSums(terms, a, b, width) && lanes <= |terms|
    ensures Cell(lanes, width, 0) <= |a| && Cell(lanes, width, 0) <= |b|
    ensures Sum(terms, lanes) == Dot(a, b, Cell(lanes, width, 0))
  {
    if lanes == 0 {
      LineEnds(0, width);
    } else {
      LaneSumsAreDot(terms, a, b, width, lanes - 1);
      LineEnds(lanes - 1, width);
      DotSplits(a, b, Cell(lanes - 1, width, 0), width);
    }
  }
}
