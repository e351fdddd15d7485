/** What one step of the gated delta recurrence does, read out against any vector, and where its data stand. */
module GatedDeltaLaws {
  import opened GatedDelta
  import opened Grids
  import opened Vectors

  /** What the decayed row holds for x: the sum of row[d] * decay[d] * x[d] for d < n. */
  function Recalled(row: Vector, decay: Vector, x: Vector, n: nat): real
    requires n <= |row| && n <= |decay| && n <= |x|
  {
    if n == 0 then 0.0 else Recalled(row, decay, x, n - 1) + row[n - 1] * decay[n - 1] * x[n - 1]
  }

  lemma {:induction false} DotOfDecayed(row: Vector, decay: Vector, x: Vector, n: nat)
    requires |row| == |decay| && n <= |row| && n <= |x|
    ensures Dot(Decayed(row, decay), x, n) == Recalled(row, decay, x, n)
  {
    if n > 0 {
      DotOfDecayed(row, decay, x, n - 1);
    }
  }

  lemma {:induction false} DotOfCorrected(row: Vector, key: Vector, delta: real, x: Vector, n: nat)
    requires |row| == |key| && n <= |row| && n <= |x|
    ensures Dot(Corrected(row, key, delta), x, n) == Dot(row, x, n) + Times(delta, Dot(key, x, n))
  {
    if n > 0 {
      DotOfCorrected(row, key, delta, x, n - 1);
      OneMoreProduct(row[n - 1], key[n - 1], delta, x[n - 1], Dot(key, x, n - 1));
    }
  }

  lemma OneMoreProduct(r: real, k: real, delta: real, x: real, before: real)
    ensures (r + k * delta) * x + Times(delta, before) == r * x + Times(delta, before + k * x)
  {
    assert (r + k * delta) * x == r * x + delta * (k * x);
  }

  /** What the value exceeds the recalled one by, times beta. */
  function Gain(row: Vector, decay: Vector, key: Vector, value: real, beta: real): real
    requires |row| == |decay| == |key|
  {
    Times(value - Recalled(row, decay, key, |row|), beta)
  }

  lemma NextIsCorrected(row: Vector, decay: Vector, key: Vector, value: real, beta: real)
    requires |row| == |decay| == |key|
    ensures Next(row, decay, key, value, beta) ==
            Corrected(Decayed(row, decay), key, Gain(row, decay, key, value, beta))
  {
    DotOfDecayed(row, decay, key, |row|);
    var decayed := Decayed(row, decay);
    assert Correction(value, Dot(decayed, key, |key|), beta) == Gain(row, decay, key, value, beta);
    assert Next(row, decay, key, value, beta) ==
           Corrected(decayed, key, Correction(value, Dot(decayed, key, |key|), beta));
  }

  /** The read-out law: for every x the step adds the gain times <key, x> to what the decayed row held for x. */
  lemma StepReadsOut(row: Vector, decay: Vector, key: Vector, value: real, beta: real, x: Vector)
    requires |row| == |decay| == |key| == |x|
    ensures Dot(Next(row, decay, key, value, beta), x, |row|) ==
            Recalled(row, decay, x, |row|) + Times(Gain(row, decay, key, value, beta), Dot(key, x, |row|))
  {
    NextIsCorrected(row, decay, key, value, beta);
    DotOfDecayed(row, decay, x, |row|);
    DotOfCorrected(Decayed(row, decay), key, Gain(row, decay, key, value, beta), x, |row|);
  }

  /** Read out by its own key the state has moved towards the value, by beta times the key's square; with a unit key
      and beta 1 it reads the value. */
  lemma KeyReadsValue(row: Vector, decay: Vector, key: Vector, value: real, beta: real, square: real)
    requires |row| == |decay| == |key| && square == Dot(key, key, |row|)
    ensures var recalled, read := Recalled(row, decay, key, |row|), Dot(Next(row, decay, key, value, beta), key, |row|);
            && read == recalled + Times(Times(beta, square), value - recalled)
            && (square == 1.0 && beta == 1.0 ==> read == value)
  {
    StepReadsOut(row, decay, key, value, beta, key);
    MovesByGain(
      Dot(Next(row, decay, key, value, beta), key, |row|), Recalled(row, decay, key, |row|),
      Gain(row, decay, key, value, beta), value, beta, square);
  }

  /** What is orthogonal to the key only decays. */
  lemma OrthogonalOnlyDecays(
    row: Vector, decay: Vector, key: Vector, value: real, beta: real, x: Vector, overlap: real)
    requires |row| == |decay| == |key| == |x| && overlap == Dot(key, x, |row|) && overlap == 0.0
    ensures Dot(Next(row, decay, key, value, beta), x, |row|) == Recalled(row, decay, x, |row|)
  {
    StepReadsOut(row, decay, key, value, beta, x);
    StaysWithoutGain(
      Dot(Next(row, decay, key, value, beta), x, |row|), Recalled(row, decay, x, |row|),
      Gain(row, decay, key, value, beta), overlap);
  }

  lemma MovesByGain(read: real, recalled: real, gain: real, value: real, beta: real, square: real)
    requires gain == Times(value - recalled, beta) && read == recalled + Times(gain, square)
    ensures read == recalled + Times(Times(beta, square), value - recalled)
    ensures square == 1.0 && beta == 1.0 ==> read == value
  {
    TimesAssociates(value - recalled, beta, square);
    TimesCommutes(value - recalled, Times(beta, square));
    if square == 1.0 && beta == 1.0 {
      assert Times(Times(beta, square), value - recalled) == value - recalled;
    }
  }

  lemma StaysWithoutGain(read: real, recalled: real, gain: real, overlap: real)
    requires read == recalled + Times(gain, overlap)
    ensures overlap == 0.0 ==> read == recalled
  {
  }

  /** The same of the recurrence: an unmasked token obeys the law, a masked one leaves the row as it is. */
  lemma TokenReadsOut(p: Problem, b: nat, t: nat, hv: nat, dv: nat, x: Vector)
    requires p.Valid() && p.HasHead(b, t, hv) && dv < p.Dv && |x| == p.Dk
    ensures var row, next := p.StateAfter(b, hv, dv, t), p.StateAfter(b, hv, dv, t + 1);
            var decay, key := p.Decay(b, t, hv), p.Key(b, t, hv);
            if p.IsUnmasked(b, t) then
              Dot(next, x, p.Dk) ==
              Recalled(row, decay, x, p.Dk)
              + Times(Gain(row, decay, key, p.Value(b, t, hv, dv), p.Beta(b, t, hv)), Dot(key, x, p.Dk))
            else next == row
  {
    StepReadsOut(
      p.StateAfter(b, hv, dv, t), p.Decay(b, t, hv), p.Key(b, t, hv), p.Value(b, t, hv, dv), p.Beta(b, t, hv), x);
  }

  /** An unmasked token's output is the new state read out by its query. */
  lemma OutputReadsNewState(p: Problem, b: nat, t: nat, hv: nat, dv: nat)
    requires p.Valid() && p.HasHead(b, t, hv) && dv < p.Dv && p.IsUnmasked(b, t)
    ensures p.Output(b, t, hv, dv) == Dot(p.StateAfter(b, hv, dv, t + 1), p.Query(b, t, hv), p.Dk)
  {
  }

  /** Element by element, where a token's data stand in the row-major tensors. */
  lemma DataAreRowMajor(p: Problem, b: nat, t: nat, hv: nat, dv: nat, d: nat)
    requires p.Valid() && p.HasHead(b, t, hv) && dv < p.Dv && d < p.Dk
    ensures var line, keyLine := (b * p.T + t) * p.Hv + hv, (b * p.T + t) * p.Hk + hv / (p.Hv / p.Hk);
            && 0 <= keyLine * p.Dk + d < |p.k| == |p.q|
            && p.Key(b, t, hv)[d] == p.k[keyLine * p.Dk + d] && p.Query(b, t, hv)[d] == p.q[keyLine * p.Dk + d]
            && 0 <= line * p.Dv + dv < |p.v| && p.Value(b, t, hv, dv) == p.v[line * p.Dv + dv]
            && 0 <= line < |p.beta| && p.Beta(b, t, hv) == p.beta[line]
  {
    p.KeyLineIsInside(b, t, hv);
    p.ValueLineIsInside(b, t, hv);
    FactorIsPositive(p, hv);
    CellIsInside(p.ValueLine(b, t, hv), p.B * p.T * p.Hv, p.Dv, dv);
    CellIsInside(p.KeyLine(b, t, hv), p.B * p.T * p.Hk, p.Dk, d);
  }

  lemma FactorIsPositive(p: Problem, hv: nat)
    requires p.Valid() && hv < p.Hv
    ensures p.Factor() > 0 && Line(hv, p.Factor()) == hv / (p.Hv / p.Hk)
  {
    assert p.Hv == p.Hk * p.Factor();
  }

  lemma GatesAreRowMajor(p: Problem, b: nat, t: nat, hv: nat, d: nat)
    requires p.Valid() && p.HasHead(b, t, hv) && d < p.Dk
    ensures var line := (b * p.T + t) * p.Hv + hv;
            match p.gate
            case PerHead(g) => 0 <= line < |g| && p.Decay(b, t, hv)[d] == g[line]
            case PerKey(g) => 0 <= line * p.Dk + d < |g| && p.Decay(b, t, hv)[d] == g[line * p.Dk + d]
  {
    p.ValueLineIsInside(b, t, hv);
    CellIsInside(p.ValueLine(b, t, hv), p.B * p.T * p.Hv, p.Dk, d);
  }

  lemma StateIsRowMajor(p: Problem, b: nat, hv: nat, dv: nat, d: nat)
    requires p.Valid() && b < p.B && hv < p.Hv && dv < p.Dv && d < p.Dk
    ensures var line := (b * p.Hv + hv) * p.Dv + dv;
            0 <= line * p.Dk + d < |p.state| && p.StateAfter(b, hv, dv, 0)[d] == p.state[line * p.Dk + d]
  {
    p.StateLineIsInside(b, hv, dv);
    CellIsInside(p.StateLine(b, hv, dv), p.Rows(), p.Dk, d);
  }

  lemma MaskIsRowMajor(p: Problem, b: nat, t: nat)
    requires p.Valid() && b < p.B && t < p.T
    ensures p.mask.Where? ==> 0 <= b * p.T + t < |p.mask.tokens| && p.IsUnmasked(b, t) == p.mask.tokens[b * p.T + t]
    ensures p.mask.Everywhere? ==> p.IsUnmasked(b, t)
  {
    CellIsInside(b, p.B, p.T, t);
  }
}
