/** The 32-lane gated delta kernel over flat buffers, refined to the sequential reference. */
module GatedDeltaKernel {
  import opened Grids
  import opened GatedDelta
  import opened Vectors

  const LANES: nat := 32

  /** `buffer` from `base` on starts with `vector`. */
  ghost predicate PointsAt(buffer: Vector, base: nat, vector: Vector) {
    base + |vector| <= |buffer| && forall d {:trigger vector[d]} :: 0 <= d < |vector| ==> buffer[base + d] == vector[d]
  }

  /** A gate pointer: one element for the head, or one for each key lane. */
  predicate HasGate(gate: Gate, base: nat, d: nat) {
    if gate.PerHead? then base < |gate.g| else base + d < |gate.g|
  }

  function GateAt(gate: Gate, base: nat, d: nat): real
    requires HasGate(gate, base, d)
  {
    if gate.PerHead? then gate.g[base] else gate.g[base + d]
  }

  ghost predicate GatesAre(gate: Gate, base: nat, decay: Vector) {
    forall d {:trigger decay[d]} :: 0 <= d < |decay| ==> HasGate(gate, base, d) && GateAt(gate, base, d) == decay[d]
  }

  /** The registers of lane `lane` hold row[from..from + width]. */
  ghost predicate LaneHolds(registers: array2<real>, lane: nat, row: Vector, from: nat)
    reads registers
  {
    && lane < registers.Length0 && from + registers.Length1 <= |row|
    && forall i {:trigger registers[lane, i]} :: 0 <= i < registers.Length1 ==> registers[lane, i] == row[from + i]
  }

  twostate predicate OtherLanesKept(registers: array2<real>, lane: nat)
    reads registers
  {
    forall l, i :: 0 <= l < registers.Length0 && 0 <= i < registers.Length1 && l != lane ==>
      registers[l, i] == old(registers[l, i])
  }

  /** The registers of all lanes hold `row`, `width` consecutive elements a lane. */
  ghost predicate Holds(registers: array2<real>, row: Vector, width: nat)
    reads registers
  {
    HoldsLanes(registers, row, width, 0, LANES)
  }

  ghost predicate HoldsLanes(registers: array2<real>, row: Vector, width: nat, low: nat, high: nat)
    reads registers
  {
    && registers.Length0 == LANES && registers.Length1 == width && |row| == LANES * width
    && forall l :: low <= l < high ==> LaneHolds(registers, l, row, Cell(l, width, 0))
  }

  /** One lane's first loop: decay its registers and accumulate them against the key. */
  method DecayLane(
    registers: array2<real>, lane: nat, from: nat, gate: Gate, g: nat, k: Vector, kAt: nat,
    ghost row: Vector, ghost decay: Vector, ghost key: Vector) returns (partial: real)
    requires |row| == |decay| == |key|
    requires GatesAre(gate, g, decay) && PointsAt(k, kAt, key) && LaneHolds(registers, lane, row, from)
    modifies registers
    ensures LaneHolds(registers, lane, Decayed(row, decay), from) && OtherLanesKept(registers, lane)
    ensures partial == Partial(Decayed(row, decay), key, from, registers.Length1)
  {
    ghost var decayed := Decayed(row, decay);
    partial := 0.0;
    for i := 0 to registers.Length1
      invariant forall j {:trigger registers[lane, j]} :: 0 <= j < i ==> registers[lane, j] == decayed[from + j]
      invariant forall j {:trigger registers[lane, j]} :: i <= j < registers.Length1 ==>
          registers[lane, j] == row[from + j]
      invariant OtherLanesKept(registers, lane)
      invariant partial == Partial(decayed, key, from, i)
    {
      ghost var wanted := decay[from + i];
      assert key[from + i] == k[kAt + (from + i)];
      registers[lane, i] := registers[lane, i] * GateAt(gate, g, from + i);
      partial := partial + registers[lane, i] * k[kAt + (from + i)];
    }
  }

  /** One lane's second loop: correct its registers and accumulate them against the query. */
  method CorrectLane(
    registers: array2<real>, lane: nat, from: nat, delta: real, k: Vector, kAt: nat, q: Vector, qAt: nat,
    ghost row: Vector, ghost key: Vector, ghost query: Vector) returns (partial: real)
    requires |row| == |key| == |query|
    requires PointsAt(k, kAt, key) && PointsAt(q, qAt, query) && LaneHolds(registers, lane, row, from)
    modifies registers
    ensures LaneHolds(registers, lane, Corrected(row, key, delta), from) && OtherLanesKept(registers, lane)
    ensures partial == Partial(Corrected(row, key, delta), query, from, registers.Length1)
  {
    ghost var corrected := Corrected(row, key, delta);
    partial := 0.0;
    for i := 0 to registers.Length1
      invariant forall j {:trigger registers[lane, j]} :: 0 <= j < i ==> registers[lane, j] == corrected[from + j]
      invariant forall j {:trigger registers[lane, j]} :: i <= j < registers.Length1 ==>
          registers[lane, j] == row[from + j]
      invariant OtherLanesKept(registers, lane)
      invariant partial == Partial(corrected, query, from, i)
    {
      assert key[from + i] == k[kAt + (from + i)] && query[from + i] == q[qAt + (from + i)];
      registers[lane, i] := registers[lane, i] + k[kAt + (from + i)] * delta;
      partial := partial + registers[lane, i] * q[qAt + (from + i)];
    }
  }

  /** simd_sum: the sum over all lanes, which every lane receives. */
  method SimdSum(partials: Vector) returns (total: real)
    requires |partials| == LANES
    ensures total == Sum(partials, LANES)
  {
    total := 0.0;
    for l := 0 to LANES
      invariant total == Sum(partials, l)
    {
      total := total + partials[l];
    }
  }

  /** simd_sum of the partial sums of all lanes. */
  method LaneTotal(partials: Vector, ghost a: Vector, ghost b: Vector, width: nat) returns (total: real)
    requires |partials| == LANES && |a| == |b| == LANES * width && AreLaneSums(partials, a, b, width)
    ensures total == Dot(a, b, |a|)
  {
    total := SimdSum(partials);
    LaneSumsAreDot(partials, a, b, width, LANES);
  }

  lemma LaneStarts(lane: nat, width: nat)
    requires lane < LANES
    ensures width * lane == Cell(lane, width, 0) && Cell(lane, width, width) == width * lane + width <= LANES * width
  {
    LinesAreApart(lane, LANES, width);
  }

  /** The first loop of every lane, and its lane sums. */
  method DecayLanes(
    registers: array2<real>, width: nat, gate: Gate, g: nat, k: Vector, kAt: nat,
    ghost row: Vector, ghost decay: Vector, ghost key: Vector) returns (partials: Vector)
    requires |row| == |decay| == |key|
    requires GatesAre(gate, g, decay) && PointsAt(k, kAt, key) && Holds(registers, row, width)
    modifies registers
    ensures Holds(registers, Decayed(row, decay), width)
    ensures |partials| == LANES && AreLaneSums(partials, Decayed(row, decay), key, width)
  {
    ghost var decayed := Decayed(row, decay);
    partials := [];
    for lane := 0 to LANES
      invariant HoldsLanes(registers, decayed, width, 0, lane) && HoldsLanes(registers, row, width, lane, LANES)
      invariant |partials| == lane && AreLaneSums(partials, decayed, key, width)
    {
      LaneStarts(lane, width);
      var partial := DecayLane(registers, lane, width * lane, gate, g, k, kAt, row, decay, key);
      partials := partials + [partial];
    }
  }

  method CorrectLanes(
    registers: array2<real>, width: nat, delta: real, k: Vector, kAt: nat, q: Vector, qAt: nat,
    ghost row: Vector, ghost key: Vector, ghost query: Vector) returns (partials: Vector)
    requires |row| == |key| == |query|
    requires PointsAt(k, kAt, key) && PointsAt(q, qAt, query) && Holds(registers, row, width)
    modifies registers
    ensures Holds(registers, Corrected(row, key, delta), width)
    ensures |partials| == LANES && AreLaneSums(partials, Corrected(row, key, delta), query, width)
  {
    ghost var corrected := Corrected(row, key, delta);
    partials := [];
    for lane := 0 to LANES
      invariant HoldsLanes(registers, corrected, width, 0, lane) && HoldsLanes(registers, row, width, lane, LANES)
      invariant |partials| == lane && AreLaneSums(partials, corrected, query, width)
    {
      LaneStarts(lane, width);
      var partial := CorrectLane(registers, lane, width * lane, delta, k, kAt, q, qAt, row, key, query);
      partials := partials + [partial];
    }
  }

  /** One unmasked token: the lanes together take the reference step. */
  method Token(
    registers: array2<real>, width: nat, gate: Gate, g: nat, k: Vector, kAt: nat, q: Vector, qAt: nat,
    value: real, beta: real, ghost row: Vector, ghost decay: Vector, ghost key: Vector, ghost query: Vector)
    returns (out: real)
    requires |row| == |decay| == |key| == |query|
    requires GatesAre(gate, g, decay) && PointsAt(k, kAt, key) && PointsAt(q, qAt, query)
    requires Holds(registers, row, width)
    modifies registers
    ensures Holds(registers, Next(row, decay, key, value, beta), width)
    ensures out == Dot(Next(row, decay, key, value, beta), query, |row|)
  {
    ghost var decayed, next := Decayed(row, decay), Next(row, decay, key, value, beta);
    var partials := DecayLanes(registers, width, gate, g, k, kAt, row, decay, key);
    var kvMem := LaneTotal(partials, decayed, key, width);
    var delta := (value - kvMem) * beta;
    assert delta == Correction(value, Dot(decayed, key, |key|), beta);
    assert Corrected(decayed, key, delta) == next;
    partials := CorrectLanes(registers, width, delta, k, kAt, q, qAt, decayed, key, query);
    out := LaneTotal(partials, next, query, width);
  }

  // Addresses

  /** Advancing a pointer by one token moves it to the same head of the next token. */
  lemma PointerAdvances(b: nat, T: nat, t: nat, heads: nat, head: nat, width: nat)
    ensures Cell(Cell(Cell(b, T, t + 1), heads, head), width, 0) ==
            Cell(Cell(Cell(b, T, t), heads, head), width, 0) + heads * width
  {
    var line := b * T + t;
    assert (line + 1) * heads + head == (line * heads + head) + heads;
    assert ((line * heads + head) + heads) * width == (line * heads + head) * width + heads * width;
  }

  /** The pointers before the first token. */
  lemma PointerStarts(b: nat, T: nat, heads: nat, head: nat, width: nat)
    ensures Cell(Cell(Cell(b, T, 0), heads, head), width, 0) == b * T * heads * width + head * width
    ensures Cell(Cell(Cell(b, T, 0), heads, head), width, 0) == (b * T * heads + head) * width
    ensures Cell(Cell(b, T, 0), heads, 0) == b * T * heads
  {
    var line := b * T * heads;
    assert (line + head) * width == line * width + head * width;
  }

  /** The row of the state that the output element at `j` depends on, and its token. */
  function OwnerRow(p: Problem, j: nat): nat {
    var line := Line(j, p.Dv);
    p.StateLine(Line(Line(line, p.Hv), p.T), Column(line, p.Hv), Column(j, p.Dv))
  }

  function TokenOf(p: Problem, j: nat): nat {
    Column(Line(Line(j, p.Dv), p.Hv), p.T)
  }

  function OutputIndex(p: Problem, b: nat, t: nat, hv: nat, dv: nat): nat {
    Cell(p.ValueLine(b, t, hv), p.Dv, dv)
  }

  lemma OutputIndexSplits(p: Problem, b: nat, t: nat, hv: nat, dv: nat)
    requires p.HasHead(b, t, hv) && dv < p.Dv
    ensures var j := OutputIndex(p, b, t, hv, dv);
            && j < p.B * p.T * p.Hv * p.Dv
            && Line(j, p.Dv) == p.ValueLine(b, t, hv) && Column(j, p.Dv) == dv
            && Line(p.ValueLine(b, t, hv), p.Hv) == Cell(b, p.T, t) && Column(p.ValueLine(b, t, hv), p.Hv) == hv
            && Line(Cell(b, p.T, t), p.T) == b && Column(Cell(b, p.T, t), p.T) == t
  {
    p.ValueLineIsInside(b, t, hv);
    CellIsInside(p.ValueLine(b, t, hv), p.B * p.T * p.Hv, p.Dv, dv);
    CellSplits(p.ValueLine(b, t, hv), p.Dv, dv);
    CellSplits(Cell(b, p.T, t), p.Hv, hv);
    CellSplits(b, p.T, t);
  }

  lemma StateLineSplits(p: Problem, b: nat, hv: nat, dv: nat, b': nat, hv': nat, dv': nat)
    requires hv < p.Hv && dv < p.Dv && hv' < p.Hv && dv' < p.Dv
    requires p.StateLine(b, hv, dv) == p.StateLine(b', hv', dv')
    ensures b == b' && hv == hv' && dv == dv'
  {
    CellSplits(Cell(b, p.Hv, hv), p.Dv, dv);
    CellSplits(Cell(b', p.Hv, hv'), p.Dv, dv');
    CellSplits(b, p.Hv, hv);
    CellSplits(b', p.Hv, hv');
  }

  /** The places of output `j` in the [B, T, Hv, Dv] tensor. */
  datatype Place = Place(b: nat, t: nat, hv: nat, dv: nat)

  function PlaceOf(p: Problem, j: nat): Place {
    var line := Line(j, p.Dv);
    Place(Line(Line(line, p.Hv), p.T), TokenOf(p, j), Column(line, p.Hv), Column(j, p.Dv))
  }

  lemma PlaceIsInside(p: Problem, j: nat)
    requires j < p.B * p.T * p.Hv * p.Dv
    ensures var at := PlaceOf(p, j);
            && p.HasHead(at.b, at.t, at.hv) && at.dv < p.Dv
            && OutputIndex(p, at.b, at.t, at.hv, at.dv) == j
  {
    LineIsInside(j, p.B * p.T * p.Hv, p.Dv);
    LineIsInside(Line(j, p.Dv), p.B * p.T, p.Hv);
    LineIsInside(Line(Line(j, p.Dv), p.Hv), p.B, p.T);
    SplitIsCell(j, p.Dv);
    SplitIsCell(Line(j, p.Dv), p.Hv);
    SplitIsCell(Line(Line(j, p.Dv), p.Hv), p.T);
  }

  /** No two (row, token) pairs write the same output. */
  lemma OutputIsOwned(p: Problem, b: nat, t: nat, hv: nat, dv: nat, j: nat)
    requires p.HasHead(b, t, hv) && dv < p.Dv && j < p.B * p.T * p.Hv * p.Dv
    ensures OwnerRow(p, j) == p.StateLine(b, hv, dv) && TokenOf(p, j) == t <==> j == OutputIndex(p, b, t, hv, dv)
  {
    OutputIndexSplits(p, b, t, hv, dv);
    PlaceIsInside(p, j);
    var at := PlaceOf(p, j);
    if OwnerRow(p, j) == p.StateLine(b, hv, dv) {
      StateLineSplits(p, at.b, at.hv, at.dv, b, hv, dv);
    }
  }

  /** What the kernel leaves at output `j`: the reference, or zero at a masked token. */
  function Expected(p: Problem, j: nat): real
    requires p.Valid() && j < p.B * p.T * p.Hv * p.Dv
  {
    PlaceIsInside(p, j);
    var at := PlaceOf(p, j);
    if p.IsUnmasked(at.b, at.t) then p.Output(at.b, at.t, at.hv, at.dv) else 0.0
  }

  /** The data pointers of one thread group, as offsets into the flat buffers. */
  datatype Pointers = Pointers(q: nat, k: nat, v: nat, y: nat, g: nat, beta: nat)

  /** The pointers of head (b, hv) stand at token `t`. */
  predicate StandAt(p: Problem, at: Pointers, b: nat, t: nat, hv: nat)
    requires p.Hk > 0
  {
    && at.q == at.k == Cell(p.KeyLine(b, t, hv), p.Dk, 0)
    && at.v == at.y == Cell(p.ValueLine(b, t, hv), p.Dv, 0)
    && at.g == (if p.gate.PerHead? then Cell(Cell(b, p.T, t), p.Hv, 0) else Cell(p.ValueLine(b, t, hv), p.Dk, 0))
    && at.beta == Cell(Cell(b, p.T, t), p.Hv, 0)
  }

  /** The pointer arithmetic before the token loop. */
  method Start(p: Problem, b: nat, hv: nat) returns (at: Pointers)
    requires p.Hk > 0 && p.Factor() > 0
    ensures StandAt(p, at, b, 0, hv)
  {
    var hk := hv / (p.Hv / p.Hk);
    PointerStarts(b, p.T, p.Hk, hk, p.Dk);
    PointerStarts(b, p.T, p.Hv, hv, p.Dv);
    PointerStarts(b, p.T, p.Hv, hv, p.Dk);
    at := Pointers(
      b * p.T * p.Hk * p.Dk + hk * p.Dk, b * p.T * p.Hk * p.Dk + hk * p.Dk,
      b * p.T * p.Hv * p.Dv + hv * p.Dv, b * p.T * p.Hv * p.Dv + hv * p.Dv,
      if p.gate.PerHead? then b * p.T * p.Hv else (b * p.T * p.Hv + hv) * p.Dk,
      b * p.T * p.Hv);
  }

  /** The pointer arithmetic at the end of the token loop. */
  method Advance(p: Problem, at: Pointers, ghost b: nat, ghost t: nat, ghost hv: nat) returns (next: Pointers)
    requires p.Hk > 0 && StandAt(p, at, b, t, hv)
    ensures StandAt(p, next, b, t + 1, hv)
  {
    next := Pointers(
      at.q + p.Hk * p.Dk, at.k + p.Hk * p.Dk, at.v + p.Hv * p.Dv, at.y + p.Hv * p.Dv,
      at.g + (if p.gate.PerHead? then p.Hv else p.Hv * p.Dk), at.beta + p.Hv);
    PointerAdvances(b, p.T, t, p.Hk, Line(hv, p.Factor()), p.Dk);
    PointerAdvances(b, p.T, t, p.Hv, hv, p.Dv);
    PointerAdvances(b, p.T, t, p.Hv, hv, p.Dk);
    LineAdvances(Cell(b, p.T, t), p.Hv);
  }

  lemma LineAdvances(line: nat, width: nat)
    ensures Cell(line + 1, width, 0) == Cell(line, width, 0) + width
  {
  }

  /** The gate pointer a lane reads through: a head's gate stands hv elements behind its token's. */
  function GateBase(p: Problem, at: Pointers, hv: nat): nat {
    if p.gate.PerHead? then at.g + hv else at.g
  }

  /** What the pointers read at a token is the token's own data. */
  lemma PointersRead(p: Problem, at: Pointers, b: nat, t: nat, hv: nat, dv: nat)
    requires p.Valid() && p.HasHead(b, t, hv) && dv < p.Dv && StandAt(p, at, b, t, hv)
    ensures PointsAt(p.q, at.q, p.Query(b, t, hv)) && PointsAt(p.k, at.k, p.Key(b, t, hv))
    ensures at.v + dv < |p.v| && p.v[at.v + dv] == p.Value(b, t, hv, dv)
    ensures at.beta + hv < |p.beta| && p.beta[at.beta + hv] == p.Beta(b, t, hv)
    ensures at.y + dv == OutputIndex(p, b, t, hv, dv)
  {
    p.ValueLineIsInside(b, t, hv);
    p.KeyLineIsInside(b, t, hv);
    CellIsInside(p.ValueLine(b, t, hv), p.B * p.T * p.Hv, p.Dv, dv);
    SliceIsAt(p.q, p.B * p.T * p.Hk, p.Dk, p.KeyLine(b, t, hv));
    SliceIsAt(p.k, p.B * p.T * p.Hk, p.Dk, p.KeyLine(b, t, hv));
  }

  lemma GatesRead(p: Problem, at: Pointers, b: nat, t: nat, hv: nat)
    requires p.Valid() && p.HasHead(b, t, hv) && StandAt(p, at, b, t, hv)
    ensures GatesAre(p.gate, GateBase(p, at, hv), p.Decay(b, t, hv))
  {
    p.ValueLineIsInside(b, t, hv);
    match p.gate
    case PerHead(g) =>
      HeadGatesRead(g, p.ValueLine(b, t, hv), p.Decay(b, t, hv));
    case PerKey(g) =>
      SliceIsAt(g, p.B * p.T * p.Hv, p.Dk, p.ValueLine(b, t, hv));
      KeyGatesRead(g, Cell(p.ValueLine(b, t, hv), p.Dk, 0), p.Decay(b, t, hv));
  }

  lemma HeadGatesRead(g: Vector, at: nat, decay: Vector)
    requires at < |g| && forall d :: 0 <= d < |decay| ==> decay[d] == g[at]
    ensures GatesAre(PerHead(g), at, decay)
  {
  }

  lemma KeyGatesRead(g: Vector, at: nat, decay: Vector)
    requires PointsAt(g, at, decay)
    ensures GatesAre(PerKey(g), at, decay)
  {
    forall d | 0 <= d < |decay|
      ensures HasGate(PerKey(g), at, d) && GateAt(PerKey(g), at, d) == decay[d]
    {
      assert g[at + d] == decay[d];
    }
  }

  lemma SliceIsAt(tensor: Vector, lines: nat, width: nat, line: nat)
    requires |tensor| == lines * width && line < lines
    ensures PointsAt(tensor, Cell(line, width, 0), Slice(tensor, lines, width, line))
  {
    LinesAreApart(line, lines, width);
    var slice := Slice(tensor, lines, width, line);
    forall d | 0 <= d < |slice|
      ensures tensor[Cell(line, width, 0) + d] == slice[d]
    {
      assert Cell(line, width, d) == Cell(line, width, 0) + d;
    }
  }

  method LoadLanes(registers: array2<real>, width: nat, stateIn: Vector, at: nat, ghost row: Vector)
    requires registers.Length0 == LANES && registers.Length1 == width && |row| == LANES * width
    requires PointsAt(stateIn, at, row)
    modifies registers
    ensures Holds(registers, row, width)
  {
    for lane := 0 to LANES
      invariant HoldsLanes(registers, row, width, 0, lane)
    {
      LaneStarts(lane, width);
      LoadLane(registers, lane, width * lane, stateIn, at, row);
    }
  }

  method LoadLane(registers: array2<real>, lane: nat, from: nat, stateIn: Vector, at: nat, ghost row: Vector)
    requires lane < registers.Length0 && from + registers.Length1 <= |row|
    requires PointsAt(stateIn, at, row)
    modifies registers
    ensures LaneHolds(registers, lane, row, from) && OtherLanesKept(registers, lane)
  {
    for i := 0 to registers.Length1
      invariant forall j {:trigger registers[lane, j]} :: 0 <= j < i ==> registers[lane, j] == row[from + j]
      invariant OtherLanesKept(registers, lane)
    {
      assert row[from + i] == stateIn[at + (from + i)];
      registers[lane, i] := stateIn[at + (from + i)];
    }
  }

  /** Row `row` stands in `buffer` from `at` on up to element `n`; everything outside its place is as in `before`. */
  ghost predicate StoredUpTo(buffer: Vector, before: Vector, at: nat, row: Vector, n: nat) {
    && n <= |row| && at + |row| <= |buffer| == |before|
    && forall j {:trigger buffer[j]} :: 0 <= j < |buffer| ==>
         buffer[j] == if at <= j < at + n then row[j - at] else before[j]
  }

  method StoreLanes(registers: array2<real>, width: nat, stateOut: array<real>, at: nat, ghost row: Vector)
    requires Holds(registers, row, width) && at + |row| <= stateOut.Length
    modifies stateOut
    ensures StoredUpTo(stateOut[..], old(stateOut[..]), at, row, |row|)
  {
    LaneStarts(0, width);
    for lane := 0 to LANES
      invariant Cell(lane, width, 0) <= |row|
      invariant StoredUpTo(stateOut[..], old(stateOut[..]), at, row, Cell(lane, width, 0))
    {
      LaneStarts(lane, width);
      LineAdvances(lane, width);
      StoreLane(registers, lane, width * lane, stateOut, at, row, old(stateOut[..]));
    }
  }

  method StoreLane(
    registers: array2<real>, lane: nat, from: nat, stateOut: array<real>, at: nat, ghost row: Vector,
    ghost before: Vector)
    requires LaneHolds(registers, lane, row, from) && at + |row| <= stateOut.Length
    requires StoredUpTo(stateOut[..], before, at, row, from)
    modifies stateOut
    ensures StoredUpTo(stateOut[..], before, at, row, from + registers.Length1)
  {
    for i := 0 to registers.Length1
      invariant StoredUpTo(stateOut[..], before, at, row, from + i)
    {
      stateOut[at + (from + i)] := registers[lane, i];
    }
  }

  // One thread group

  /** Row `r` has its outputs up to token `t`; every other output is as in `before`. */
  ghost predicate RowIsWritten(p: Problem, y: Vector, before: Vector, r: nat, t: nat)
    requires p.Valid()
  {
    && |y| == |before| == p.B * p.T * p.Hv * p.Dv
    && forall j {:trigger y[j]} :: 0 <= j < |y| ==>
         y[j] == if OwnerRow(p, j) == r && TokenOf(p, j) < t then Expected(p, j) else before[j]
  }

  lemma ExpectedAt(p: Problem, b: nat, t: nat, hv: nat, dv: nat)
    requires p.Valid() && p.HasHead(b, t, hv) && dv < p.Dv
    ensures OutputIndex(p, b, t, hv, dv) < p.B * p.T * p.Hv * p.Dv
    ensures Expected(p, OutputIndex(p, b, t, hv, dv)) == if p.IsUnmasked(b, t) then p.Output(b, t, hv, dv) else 0.0
  {
    OutputIndexSplits(p, b, t, hv, dv);
    assert PlaceOf(p, OutputIndex(p, b, t, hv, dv)) == Place(b, t, hv, dv);
  }

  lemma RowAdvances(p: Problem, y: Vector, before: Vector, b: nat, t: nat, hv: nat, dv: nat)
    requires p.Valid() && p.HasHead(b, t, hv) && dv < p.Dv
    requires RowIsWritten(p, y, before, p.StateLine(b, hv, dv), t)
    ensures var j := OutputIndex(p, b, t, hv, dv);
            j < |y| && RowIsWritten(p, y[j := Expected(p, j)], before, p.StateLine(b, hv, dv), t + 1)
  {
    OutputIndexSplits(p, b, t, hv, dv);
    var at := OutputIndex(p, b, t, hv, dv);
    var after := y[at := Expected(p, at)];
    forall j {:trigger after[j]} | 0 <= j < |after|
      ensures after[j] ==
              if OwnerRow(p, j) == p.StateLine(b, hv, dv) && TokenOf(p, j) < t + 1 then Expected(p, j) else before[j]
    {
      OutputIsOwned(p, b, t, hv, dv, j);
      assert j != at ==> after[j] == y[j];
    }
  }

  /** One token of one thread group: the mask test, the lanes and the output. */
  method Step(
    p: Problem, registers: array2<real>, width: nat, y: array<real>, at: Pointers, b: nat, t: nat, hv: nat, dv: nat)
    requires p.Valid() && p.HasHead(b, t, hv) && dv < p.Dv && p.Dk == LANES * width
    requires StandAt(p, at, b, t, hv) && y.Length == p.B * p.T * p.Hv * p.Dv
    requires Holds(registers, p.StateAfter(b, hv, dv, t), width)
    modifies registers, y
    ensures Holds(registers, p.StateAfter(b, hv, dv, t + 1), width)
    ensures var j := OutputIndex(p, b, t, hv, dv);
            j < |old(y[..])| && y[..] == old(y[..])[j := Expected(p, j)]
  {
    PointersRead(p, at, b, t, hv, dv);
    ExpectedAt(p, b, t, hv, dv);
    CellIsInside(b, p.B, p.T, t);
    if p.mask.Where? ==> p.mask.tokens[b * p.T + t] {
      GatesRead(p, at, b, t, hv);
      var out := Token(
        registers, width, p.gate, GateBase(p, at, hv), p.k, at.k, p.q, at.q, p.v[at.v + dv], p.beta[at.beta + hv],
        p.StateAfter(b, hv, dv, t), p.Decay(b, t, hv), p.Key(b, t, hv), p.Query(b, t, hv));
      y[at.y + dv] := out;
    } else {
      y[at.y + dv] := 0.0;
    }
  }

  lemma RowBegins(p: Problem, y: Vector, r: nat)
    requires p.Valid() && |y| == p.B * p.T * p.Hv * p.Dv
    ensures RowIsWritten(p, y, y, r, 0)
  {
  }

  /** The token loop of one thread group. */
  method RunTokens(
    p: Problem, registers: array2<real>, width: nat, y: array<real>, b: nat, hv: nat, dv: nat)
    requires p.Valid() && b < p.B && hv < p.Hv && dv < p.Dv && p.Dk == LANES * width && p.Factor() > 0
    requires y.Length == p.B * p.T * p.Hv * p.Dv
    requires Holds(registers, p.StateAfter(b, hv, dv, 0), width)
    modifies registers, y
    ensures Holds(registers, p.StateAfter(b, hv, dv, p.T), width)
    ensures RowIsWritten(p, y[..], old(y[..]), p.StateLine(b, hv, dv), p.T)
  {
    var at := Start(p, b, hv);
    RowBegins(p, y[..], p.StateLine(b, hv, dv));
    for t := 0 to p.T
      invariant StandAt(p, at, b, t, hv)
      invariant Holds(registers, p.StateAfter(b, hv, dv, t), width)
      invariant RowIsWritten(p, y[..], old(y[..]), p.StateLine(b, hv, dv), t)
    {
      RowAdvances(p, y[..], old(y[..]), b, t, hv, dv);
      Step(p, registers, width, y, at, b, t, hv, dv);
      at := Advance(p, at, b, t, hv);
    }
  }

  /** Thread group (n, dv) is batch n / Hv, head n % Hv, and its state row is in place. */
  lemma GroupIsInside(p: Problem, n: nat, dv: nat)
    requires p.Valid() && n < p.B * p.Hv && dv < p.Dv
    ensures p.Hv > 0 && p.Factor() > 0 && Line(n, p.Hv) < p.B && Column(n, p.Hv) < p.Hv
    ensures p.StateLine(Line(n, p.Hv), Column(n, p.Hv), dv) == Cell(n, p.Dv, dv) < p.Rows()
    ensures Cell(Cell(n, p.Dv, dv), p.Dk, 0) + p.Dk <= |p.state|
    ensures PointsAt(
              p.state, Cell(Cell(n, p.Dv, dv), p.Dk, 0), p.StateAfter(Line(n, p.Hv), Column(n, p.Hv), dv, 0))
  {
    LineIsInside(n, p.B, p.Hv);
    SplitIsCell(n, p.Hv);
    FactorIsPositive(p);
    p.StateLineIsInside(Line(n, p.Hv), Column(n, p.Hv), dv);
    LinesAreApart(Cell(n, p.Dv, dv), p.Rows(), p.Dk);
    SliceIsAt(p.state, p.Rows(), p.Dk, Cell(n, p.Dv, dv));
  }

  lemma FactorIsPositive(p: Problem)
    requires p.Hk > 0 && p.Hv % p.Hk == 0 && p.Hv > 0
    ensures p.Factor() > 0
  {
  }

  /** What thread group (n, dv) leaves of its row. */
  ghost function FinalRow(p: Problem, n: nat, dv: nat): (row: Vector)
    requires p.Valid() && n < p.B * p.Hv && dv < p.Dv
    ensures |row| == p.Dk
  {
    GroupIsInside(p, n, dv);
    p.StateAfter(Line(n, p.Hv), Column(n, p.Hv), dv, p.T)
  }

  /** One thread group: the row of (n, dv), from its input state over all tokens to its output state. */
  method ThreadGroup(p: Problem, n: nat, dv: nat, y: array<real>, stateOut: array<real>)
    requires p.Valid() && p.Dk % LANES == 0 && n < p.B * p.Hv && dv < p.Dv
    requires y.Length == p.B * p.T * p.Hv * p.Dv && stateOut.Length == |p.state| && y != stateOut
    modifies y, stateOut
    ensures RowIsWritten(p, y[..], old(y[..]), Cell(n, p.Dv, dv), p.T)
    ensures StoredUpTo(
              stateOut[..], old(stateOut[..]), Cell(Cell(n, p.Dv, dv), p.Dk, 0), FinalRow(p, n, dv), p.Dk)
  {
    GroupIsInside(p, n, dv);
    var b, hv, width := n / p.Hv, n % p.Hv, p.Dk / LANES;
    var state := (n * p.Dv + dv) * p.Dk;
    var registers := new real[LANES, width];
    LoadLanes(registers, width, p.state, state, p.StateAfter(b, hv, dv, 0));
    RunTokens(p, registers, width, y, b, hv, dv);
    StoreLanes(registers, width, stateOut, state, p.StateAfter(b, hv, dv, p.T));
  }

  // The launch

  /** The thread groups that have run, by row, and what they have left. */
  ghost predicate AreDone(p: Problem, done: set<nat>, y: Vector, stateOut: Vector)
    requires p.Valid()
  {
    && |y| == p.B * p.T * p.Hv * p.Dv && |stateOut| == |p.state|
    && (forall j {:trigger y[j]} :: 0 <= j < |y| && OwnerRow(p, j) in done ==> y[j] == Expected(p, j))
    && forall j {:trigger stateOut[j]} :: 0 <= j < |stateOut| && Line(j, p.Dk) in done ==> stateOut[j] == FinalAt(p, j)
  }

  /** The reference state at flat index j. */
  ghost function FinalAt(p: Problem, j: nat): real
    requires p.Valid() && j < |p.state|
  {
    LineIsInside(j, p.Rows(), p.Dk);
    LineIsInside(Line(j, p.Dk), p.B * p.Hv, p.Dv);
    FinalRow(p, Line(Line(j, p.Dk), p.Dv), Column(Line(j, p.Dk), p.Dv))[Column(j, p.Dk)]
  }

  lemma GroupAdds(
    p: Problem, done: set<nat>, n: nat, dv: nat, y: Vector, stateOut: Vector, y': Vector, stateOut': Vector)
    requires p.Valid() && n < p.B * p.Hv && dv < p.Dv && AreDone(p, done, y, stateOut)
    requires RowIsWritten(p, y', y, Cell(n, p.Dv, dv), p.T)
    requires StoredUpTo(stateOut', stateOut, Cell(Cell(n, p.Dv, dv), p.Dk, 0), FinalRow(p, n, dv), p.Dk)
    ensures AreDone(p, done + {Cell(n, p.Dv, dv)}, y', stateOut')
  {
    var r := Cell(n, p.Dv, dv);
    forall j | 0 <= j < |y'| && OwnerRow(p, j) in done + {r}
      ensures y'[j] == Expected(p, j)
    {
      PlaceIsInside(p, j);
    }
    forall j | 0 <= j < |stateOut'| && Line(j, p.Dk) in done + {r}
      ensures stateOut'[j] == FinalAt(p, j)
    {
      StateIsOwned(p, n, dv, j);
    }
  }

  lemma StateIsOwned(p: Problem, n: nat, dv: nat, j: nat)
    requires p.Valid() && n < p.B * p.Hv && dv < p.Dv && j < |p.state|
    ensures var r := Cell(n, p.Dv, dv);
            var at := Cell(r, p.Dk, 0);
            && (at <= j < at + p.Dk <==> Line(j, p.Dk) == r)
            && (at <= j < at + p.Dk ==> FinalAt(p, j) == FinalRow(p, n, dv)[j - at])
  {
    var r := Cell(n, p.Dv, dv);
    var at := Cell(r, p.Dk, 0);
    LineIsInside(j, p.Rows(), p.Dk);
    SplitIsCell(j, p.Dk);
    if at <= j < at + p.Dk {
      CellSplits(r, p.Dk, j - at);
      CellSplits(n, p.Dv, dv);
    }
  }

  /** One thread group of the launch grid: head `n` of all batches, value lane `dv`. */
  datatype Group = Group(n: nat, dv: nat)

  /** The rows of the groups of a schedule. */
  function RowsOf(p: Problem, schedule: seq<Group>): set<nat> {
    set i | 0 <= i < |schedule| :: Cell(schedule[i].n, p.Dv, schedule[i].dv)
  }

  /** The kernel's results are the reference's: every output at an unmasked token, and the whole final state. */
  ghost predicate IsReference(p: Problem, y: Vector, stateOut: Vector)
    requires p.Valid()
  {
    && |y| == p.B * p.T * p.Hv * p.Dv && |stateOut| == |p.state|
    && (forall b, t, hv, dv | p.HasHead(b, t, hv) && 0 <= dv < p.Dv ::
          && OutputIndex(p, b, t, hv, dv) < |y|
          && y[OutputIndex(p, b, t, hv, dv)] == if p.IsUnmasked(b, t) then p.Output(b, t, hv, dv) else 0.0)
    && forall b, hv, dv, d | 0 <= b < p.B && 0 <= hv < p.Hv && 0 <= dv < p.Dv && 0 <= d < p.Dk ::
         && Cell(p.StateLine(b, hv, dv), p.Dk, d) < |stateOut|
         && stateOut[Cell(p.StateLine(b, hv, dv), p.Dk, d)] == p.StateAfter(b, hv, dv, p.T)[d]
  }

  ghost predicate Covers(p: Problem, schedule: seq<Group>) {
    && (forall i :: 0 <= i < |schedule| ==> schedule[i].n < p.B * p.Hv && schedule[i].dv < p.Dv)
    && forall n, dv :: 0 <= n < p.B * p.Hv && 0 <= dv < p.Dv ==> Group(n, dv) in schedule
  }

  lemma CoveredRow(p: Problem, schedule: seq<Group>, b: nat, hv: nat, dv: nat)
    requires Covers(p, schedule) && b < p.B && hv < p.Hv && dv < p.Dv
    ensures p.StateLine(b, hv, dv) in RowsOf(p, schedule)
  {
    CellIsInside(b, p.B, p.Hv, hv);
    var group := Group(Cell(b, p.Hv, hv), dv);
    assert group in schedule;
    var i :| 0 <= i < |schedule| && schedule[i] == group;
    assert Cell(schedule[i].n, p.Dv, schedule[i].dv) == p.StateLine(b, hv, dv);
  }

  lemma OutputIsDone(
    p: Problem, schedule: seq<Group>, y: Vector, stateOut: Vector, b: nat, t: nat, hv: nat, dv: nat)
    requires p.Valid() && Covers(p, schedule) && AreDone(p, RowsOf(p, schedule), y, stateOut)
    requires p.HasHead(b, t, hv) && dv < p.Dv
    ensures OutputIndex(p, b, t, hv, dv) < |y|
    ensures y[OutputIndex(p, b, t, hv, dv)] == if p.IsUnmasked(b, t) then p.Output(b, t, hv, dv) else 0.0
  {
    CoveredRow(p, schedule, b, hv, dv);
    ExpectedAt(p, b, t, hv, dv);
    OutputIsOwned(p, b, t, hv, dv, OutputIndex(p, b, t, hv, dv));
  }

  lemma StateIsDone(
    p: Problem, schedule: seq<Group>, y: Vector, stateOut: Vector, b: nat, hv: nat, dv: nat, d: nat)
    requires p.Valid() && Covers(p, schedule) && AreDone(p, RowsOf(p, schedule), y, stateOut)
    requires b < p.B && hv < p.Hv && dv < p.Dv && d < p.Dk
    ensures Cell(p.StateLine(b, hv, dv), p.Dk, d) < |stateOut|
    ensures stateOut[Cell(p.StateLine(b, hv, dv), p.Dk, d)] == p.StateAfter(b, hv, dv, p.T)[d]
  {
    CoveredRow(p, schedule, b, hv, dv);
    p.StateLineIsInside(b, hv, dv);
    CellIsInside(p.StateLine(b, hv, dv), p.Rows(), p.Dk, d);
    CellSplits(p.StateLine(b, hv, dv), p.Dk, d);
    CellSplits(Cell(b, p.Hv, hv), p.Dv, dv);
    CellSplits(b, p.Hv, hv);
  }

  lemma AllDoneIsReference(p: Problem, schedule: seq<Group>, y: Vector, stateOut: Vector)
    requires p.Valid() && Covers(p, schedule) && AreDone(p, RowsOf(p, schedule), y, stateOut)
    ensures IsReference(p, y, stateOut)
  {
    forall b, t, hv, dv | p.HasHead(b, t, hv) && 0 <= dv < p.Dv
      ensures OutputIndex(p, b, t, hv, dv) < |y|
      ensures y[OutputIndex(p, b, t, hv, dv)] == if p.IsUnmasked(b, t) then p.Output(b, t, hv, dv) else 0.0
    {
      OutputIsDone(p, schedule, y, stateOut, b, t, hv, dv);
    }
    forall b, hv, dv, d | 0 <= b < p.B && 0 <= hv < p.Hv && 0 <= dv < p.Dv && 0 <= d < p.Dk
      ensures Cell(p.StateLine(b, hv, dv), p.Dk, d) < |stateOut|
      ensures stateOut[Cell(p.StateLine(b, hv, dv), p.Dk, d)] == p.StateAfter(b, hv, dv, p.T)[d]
    {
      StateIsDone(p, schedule, y, stateOut, b, hv, dv, d);
    }
  }

  /** The launch: the thread groups in any order compute the sequential reference. */
  method Launch(p: Problem, schedule: seq<Group>) returns (y: array<real>, stateOut: array<real>)
    requires p.Valid() && p.Dk % LANES == 0 && Covers(p, schedule)
    ensures IsReference(p, y[..], stateOut[..])
  {
    y := new real[p.B * p.T * p.Hv * p.Dv];
    stateOut := new real[|p.state|];
    for i := 0 to |schedule|
      invariant AreDone(p, RowsOf(p, schedule[..i]), y[..], stateOut[..])
    {
      ghost var y0, stateOut0 := y[..], stateOut[..];
      ThreadGroup(p, schedule[i].n, schedule[i].dv, y, stateOut);
      GroupAdds(p, RowsOf(p, schedule[..i]), schedule[i].n, schedule[i].dv, y0, stateOut0, y[..], stateOut[..]);
      ScheduleAdds(p, schedule, i);
    }
    assert schedule[..|schedule|] == schedule;
    AllDoneIsReference(p, schedule, y[..], stateOut[..]);
  }

  lemma ScheduleAdds(p: Problem, schedule: seq<Group>, i: nat)
    requires i < |schedule|
    ensures RowsOf(p, schedule[..i + 1]) == RowsOf(p, schedule[..i]) + {Cell(schedule[i].n, p.Dv, schedule[i].dv)}
  {
    var after, before := schedule[..i + 1], schedule[..i];
    forall r | r in RowsOf(p, before)
      ensures r in RowsOf(p, after)
    {
      var k :| 0 <= k < |before| && r == Cell(before[k].n, p.Dv, before[k].dv);
      assert after[k] == before[k];
    }
    assert after[i] == schedule[i];
    forall r | r in RowsOf(p, after)
      ensures r in RowsOf(p, before) + {Cell(schedule[i].n, p.Dv, schedule[i].dv)}
    {
      var k :| 0 <= k < |after| && r == Cell(after[k].n, p.Dv, after[k].dv);
      if k < i {
        assert before[k] == after[k];
      }
    }
  }
}
