/** Full attention of one token: two key-value rings, eight query heads, scores through the softmax. */
module TokenAttention {
  import opened Attention
  import opened AttentionRing
  import opened ElementwiseMath
  import opened MutableGemm
  import opened Softmax
  import opened Vectors
  import opened WeightPacking
  import opened Words

  const CONTEXT: nat := 128
  const QUERY_HEADS: nat := 8
  const KV_HEADS: nat := 2
  const QUERY_GROUP_SIZE: nat := 4
  const ATTENTION_SCALE := 1.0 / 16.0

  function ScaledScore(h: History, query: Vector, s: nat): real
    requires h.Valid() && s < h.context && |query| == DIMENSION
  {
    Times(h.Score(query, s), ATTENTION_SCALE)
  }

  function ScaledScores(h: History, query: Vector): (scores: Vector)
    requires h.Valid() && |query| == DIMENSION
    ensures |scores| == h.context
  {
    seq(h.context, s requires 0 <= s < h.context => ScaledScore(h, query, s))
  }

  // What the ring computes, in terms of tokens alone

  /** The unnormalised weight of a remembered token: its own key against the query. */
  function TokenWeight(h: History, query: Vector, maximum: real, t: nat): real
    requires h.Valid() && t < |h.keys| && |query| == DIMENSION
  {
    Weight(Times(Dot(h.keys[t], query, DIMENSION), ATTENTION_SCALE), maximum)
  }

  /** A token's score is a sixteenth of the dot product. */
  lemma TokenWeightIs(h: History, query: Vector, maximum: real, t: nat)
    requires h.Valid() && t < |h.keys| && |query| == DIMENSION
    ensures TokenWeight(h, query, maximum, t) == Weight(Dot(h.keys[t], query, 256) / 16.0, maximum)
  {
  }

  /** The weights of the last Length() tokens in arrival order. */
  function TokenWeights(h: History, query: Vector, maximum: real): (weights: Vector)
    requires h.Valid() && |query| == DIMENSION
    ensures |weights| == h.Length()
  {
    var first := |h.keys| - h.Length();
    seq(h.Length(), i requires 0 <= i < h.Length() => TokenWeight(h, query, maximum, first + i))
  }

  /** Element e of the weighted values of the last Length() tokens in arrival order. */
  function TokenTerms(h: History, query: Vector, maximum: real, factor: real, e: nat): (terms: Vector)
    requires h.Valid() && |query| == DIMENSION && e < DIMENSION
    ensures |terms| == h.Length()
  {
    var first := |h.keys| - h.Length();
    seq(h.Length(), i requires 0 <= i < h.Length() =>
      Times(h.values[first + i][e], Times(TokenWeight(h, query, maximum, first + i), factor)))
  }

  /** The weight that every slot not in use still takes in the total. */
  function MaskedWeight(maximum: real): real {
    Weight(Times(FLOAT16_MIN, ATTENTION_SCALE), maximum)
  }

  /** A remembered token's slot carries the token's own weight. */
  lemma SlotWeight(h: History, query: Vector, maximum: real, t: nat)
    requires h.Valid() && |query| == DIMENSION && |h.keys| - h.Length() <= t < |h.keys|
    ensures Weights(ScaledScores(h, query), maximum)[h.SlotOf(t)] == TokenWeight(h, query, maximum, t)
  {
    var s := h.SlotOf(t);
    h.TokenScore(query, t);
    assert ScaledScores(h, query)[s] == ScaledScore(h, query, s);
  }

  /** The softmax total in terms of tokens: their weights in arrival order, and one masked weight for each slot
      not in use. */
  function TokenTotal(h: History, query: Vector, maximum: real): real
    requires h.Valid() && |query| == DIMENSION
  {
    Sum(TokenWeights(h, query, maximum), h.Length()) + Times((CONTEXT - h.Length()) as real, MaskedWeight(maximum))
  }

  /** The factor all weights are normalised by. */
  function TokenFactor(h: History, query: Vector, maximum: real): real
    requires h.Valid() && |query| == DIMENSION
  {
    ReciprocalOf(TokenTotal(h, query, maximum))
  }

  /** The attended element in terms of tokens. */
  function CausalElement(h: History, query: Vector, maximum: real, e: nat): real
    requires h.Valid() && |query| == DIMENSION && e < DIMENSION
  {
    Sum(TokenTerms(h, query, maximum, TokenFactor(h, query, maximum), e), h.Length())
  }

  /** The ring's attended element is a sum over tokens, and so is its normaliser: no slot, cursor or wrap is left. */
  lemma AttendedIsCausal(h: History, query: Vector, maximum: real, e: nat)
    requires h.Valid() && h.context == CONTEXT && |query| == DIMENSION && e < DIMENSION
    ensures h.Attended(Probabilities(ScaledScores(h, query), maximum), e) == CausalElement(h, query, maximum, e)
  {
    var scores := ScaledScores(h, query);
    var p, y := Probabilities(scores, maximum), Normalizer(scores, maximum);
    TotalIsCausal(h, query, maximum);
    assert y == TokenFactor(h, query, maximum);
    var left, right := h.ArrivalTerms(p, e), TokenTerms(h, query, maximum, y, e);
    var first := |h.keys| - h.Length();
    forall i | 0 <= i < h.Length()
      ensures left[i] == right[i]
    {
      SlotWeight(h, query, maximum, first + i);
      assert p[h.SlotOf(first + i)] == Times(Weights(scores, maximum)[h.SlotOf(first + i)], y);
    }
    assert left == right;
  }

  lemma TotalIsCausal(h: History, query: Vector, maximum: real)
    requires h.Valid() && h.context == CONTEXT && |query| == DIMENSION
    ensures Total(ScaledScores(h, query), maximum) == TokenTotal(h, query, maximum)
  {
    var weights := Weights(ScaledScores(h, query), maximum);
    MaskedWeights(h, query, maximum);
    TailIsConstant(weights, h.Length(), MaskedWeight(maximum), CONTEXT);
    UsedWeights(h, query, maximum);
  }

  /** The total is the tokens' own sum, as in the reference, if and only if the ring is full. */
  lemma TotalIsTokensIff(h: History, query: Vector)
    requires h.Valid() && h.context == CONTEXT && |query| == DIMENSION
    ensures var maximum := Largest(ScaledScores(h, query), CONTEXT);
            Total(ScaledScores(h, query), maximum) == Sum(TokenWeights(h, query, maximum), h.Length()) <==>
            h.Length() == CONTEXT
  {
    var scores := ScaledScores(h, query);
    var maximum := Largest(scores, CONTEXT);
    TotalIsCausal(h, query, maximum);
    if h.Length() < CONTEXT {
      assert scores[h.Length()] == Times(FLOAT16_MIN, ATTENTION_SCALE);
      WeightIsBounded(scores[h.Length()], maximum);
      TimesIsPositive((CONTEXT - h.Length()) as real, MaskedWeight(maximum));
    }
  }

  /** Element e of the remembered values, each times its token's unnormalised weight, in arrival order. */
  function WeightedValues(h: History, query: Vector, maximum: real, e: nat): (terms: Vector)
    requires h.Valid() && |query| == DIMENSION && e < DIMENSION
    ensures |terms| == h.Length()
  {
    var first := |h.keys| - h.Length();
    seq(h.Length(), i requires 0 <= i < h.Length() =>
      Times(h.values[first + i][e], TokenWeight(h, query, maximum, first + i)))
  }

  /** Against the reference's quotient: the attended element times the total is the weighted sum of the values,
      short of it by one part in 2^32 at most. */
  lemma AttendedIsQuotient(h: History, query: Vector, e: nat)
    requires h.Valid() && h.context == CONTEXT && |query| == DIMENSION && e < DIMENSION
    ensures var maximum := Largest(ScaledScores(h, query), CONTEXT);
            var total := TokenTotal(h, query, maximum);
            && 1.0 <= total && 0.0 <= Shortfall(total) <= TWO_TO_MINUS_32
            && Times(CausalElement(h, query, maximum, e), total) ==
               Times(Sum(WeightedValues(h, query, maximum, e), h.Length()), 1.0 - Shortfall(total))
  {
    var maximum := Largest(ScaledScores(h, query), CONTEXT);
    FactorIsReciprocal(h, query, maximum);
    var total, y := TokenTotal(h, query, maximum), TokenFactor(h, query, maximum);
    ElementTimes(h, query, maximum, e, total, y);
  }

  /** The factor is the total's reciprocal but for what the iteration leaves. */
  lemma FactorIsReciprocal(h: History, query: Vector, maximum: real)
    requires h.Valid() && h.context == CONTEXT && |query| == DIMENSION
    requires maximum == Largest(ScaledScores(h, query), CONTEXT)
    ensures var total, y := TokenTotal(h, query, maximum), TokenFactor(h, query, maximum);
            && 1.0 <= total && 0.0 <= Shortfall(total) <= TWO_TO_MINUS_32 && Times(total, y) == 1.0 - Shortfall(total)
  {
    TotalIsCausal(h, query, maximum);
    WeightsAreBounded(ScaledScores(h, query), maximum);
    ReciprocalFallsShort(TokenTotal(h, query, maximum));
  }

  lemma ElementTimes(h: History, query: Vector, maximum: real, e: nat, total: real, y: real)
    requires h.Valid() && |query| == DIMENSION && e < DIMENSION && y == TokenFactor(h, query, maximum)
    ensures Times(CausalElement(h, query, maximum, e), total) ==
            Times(Sum(WeightedValues(h, query, maximum, e), h.Length()), Times(total, y))
  {
    var weighted := WeightedValues(h, query, maximum, e);
    TermsAreScaled(h, query, maximum, y, e);
    SumOfScaled(weighted, y, h.Length());
    TimesAssociates(Sum(weighted, h.Length()), y, total);
    TimesCommutes(y, total);
  }

  lemma TermsAreScaled(h: History, query: Vector, maximum: real, factor: real, e: nat)
    requires h.Valid() && |query| == DIMENSION && e < DIMENSION
    ensures TokenTerms(h, query, maximum, factor, e) == Scaled(WeightedValues(h, query, maximum, e), factor)
  {
    var first := |h.keys| - h.Length();
    var terms, scaled := TokenTerms(h, query, maximum, factor, e), Scaled(WeightedValues(h, query, maximum, e), factor);
    forall i | 0 <= i < h.Length()
      ensures terms[i] == scaled[i]
    {
      TimesAssociates(h.values[first + i][e], TokenWeight(h, query, maximum, first + i), factor);
    }
  }

  lemma MaskedWeights(h: History, query: Vector, maximum: real)
    requires h.Valid() && |query| == DIMENSION
    ensures forall s :: h.Length() <= s < h.context ==>
              Weights(ScaledScores(h, query), maximum)[s] == MaskedWeight(maximum)
  {
  }

  lemma UsedWeights(h: History, query: Vector, maximum: real)
    requires h.Valid() && h.context == CONTEXT && |query| == DIMENSION
    ensures Sum(Weights(ScaledScores(h, query), maximum), h.Length()) ==
            Sum(TokenWeights(h, query, maximum), h.Length())
  {
    var weights := Weights(ScaledScores(h, query), maximum);
    var used := weights[..h.Length()];
    SumOfPrefix(weights, used, h.Length());
    WeightsRotate(h, query, maximum);
    if h.cursor != |h.keys| {
      SumRotates(used, h.cursor);
    }
  }

  lemma WeightsRotate(h: History, query: Vector, maximum: real)
    requires h.Valid() && h.context == CONTEXT && |query| == DIMENSION
    ensures h.cursor <= h.Length()
    ensures var used := Weights(ScaledScores(h, query), maximum)[..h.Length()];
            TokenWeights(h, query, maximum) ==
            if h.cursor == |h.keys| then used else used[h.cursor..] + used[..h.cursor]
  {
    var used, arrival := Weights(ScaledScores(h, query), maximum)[..h.Length()], TokenWeights(h, query, maximum);
    var first := |h.keys| - h.Length();
    forall i | 0 <= i < h.Length()
      ensures arrival[i] == used[h.SlotOf(first + i)]
    {
      SlotWeight(h, query, maximum, first + i);
    }
  }

  lemma {:induction false} TailIsConstant(terms: Vector, n: nat, value: real, m: nat)
    requires n <= m <= |terms| && forall i :: n <= i < m ==> terms[i] == value
    ensures Sum(terms, m) == Sum(terms, n) + Times((m - n) as real, value)
    decreases m
  {
    if n < m {
      TailIsConstant(terms, n, value, m - 1);
      assert (m - n) as real * value == (m - 1 - n) as real * value + value;
    }
  }

  // One token through the rings

  method ScaleScores(scores: Vector) returns (scaled: Vector)
    requires |scores| == CONTEXT
    ensures |scaled| == CONTEXT
    ensures forall s :: 0 <= s < CONTEXT ==> scaled[s] == Times(scores[s], ATTENTION_SCALE)
  {
    var front: Vector := Run(Mul, scores[..LANES], Const(ATTENTION_SCALE));
    var back: Vector := Run(Mul, scores[LANES..], Const(ATTENTION_SCALE));
    scaled := front + back;
  }

  /** A query head's attended vector is the causal sum of the history's tokens under the softmax of their scores. */
  ghost predicate IsAttended(h: History, query: Vector, attended: Vector)
    requires h.Valid() && h.context == CONTEXT && |query| == DIMENSION
  {
    var scores := ScaledScores(h, query);
    var maximum := Largest(scores, CONTEXT);
    && |attended| == DIMENSION
    && forall e :: 0 <= e < DIMENSION ==> attended[e] == CausalElement(h, query, maximum, e)
  }

  method AttendHead(state: AttentionGemmState, query: Vector) returns (attended: Vector)
    requires state.Valid() && state.EnginesMultiply() && state.context == CONTEXT && |query| == DIMENSION
    modifies state.scoreProgram.sourceValues, state.valueProgram.sourceValues
    ensures IsAttended(state.history, query, attended)
  {
    var scores := state.Scores(query);
    var scaled := ScaleScores(scores.value);
    assert scaled == ScaledScores(state.history, query);
    var p := Submissions(scaled);
    var r := state.Attend(p);
    attended := r.value;
    ghost var maximum := Largest(scaled, CONTEXT);
    forall e | 0 <= e < DIMENSION
      ensures attended[e] == CausalElement(state.history, query, maximum, e)
    {
      AttendedIsCausal(state.history, query, maximum, e);
    }
  }

  /** Everything one key-value head's state may write. */
  ghost function Parts(state: AttentionGemmState): set<object> {
    {state, state.scoreProgram.weights, state.scoreProgram.sourceValues,
     state.valueProgram.weights, state.valueProgram.sourceValues}
  }

  /** Both key-value heads are ready and share nothing. */
  ghost predicate AreReady(first: AttentionGemmState, second: AttentionGemmState)
    reads first, first.scoreProgram.weights, first.valueProgram.weights
    reads second, second.scoreProgram.weights, second.valueProgram.weights
  {
    && IsReady(first) && IsReady(second) && Parts(first) !! Parts(second)
  }

  ghost predicate IsReady(state: AttentionGemmState)
    reads state, state.scoreProgram.weights, state.valueProgram.weights
  {
    state.Valid() && state.EnginesMultiply() && state.context == CONTEXT
  }

  method AppendToHead(state: AttentionGemmState, key: Vector, value: Vector)
    requires IsReady(state) && |key| == DIMENSION && |value| == DIMENSION
    modifies state, state.scoreProgram.weights, state.valueProgram.weights
    ensures IsReady(state) && state.history == old(state.history).Appended(key, value)
  {
    var r := state.Append(key, value);
  }

  predicate IsShaped(heads: seq<Vector>, count: nat) {
    |heads| == count && forall i :: 0 <= i < count ==> |heads[i]| == DIMENSION
  }

  /** The key-value head of a query head. */
  function KvHead<T>(first: T, second: T, head: nat): T {
    if head / QUERY_GROUP_SIZE == 0 then first else second
  }

  method AppendBoth(
    first: AttentionGemmState, second: AttentionGemmState, key: seq<Vector>, value: seq<Vector>)
    requires AreReady(first, second) && IsShaped(key, KV_HEADS) && IsShaped(value, KV_HEADS)
    modifies Parts(first), Parts(second)
    ensures AreReady(first, second)
    ensures first.history == old(first.history).Appended(key[0], value[0])
    ensures second.history == old(second.history).Appended(key[1], value[1])
  {
    AppendToHead(first, key[0], value[0]);
    AppendToHead(second, key[1], value[1]);
  }

  /** Query head h of the results belongs to the history of key-value head h // 4. */
  ghost predicate HeadsAreAttended(
    first: History, second: History, query: seq<Vector>, attended: seq<Vector>, n: nat)
  {
    && first.Valid() && second.Valid() && first.context == second.context == CONTEXT
    && n <= |query| && n <= |attended|
    && forall h {:trigger attended[h]} :: 0 <= h < n ==>
         |query[h]| == DIMENSION && IsAttended(KvHead(first, second, h), query[h], attended[h])
  }

  method AttendOne(first: AttentionGemmState, second: AttentionGemmState, head: nat, query: Vector)
    returns (attended: Vector)
    requires AreReady(first, second) && |query| == DIMENSION
    modifies first.scoreProgram.sourceValues, first.valueProgram.sourceValues
    modifies second.scoreProgram.sourceValues, second.valueProgram.sourceValues
    ensures AreReady(first, second) && first.history == old(first.history) && second.history == old(second.history)
    ensures IsAttended(KvHead(first.history, second.history, head), query, attended)
  {
    if head / QUERY_GROUP_SIZE == 0 {
      attended := AttendHead(first, query);
    } else {
      attended := AttendHead(second, query);
    }
  }

  method AttendAll(first: AttentionGemmState, second: AttentionGemmState, query: seq<Vector>)
    returns (attended: seq<Vector>)
    requires AreReady(first, second) && IsShaped(query, QUERY_HEADS)
    modifies first.scoreProgram.sourceValues, first.valueProgram.sourceValues
    modifies second.scoreProgram.sourceValues, second.valueProgram.sourceValues
    ensures AreReady(first, second) && first.history == old(first.history) && second.history == old(second.history)
    ensures |attended| == QUERY_HEADS
    ensures HeadsAreAttended(first.history, second.history, query, attended, QUERY_HEADS)
  {
    ghost var firstHistory, secondHistory := first.history, second.history;
    attended := [];
    for h := 0 to QUERY_HEADS
      invariant AreReady(first, second) && first.history == firstHistory && second.history == secondHistory
      invariant |attended| == h && HeadsAreAttended(firstHistory, secondHistory, query, attended, h)
    {
      var row := AttendOne(first, second, h, query[h]);
      OneMoreHead(firstHistory, secondHistory, query, attended, row);
      attended := attended + [row];
    }
  }

  lemma OneMoreHead(first: History, second: History, query: seq<Vector>, attended: seq<Vector>, row: Vector)
    requires |attended| < |query| && HeadsAreAttended(first, second, query, attended, |attended|)
    requires |query[|attended|]| == DIMENSION
    requires IsAttended(KvHead(first, second, |attended|), query[|attended|], row)
    ensures HeadsAreAttended(first, second, query, attended + [row], |attended| + 1)
  {
    var all := attended + [row];
    forall h | 0 <= h < |all|
      ensures |query[h]| == DIMENSION && IsAttended(KvHead(first, second, h), query[h], all[h])
    {
      if h < |attended| {
        assert all[h] == attended[h];
      }
    }
  }

  /** Query heads [low, high) attend over this history. */
  ghost predicate AreAttended(history: History, query: seq<Vector>, attended: seq<Vector>, low: nat, high: nat) {
    && history.Valid() && history.context == CONTEXT && high <= |query| && high <= |attended|
    && forall h :: low <= h < high ==>
         |query[h]| == DIMENSION && IsAttended(history, query[h], attended[h])
  }

  /** Heads 0 to 3 belong to the first key-value head, heads 4 to 7 to the second. */
  lemma HeadsByRing(first: History, second: History, query: seq<Vector>, attended: seq<Vector>)
    requires HeadsAreAttended(first, second, query, attended, 8)
    ensures AreAttended(first, query, attended, 0, 4) && AreAttended(second, query, attended, 4, 8)
  {
    forall h | 0 <= h < 8
      ensures |query[h]| == DIMENSION
      ensures h < 4 ==> IsAttended(first, query[h], attended[h])
      ensures 4 <= h ==> IsAttended(second, query[h], attended[h])
    {
      HeadOf(first, second, query, attended, 8, h);
    }
  }

  lemma HeadOf(first: History, second: History, query: seq<Vector>, attended: seq<Vector>, n: nat, h: nat)
    requires HeadsAreAttended(first, second, query, attended, n) && h < n
    ensures |query[h]| == DIMENSION && IsAttended(KvHead(first, second, h), query[h], attended[h])
  {
    assert IsAttended(KvHead(first, second, h), query[h], attended[h]);
  }

  /** One token: every key-value head gets its key and value, then every query head attends over the ring of
      key-value head h // 4; a badly shaped token is refused and remembered nowhere. */
  method FullAttention(
    first: AttentionGemmState, second: AttentionGemmState, query: seq<Vector>, key: seq<Vector>, value: seq<Vector>)
    returns (r: Result<seq<Vector>>)
    requires AreReady(first, second)
    modifies Parts(first), Parts(second)
    ensures AreReady(first, second)
    ensures if IsShaped(query, QUERY_HEADS) && IsShaped(key, KV_HEADS) && IsShaped(value, KV_HEADS)
            then
              && first.history == old(first.history).Appended(key[0], value[0])
              && second.history == old(second.history).Appended(key[1], value[1])
              && r.Ok? && |r.value| == QUERY_HEADS
              && AreAttended(first.history, query, r.value, 0, 4) && AreAttended(second.history, query, r.value, 4, 8)
            else r == Err(ValueError) && first.history == old(first.history) && second.history == old(second.history)
  {
    if !IsShaped(query, QUERY_HEADS) || !IsShaped(key, KV_HEADS) || !IsShaped(value, KV_HEADS) {
      return Err(ValueError);
    }
    AppendBoth(first, second, key, value);
    var attended := AttendAll(first, second, query);
    HeadsByRing(first.history, second.history, query, attended);
    return Ok(attended);
  }
}
