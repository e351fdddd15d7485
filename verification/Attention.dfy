/** Attention over resident ring programs: keys as rows of one product, values as columns of another. */
module Attention {
  import opened AttentionRing
  import opened Grids
  import opened MutableGemm
  import opened Projection
  import opened TileGemm
  import opened Vectors
  import opened WeightPacking
  import opened Words

  /** The two blobs agree with the history: the packed blobs are the ring matrices. */
  ghost predicate Agrees(h: History, scoreBlob: Blob, scoreRows: nat, valueBlob: Blob)
    requires |scoreBlob| == |valueBlob| == NARROW.size
  {
    && h.Valid() && h.context <= scoreRows <= COMPLETION_ROW
    && IsClean(scoreBlob, scoreRows) && IsClean(valueBlob, DIMENSION)
    && h.HoldsKeys(Logical(scoreBlob)) && h.HoldsValues(Logical(valueBlob))
  }

  lemma StartAgrees(context: nat, scoreBlob: Blob, scoreRows: nat, valueBlob: Blob)
    requires |scoreBlob| == |valueBlob| == NARROW.size
    requires 1 <= context <= scoreRows <= COMPLETION_ROW
    requires forall k :: 0 <= k < NARROW.size ==> scoreBlob[k] == 0.0 && valueBlob[k] == 0.0
    ensures Agrees(History(context, 0, [], []), scoreBlob, scoreRows, valueBlob)
  {
    forall e, s | 0 <= e < DIMENSION && 0 <= s < DIMENSION
      ensures Logical(valueBlob)[e][s] == 0.0
    {
      ElementPlace(e, s);
    }
  }

  lemma KeysAreAppended(h: History, m: Matrix<real>, key: Vector, value: Vector)
    requires h.Valid() && IsMatrix(m, ROWS, DIMENSION) && h.context <= ROWS && h.HoldsKeys(m)
    requires |key| == DIMENSION && |value| == DIMENSION
    ensures var next := h.Appended(key, value);
            next.Valid() && next.HoldsKeys(m[h.cursor := key])
  {
    var next := h.Appended(key, value);
    h.AppendedIsValid(key, value);
    forall s | 0 <= s < next.Length()
      ensures m[h.cursor := key][s] == next.keys[next.Token(s)]
    {
      h.AppendedTokens(key, value, s);
    }
  }

  lemma ValuesAreAppended(h: History, m: Matrix<real>, key: Vector, value: Vector)
    requires h.Valid() && IsMatrix(m, ROWS, DIMENSION) && h.HoldsValues(m) && h.cursor < DIMENSION
    requires |key| == DIMENSION && |value| == DIMENSION
    ensures var next := h.Appended(key, value);
            next.Valid() && next.HoldsValues(WithColumn(m, h.cursor, value))
  {
    var next, after := h.Appended(key, value), WithColumn(m, h.cursor, value);
    h.AppendedIsValid(key, value);
    forall e, s | 0 <= e < DIMENSION && 0 <= s < DIMENSION
      ensures after[e][s] == if s < next.Length() then next.values[next.Token(s)][e] else 0.0
    {
      assert m[e][s] == if s < h.Length() then h.values[h.Token(s)][e] else 0.0;
      if s < next.Length() {
        h.AppendedTokens(key, value, s);
      }
    }
  }

  /** Writing a token's key row and value column makes the blobs agree with the longer history. */
  lemma BlobsAppend(
    h: History, scoreBlob: Blob, scoreBlob': Blob, rows: nat, valueBlob: Blob, valueBlob': Blob, key: Vector,
    value: Vector)
    requires |scoreBlob| == |valueBlob| == NARROW.size && Agrees(h, scoreBlob, rows, valueBlob)
    requires |key| == DIMENSION && |value| == DIMENSION && h.cursor < DIMENSION
    requires RowIsWritten(scoreBlob, scoreBlob', h.cursor, key, COLUMNS)
    requires ColumnIsWritten(valueBlob, valueBlob', h.cursor, value, DIMENSION)
    ensures Agrees(h.Appended(key, value), scoreBlob', rows, valueBlob')
  {
    RowOfWritten(scoreBlob, scoreBlob', h.cursor, key);
    RowKeepsClean(scoreBlob, scoreBlob', h.cursor, key, rows);
    ColumnOfWritten(valueBlob, valueBlob', h.cursor, value);
    ColumnKeepsClean(valueBlob, valueBlob', h.cursor, value, DIMENSION);
    KeysAreAppended(h, Logical(scoreBlob), key, value);
    ValuesAreAppended(h, Logical(valueBlob), key, value);
  }

  /** A key row written for a token whose value is then refused lies outside the slots in use. */
  lemma RefusedRowIsUnused(h: History, scoreBlob: Blob, scoreBlob': Blob, rows: nat, valueBlob: Blob, key: Vector)
    requires |scoreBlob| == |valueBlob| == NARROW.size && Agrees(h, scoreBlob, rows, valueBlob)
    requires |key| == DIMENSION && DIMENSION <= h.cursor
    requires RowIsWritten(scoreBlob, scoreBlob', h.cursor, key, COLUMNS)
    ensures Agrees(h, scoreBlob', rows, valueBlob)
  {
    RowOfWritten(scoreBlob, scoreBlob', h.cursor, key);
    RowKeepsClean(scoreBlob, scoreBlob', h.cursor, key, rows);
  }

  class AttentionGemmState {
    const scoreProgram: MutableGemm
    const valueProgram: MutableGemm
    const context: nat
    var cursor: nat
    var length: nat
    ghost var history: History

    ghost predicate ProgramsFit() {
      && scoreProgram.Valid() && valueProgram.Valid()
      && scoreProgram.weights != valueProgram.weights
      && scoreProgram.sourceValues != valueProgram.weights && scoreProgram.weights != valueProgram.sourceValues
      && context <= scoreProgram.outputRows && valueProgram.outputRows == DIMENSION
    }

    ghost predicate Valid()
      reads this, scoreProgram.weights, valueProgram.weights
    {
      && ProgramsFit()
      && history.context == context && history.cursor == cursor && history.Valid() && history.Length() == length
      && Agrees(history, scoreProgram.weights[..], scoreProgram.outputRows, valueProgram.weights[..])
    }

    /** Two programs still at their zero start, with distinct buffers. */
    constructor (scoreProgram: MutableGemm, valueProgram: MutableGemm, context: nat)
      requires 1 <= context <= scoreProgram.outputRows && valueProgram.outputRows == DIMENSION
      requires scoreProgram.Valid() && valueProgram.Valid()
      requires scoreProgram.weights != valueProgram.weights
      requires scoreProgram.sourceValues != valueProgram.weights && scoreProgram.weights != valueProgram.sourceValues
      requires forall k :: 0 <= k < NARROW.size ==> scoreProgram.weights[k] == 0.0 && valueProgram.weights[k] == 0.0
      ensures Valid() && history == History(context, 0, [], [])
      ensures this.scoreProgram == scoreProgram && this.valueProgram == valueProgram && this.context == context
    {
      this.scoreProgram, this.valueProgram, this.context := scoreProgram, valueProgram, context;
      cursor, length := 0, 0;
      history := History(context, 0, [], []);
      new;
      StartAgrees(context, scoreProgram.weights[..], scoreProgram.outputRows, valueProgram.weights[..]);
    }

    /** Appends a token: its key row and value column go to the cursor's slot. Past the value program's 256
        columns the token is refused, and the state keeps its tokens. */
    method Append(key: Vector, value: Vector) returns (r: Result<()>)
      requires Valid()
      modifies this, scoreProgram.weights, valueProgram.weights
      ensures Valid()
      ensures if |key| == DIMENSION && |value| == DIMENSION && old(cursor) < DIMENSION
              then r == Ok(()) && history == old(history).Appended(key, value)
              else r == Err(ValueError) && history == old(history)
    {
      if |key| != DIMENSION || |value| != DIMENSION {
        return Err(ValueError);
      }
      ghost var scoreBlob, valueBlob := scoreProgram.weights[..], valueProgram.weights[..];
      var row := scoreProgram.WriteRow(cursor, key);
      var column := valueProgram.WriteColumn(cursor, value);
      if column.Err? {
        RefusedRowIsUnused(
          history, scoreBlob, scoreProgram.weights[..], scoreProgram.outputRows, valueBlob, key);
        return column;
      }
      BlobsAppend(
        history, scoreBlob, scoreProgram.weights[..], scoreProgram.outputRows,
        valueBlob, valueProgram.weights[..], key, value);
      Advance(key, value);
      return Ok(());
    }

    /** Any run of shaped tokens: each one is offered to the history in turn. */
    method AppendAll(tokens: seq<KeyValue>)
      requires Valid() && forall i :: 0 <= i < |tokens| ==> tokens[i].IsShaped()
      modifies this, scoreProgram.weights, valueProgram.weights
      ensures Valid() && history == OfferAll(old(history), tokens)
    {
      for i := 0 to |tokens|
        invariant Valid() && history == OfferAll(old(history), tokens[..i])
      {
        assert tokens[..i + 1][..i] == tokens[..i];
        var r := Append(tokens[i].key, tokens[i].value);
      }
      assert tokens[..|tokens|] == tokens;
    }

    method Advance(ghost key: Vector, ghost value: Vector)
      requires history.Valid() && history.context == context && history.cursor == cursor && history.Length() == length
      requires |key| == DIMENSION && |value| == DIMENSION
      modifies this
      ensures history == old(history).Appended(key, value)
      ensures history.cursor == cursor && history.Length() == length
    {
      WrapsOnce(cursor + 1, context);
      history := history.Appended(key, value);
      cursor := (cursor + 1) % context;
      length := if length + 1 < context then length + 1 else context;
    }

    /** Both descriptors make the engine multiply. */
    ghost predicate EnginesMultiply() {
      && Multiplies(scoreProgram.engine, NARROW, scoreProgram.descriptor)
      && Multiplies(valueProgram.engine, NARROW, valueProgram.descriptor)
    }

    /** The scores of the slots: run the key rows, then mask the slots not in use. */
    method Scores(query: Vector) returns (r: Result<Vector>)
      requires Valid() && EnginesMultiply()
      modifies scoreProgram.sourceValues
      ensures if |query| == DIMENSION then r == Ok(history.Scores(query)) else r == Err(ValueError)
    {
      var run := scoreProgram.Run(query);
      if run.Err? {
        return run;
      }
      var scores := run.value[..context];
      scoreProgram.RunMultiplies(scoreProgram.weights[..], query);
      if length < context {
        scores := scores[..length] + seq(context - length, _ => FLOAT16_MIN);
      }
      ScoresAreHistory(query, scores);
      return Ok(scores);
    }

    lemma ScoresAreHistory(query: Vector, scores: Vector)
      requires Valid() && |query| == DIMENSION && |scores| == context
      requires forall s :: 0 <= s < length ==> scores[s] == Dot(Logical(scoreProgram.weights[..])[s], query, COLUMNS)
      requires forall s :: length <= s < context ==> scores[s] == FLOAT16_MIN
      ensures scores == history.Scores(query)
    {
      forall s | 0 <= s < context
        ensures scores[s] == history.Scores(query)[s]
      {
      }
    }

    /** The weighted sum of the values, for one probability a slot. */
    method Attend(probabilities: Vector) returns (r: Result<Vector>)
      requires Valid() && EnginesMultiply()
      modifies valueProgram.sourceValues
      ensures if |probabilities| != context || context > DIMENSION then r == Err(ValueError)
              else r.Ok? && |r.value| == DIMENSION
                   && forall e :: 0 <= e < DIMENSION ==> r.value[e] == history.Attended(probabilities, e)
    {
      if |probabilities| != context || context > DIMENSION {
        return Err(ValueError);
      }
      var activation := probabilities + seq(DIMENSION - context, _ => 0.0);
      r := valueProgram.Run(activation);
      valueProgram.RunMultiplies(valueProgram.weights[..], activation);
      forall e | 0 <= e < DIMENSION
        ensures r.value[e] == history.Attended(probabilities, e)
      {
        RowSum(history, Logical(valueProgram.weights[..]), probabilities, activation, e, DIMENSION);
        history.SlotSumIsAttended(probabilities, e);
      }
    }
  }
}
