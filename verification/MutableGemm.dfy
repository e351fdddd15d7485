/** A 512x256 product whose packed weights are written in place, row by row and column by column. */
module MutableGemm {
  import opened Projection
  import opened TileGemm
  import opened Vectors
  import opened WeightPacking
  import opened Words

  const COMPLETION_ROW: nat := 511
  const COLUMNS: nat := 256

  type Blob = seq<real>

  /** The element of the logical matrix that a blob holds. */
  function Element(blob: Blob, row: nat, column: nat): real
    requires |blob| == NARROW.size && row < ROWS && column < COLUMNS
  {
    IndexSplits(NARROW, row, column);
    blob[BlobIndex(NARROW, row, column)]
  }

  /** The logical 512x256 matrix of a blob. */
  function Logical(blob: Blob): (m: Matrix<real>)
    requires |blob| == NARROW.size
    ensures IsMatrix(m, ROWS, COLUMNS)
    ensures forall r, c {:trigger m[r][c]} :: 0 <= r < ROWS && 0 <= c < COLUMNS ==> m[r][c] == Element(blob, r, c)
  {
    seq(ROWS, r requires 0 <= r < ROWS => seq(COLUMNS, c requires 0 <= c < COLUMNS => Element(blob, r, c)))
  }

  /** Halfword k of a blob lies in an element's place, and which element's. */
  predicate HoldsElement(k: nat) {
    NARROW.shift <= k % BLOCK < NARROW.shift + COLUMNS * 32
  }

  function RowAt(k: nat): nat
    requires HoldsElement(k)
  {
    k / BLOCK * 32 + (k % BLOCK - NARROW.shift) % 32
  }

  function ColumnAt(k: nat): nat
    requires HoldsElement(k)
  {
    (k % BLOCK - NARROW.shift) / 32
  }

  lemma ElementPlace(row: nat, column: nat)
    requires row < ROWS && column < COLUMNS
    ensures var k := BlobIndex(NARROW, row, column);
            k < NARROW.size && HoldsElement(k) && RowAt(k) == row && ColumnAt(k) == column
  {
    IndexSplits(NARROW, row, column);
  }

  lemma PlaceOfElement(k: nat)
    requires k < NARROW.size && HoldsElement(k)
    ensures RowAt(k) < ROWS && ColumnAt(k) < COLUMNS && BlobIndex(NARROW, RowAt(k), ColumnAt(k)) == k
  {
    var place := k % BLOCK - NARROW.shift;
    assert (k / BLOCK * 32 + place % 32) / 32 == k / BLOCK;
  }

  /** All padding, and every row from `rows` on, is zero. */
  ghost predicate IsClean(blob: Blob, rows: nat)
    requires |blob| == NARROW.size
  {
    forall k {:trigger blob[k]} :: 0 <= k < |blob| && (HoldsElement(k) ==> RowAt(k) >= rows) ==> blob[k] == 0.0
  }

  /** While the padding is zero, the blob is exactly the packed logical matrix. */
  lemma CleanBlobIsPacked(blob: Blob, rows: nat)
    requires |blob| == NARROW.size && IsClean(blob, rows)
    ensures blob == Packed(NARROW, Logical(blob), 0.0)
  {
    var m := Logical(blob);
    var packed := Packed(NARROW, m, 0.0);
    forall k | 0 <= k < NARROW.size
      ensures blob[k] == packed[k]
    {
      if HoldsElement(k) {
        PlaceOfElement(k);
        ElementsAreStored(NARROW, m, 0.0, RowAt(k), ColumnAt(k));
        assert m[RowAt(k)][ColumnAt(k)] == Element(blob, RowAt(k), ColumnAt(k));
      }
    }
  }

  /** Row `row` was overwritten; everything else is untouched. */
  ghost predicate RowIsWritten(before: Blob, after: Blob, row: nat, values: Vector, n: nat) {
    && |before| == |after| == NARROW.size && n <= |values|
    && forall k {:trigger after[k]} :: 0 <= k < |after| ==>
         after[k] ==
         if HoldsElement(k) && RowAt(k) == row && ColumnAt(k) < n then values[ColumnAt(k)] else before[k]
  }

  lemma RowOfWritten(before: Blob, after: Blob, row: nat, values: Vector)
    requires row < ROWS && |values| == COLUMNS && RowIsWritten(before, after, row, values, COLUMNS)
    ensures Logical(after) == Logical(before)[row := values]
  {
    var left, right := Logical(after), Logical(before)[row := values];
    forall r | 0 <= r < ROWS
      ensures left[r] == right[r]
    {
      forall c | 0 <= c < COLUMNS
        ensures left[r][c] == right[r][c]
      {
        ElementPlace(r, c);
        assert left[r][c] == Element(after, r, c);
        assert Logical(before)[r][c] == Element(before, r, c);
      }
    }
  }

  /** Column `column` was overwritten in the first n rows; everything else is untouched. */
  ghost predicate ColumnIsWritten(before: Blob, after: Blob, column: nat, values: Vector, n: nat) {
    && |before| == |after| == NARROW.size && n <= |values|
    && forall k {:trigger after[k]} :: 0 <= k < |after| ==>
         after[k] ==
         if HoldsElement(k) && ColumnAt(k) == column && RowAt(k) < n then values[RowAt(k)] else before[k]
  }

  function WithColumn(m: Matrix<real>, column: nat, values: Vector): (r: Matrix<real>)
    requires IsMatrix(m, ROWS, COLUMNS) && column < COLUMNS && |values| <= ROWS
    ensures IsMatrix(r, ROWS, COLUMNS)
  {
    seq(ROWS, i requires 0 <= i < ROWS => if i < |values| then m[i][column := values[i]] else m[i])
  }

  lemma ColumnOfWritten(before: Blob, after: Blob, column: nat, values: Vector)
    requires column < COLUMNS && |values| <= ROWS && ColumnIsWritten(before, after, column, values, |values|)
    ensures Logical(after) == WithColumn(Logical(before), column, values)
  {
    var left, right := Logical(after), WithColumn(Logical(before), column, values);
    forall r | 0 <= r < ROWS
      ensures left[r] == right[r]
    {
      forall c | 0 <= c < COLUMNS
        ensures left[r][c] == right[r][c]
      {
        ElementPlace(r, c);
        assert left[r][c] == Element(after, r, c);
        assert Logical(before)[r][c] == Element(before, r, c);
      }
    }
  }

  lemma RowKeepsClean(before: Blob, after: Blob, row: nat, values: Vector, rows: nat)
    requires row < rows && RowIsWritten(before, after, row, values, |values|) && IsClean(before, rows)
    ensures IsClean(after, rows)
  {
  }

  lemma ColumnKeepsClean(before: Blob, after: Blob, column: nat, values: Vector, rows: nat)
    requires |values| <= rows && ColumnIsWritten(before, after, column, values, |values|) && IsClean(before, rows)
    ensures IsClean(after, rows)
  {
  }

  lemma RowStep(before: Blob, after: Blob, row: nat, values: Vector, c: nat)
    requires row < ROWS && |values| == COLUMNS && c < COLUMNS && RowIsWritten(before, after, row, values, c)
    ensures var k := BlobIndex(NARROW, row, c);
            k < |after| && RowIsWritten(before, after[k := values[c]], row, values, c + 1)
  {
    ElementPlace(row, c);
    forall k | 0 <= k < |after| && HoldsElement(k) && RowAt(k) == row && ColumnAt(k) == c
      ensures k == BlobIndex(NARROW, row, c)
    {
      PlaceOfElement(k);
    }
  }

  lemma ColumnStep(before: Blob, after: Blob, column: nat, values: Vector, r: nat)
    requires column < COLUMNS && |values| <= ROWS && r < |values| && ColumnIsWritten(before, after, column, values, r)
    ensures var k := BlobIndex(NARROW, r, column);
            k < |after| && ColumnIsWritten(before, after[k := values[r]], column, values, r + 1)
  {
    ElementPlace(r, column);
    forall k | 0 <= k < |after| && HoldsElement(k) && RowAt(k) == r && ColumnAt(k) == column
      ensures k == BlobIndex(NARROW, r, column)
    {
      PlaceOfElement(k);
    }
  }

  /** The part of a descriptor that reaches into the blob is zero. */
  predicate TailIsZero(descriptor: seq<real>) {
    forall k :: NARROW.offset <= k < |descriptor| && k < NARROW.offset + NARROW.size ==> descriptor[k] == 0.0
  }

  /** What a descriptor leaves in the blob's place of a zeroed command. */
  function Tail(descriptor: seq<real>): (blob: Blob)
    ensures |blob| == NARROW.size
  {
    seq(NARROW.size, k requires 0 <= k =>
      if NARROW.offset + k < |descriptor| then descriptor[NARROW.offset + k] else 0.0)
  }

  /** The program starts clean with a zero matrix exactly when the descriptor ends, or is zero, past the start of
      the blob. */
  lemma StartsClean(descriptor: seq<real>, rows: nat)
    ensures (forall k :: 0 <= k < NARROW.size ==> Tail(descriptor)[k] == 0.0) <==> TailIsZero(descriptor)
    ensures TailIsZero(descriptor) ==> IsClean(Tail(descriptor), rows)
  {
    var tail := Tail(descriptor);
    if forall k :: 0 <= k < NARROW.size ==> tail[k] == 0.0 {
      forall k | NARROW.offset <= k < |descriptor| && k < NARROW.offset + NARROW.size
        ensures descriptor[k] == 0.0
      {
        assert tail[k - NARROW.offset] == descriptor[k];
      }
    }
  }

  class MutableGemm {
    const engine: Engine<real>
    const descriptor: seq<real>
    const outputRows: nat
    const weights: array<real>
    const sourceValues: array<real>

    ghost predicate Valid() {
      && 1 <= outputRows <= COMPLETION_ROW
      && weights.Length == NARROW.size && sourceValues.Length == COLUMNS * 32 && weights != sourceValues
      && GivesOutputs(engine)
    }

    /** The blob starts as whatever the descriptor leaves in its place. */
    constructor (engine: Engine<real>, descriptor: seq<real>, outputRows: nat)
      requires 1 <= outputRows <= COMPLETION_ROW && |descriptor| >= TD_SIZE && GivesOutputs(engine)
      ensures Valid() && fresh(weights) && fresh(sourceValues)
      ensures this.engine == engine && this.descriptor == descriptor && this.outputRows == outputRows
      ensures weights[..] == Tail(descriptor)
    {
      this.engine, this.descriptor, this.outputRows := engine, descriptor, outputRows;
      weights := new real[NARROW.size](k requires 0 <= k =>
        if NARROW.offset + k < |descriptor| then descriptor[NARROW.offset + k] else 0.0);
      sourceValues := new real[COLUMNS * 32](_ => 0.0);
    }

    /** One key row, strided through the row's block; a row or vector of another shape is refused untouched. */
    method WriteRow(row: int, values: Vector) returns (r: Result<()>)
      requires Valid()
      modifies weights
      ensures if 0 <= row < outputRows && |values| == COLUMNS
              then r == Ok(()) && RowIsWritten(old(weights[..]), weights[..], row, values, COLUMNS)
              else r == Err(ValueError) && weights[..] == old(weights[..])
    {
      if !(0 <= row < outputRows) || |values| != COLUMNS {
        return Err(ValueError);
      }
      var block, lane := row / 32, row % 32;
      for c := 0 to COLUMNS
        invariant RowIsWritten(old(weights[..]), weights[..], row, values, c)
      {
        RowStep(old(weights[..]), weights[..], row, values, c);
        weights[block * BLOCK + NARROW.shift + lane + c * 32] := values[c];
      }
      return Ok(());
    }

    /** One value column: an element for every output row. */
    method WriteColumn(column: int, values: Vector) returns (r: Result<()>)
      requires Valid()
      modifies weights
      ensures if 0 <= column < COLUMNS && |values| == outputRows
              then r == Ok(()) && ColumnIsWritten(old(weights[..]), weights[..], column, values, outputRows)
              else r == Err(ValueError) && weights[..] == old(weights[..])
    {
      if !(0 <= column < COLUMNS) || |values| != outputRows {
        return Err(ValueError);
      }
      for row := 0 to outputRows
        invariant ColumnIsWritten(old(weights[..]), weights[..], column, values, row)
      {
        ColumnStep(old(weights[..]), weights[..], column, values, row);
        weights[row / 32 * BLOCK + NARROW.shift + column * 32 + row % 32] := values[row];
      }
      return Ok(());
    }

    /** What one run submits. */
    function Submitted(blob: Blob, activation: Vector): Submission<real> {
      Submission(Command(NARROW, descriptor, blob, 0.0), Source(activation, 0.0), descriptor)
    }

    /** One product with the current weights, which it does not change. */
    method Run(activation: Vector) returns (r: Result<Vector>)
      requires Valid()
      modifies sourceValues
      ensures if |activation| == COLUMNS
              then r == Ok(Results(engine(Submitted(weights[..], activation)))[..outputRows])
              else r == Err(ValueError)
    {
      if |activation| != COLUMNS {
        return Err(ValueError);
      }
      FillSource(activation, 0.0, sourceValues);
      var output := engine(Submission(Command(NARROW, descriptor, weights[..], 0.0), sourceValues[..], descriptor));
      return Ok(Results(output)[..outputRows]);
    }

    /** With clean weights every result is the dot product of its logical row, and the row that signals
        completion comes out as zero. */
    lemma RunMultiplies(blob: Blob, activation: Vector)
      requires Valid() && |blob| == NARROW.size && IsClean(blob, outputRows) && |activation| == COLUMNS
      requires Multiplies(engine, NARROW, descriptor)
      ensures var results := Results(engine(Submitted(blob, activation)));
              && (forall i :: 0 <= i < ROWS ==> results[i] == Dot(Logical(blob)[i], activation, COLUMNS))
              && results[COMPLETION_ROW] == 0.0
    {
      CleanBlobIsPacked(blob, outputRows);
      assert Submitted(blob, activation) == Fresh(NARROW, descriptor, Logical(blob), activation, 0.0);
      var results, m := Results(engine(Submitted(blob, activation))), Logical(blob);
      forall c | 0 <= c < COLUMNS
        ensures m[COMPLETION_ROW][c] == 0.0
      {
        ElementPlace(COMPLETION_ROW, c);
        assert m[COMPLETION_ROW][c] == Element(blob, COMPLETION_ROW, c);
      }
      ZeroDot(m[COMPLETION_ROW], activation, COLUMNS);
    }
  }

  lemma {:induction false} ZeroDot(a: Vector, b: Vector, n: nat)
    requires n <= |a| && n <= |b| && forall i :: 0 <= i < n ==> a[i] == 0.0
    ensures Dot(a, b, n) == 0.0
  {
    if n > 0 {
      ZeroDot(a, b, n - 1);
    }
  }
}
