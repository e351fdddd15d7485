/** The weight blobs of the two tile widths: 512 rows in 16 blocks of 32 lanes, stored column by column. */
module WeightPacking {
  import opened Vectors
  import opened Words

  const ROWS: nat := 512
  const BLOCK: nat := 16384
  const NARROW := Layout(256, 6, 262144, 314)
  const WIDE := Layout(512, 0, 524288, 320)

  /** Tile columns, halfwords each block is shifted by, halfwords of the blob, and where it starts in a command. */
  datatype Layout = Layout(columns: nat, shift: nat, size: nat, offset: nat) {
    predicate Valid() {
      this == NARROW || this == WIDE
    }
  }

  /** Where element (row, column) is stored. */
  function BlobIndex(layout: Layout, row: nat, column: nat): nat {
    row / 32 * BLOCK + layout.shift + column * 32 + row % 32
  }

  /** Halfword k of the blob: an element, or zero in the padding. */
  function PackedAt<T>(layout: Layout, m: Matrix<T>, zero: T, k: nat): T
    requires layout.Valid() && IsMatrix(m, ROWS, layout.columns)
  {
    var block, place := k / BLOCK, k % BLOCK - layout.shift;
    if block < 16 && 0 <= place < layout.columns * 32 then m[32 * block + place % 32][place / 32] else zero
  }

  ghost predicate IsPacked<T>(layout: Layout, m: Matrix<T>, zero: T, blob: seq<T>)
    requires layout.Valid() && IsMatrix(m, ROWS, layout.columns)
  {
    |blob| == layout.size && forall k :: 0 <= k < |blob| ==> blob[k] == PackedAt(layout, m, zero, k)
  }

  function Packed<T>(layout: Layout, m: Matrix<T>, zero: T): (blob: seq<T>)
    requires layout.Valid() && IsMatrix(m, ROWS, layout.columns)
    ensures IsPacked(layout, m, zero, blob)
  {
    seq(layout.size, k requires 0 <= k < layout.size => PackedAt(layout, m, zero, k))
  }

  /** Every element is stored inside the blob, no two in one place, and read back from it. */
  lemma ElementsAreStored<T>(layout: Layout, m: Matrix<T>, zero: T, row: nat, column: nat)
    requires layout.Valid() && IsMatrix(m, ROWS, layout.columns) && row < ROWS && column < layout.columns
    ensures var k := BlobIndex(layout, row, column);
            k < layout.size && Packed(layout, m, zero)[k] == m[row][column]
  {
    IndexSplits(layout, row, column);
  }

  lemma IndexSplits(layout: Layout, row: nat, column: nat)
    requires layout.Valid() && row < ROWS && column < layout.columns
    ensures var k := BlobIndex(layout, row, column);
            && k < layout.size && k / BLOCK == row / 32 && k % BLOCK == layout.shift + column * 32 + row % 32
  {
    var block, place := row / 32, layout.shift + column * 32 + row % 32;
    assert place < BLOCK;
    assert (block * BLOCK + place) / BLOCK == block;
  }

  /** Matrices with the same blob are the same matrix. */
  lemma PackingIsInjective<T>(layout: Layout, a: Matrix<T>, b: Matrix<T>, zero: T)
    requires layout.Valid() && IsMatrix(a, ROWS, layout.columns) && IsMatrix(b, ROWS, layout.columns)
    requires Packed(layout, a, zero) == Packed(layout, b, zero)
    ensures a == b
  {
    forall row | 0 <= row < ROWS
      ensures a[row] == b[row]
    {
      forall column | 0 <= column < layout.columns
        ensures a[row][column] == b[row][column]
      {
        ElementsAreStored(layout, a, zero, row, column);
        ElementsAreStored(layout, b, zero, row, column);
      }
    }
  }

  /** Everything below halfword `to` is packed and everything from there on is zero. */
  ghost predicate IsPackedUpTo<T>(layout: Layout, m: Matrix<T>, zero: T, blob: seq<T>, to: nat)
    requires layout.Valid() && IsMatrix(m, ROWS, layout.columns)
  {
    && |blob| == layout.size
    && forall k :: 0 <= k < |blob| ==> blob[k] == if k < to then PackedAt(layout, m, zero, k) else zero
  }

  lemma PackingAdvances<T>(layout: Layout, m: Matrix<T>, zero: T, blob: seq<T>, to: nat)
    requires layout.Valid() && IsMatrix(m, ROWS, layout.columns) && IsPackedUpTo(layout, m, zero, blob, to)
    requires to < |blob|
    ensures IsPackedUpTo(layout, m, zero, blob[to := PackedAt(layout, m, zero, to)], to + 1)
  {
  }

  lemma PlaceSplits(layout: Layout, block: nat, column: nat, lane: nat)
    requires layout.Valid() && block < 16 && column < layout.columns && lane < 32
    ensures var k, place := block * BLOCK + layout.shift + column * 32 + lane, column * 32 + lane;
            && k < layout.size && k / BLOCK == block && k % BLOCK - layout.shift == place < layout.columns * 32
            && place % 32 == lane && place / 32 == column
  {
    IndexSplits(layout, 32 * block + lane, column);
    assert (32 * block + lane) / 32 == block;
  }

  lemma ElementAt<T>(layout: Layout, m: Matrix<T>, zero: T, block: nat, column: nat, lane: nat)
    requires layout.Valid() && IsMatrix(m, ROWS, layout.columns) && block < 16 && column < layout.columns && lane < 32
    ensures var k := block * BLOCK + layout.shift + column * 32 + lane;
            k < layout.size && PackedAt(layout, m, zero, k) == m[32 * block + lane][column]
  {
    PlaceSplits(layout, block, column, lane);
  }

  /** The gaps around a block's elements are zero in the blob anyway. */
  lemma GapIsPadding<T>(layout: Layout, m: Matrix<T>, zero: T, blob: seq<T>, from: nat, to: nat)
    requires layout.Valid() && IsMatrix(m, ROWS, layout.columns) && IsPackedUpTo(layout, m, zero, blob, from)
    requires from <= to && forall k :: from <= k < to ==> PackedAt(layout, m, zero, k) == zero
    ensures IsPackedUpTo(layout, m, zero, blob, to)
  {
  }

  lemma HeadIsPadding<T>(layout: Layout, m: Matrix<T>, zero: T, blob: seq<T>, block: nat)
    requires layout.Valid() && IsMatrix(m, ROWS, layout.columns)
    requires IsPackedUpTo(layout, m, zero, blob, block * BLOCK)
    ensures IsPackedUpTo(layout, m, zero, blob, block * BLOCK + layout.shift)
  {
    GapIsPadding(layout, m, zero, blob, block * BLOCK, block * BLOCK + layout.shift);
  }

  lemma TailIsPadding<T>(layout: Layout, m: Matrix<T>, zero: T, blob: seq<T>, block: nat)
    requires layout.Valid() && IsMatrix(m, ROWS, layout.columns) && block < 16
    requires IsPackedUpTo(layout, m, zero, blob, block * BLOCK + layout.shift + layout.columns * 32)
    ensures IsPackedUpTo(layout, m, zero, blob, (block + 1) * BLOCK)
  {
    GapIsPadding(
      layout, m, zero, blob, block * BLOCK + layout.shift + layout.columns * 32, (block + 1) * BLOCK);
  }

  method PackColumn<T>(layout: Layout, m: Matrix<T>, zero: T, blob: array<T>, block: nat, column: nat)
    requires layout.Valid() && IsMatrix(m, ROWS, layout.columns) && block < 16 && column < layout.columns
    requires IsPackedUpTo(layout, m, zero, blob[..], block * BLOCK + layout.shift + column * 32)
    modifies blob
    ensures IsPackedUpTo(layout, m, zero, blob[..], block * BLOCK + layout.shift + (column + 1) * 32)
  {
    for lane := 0 to 32
      invariant IsPackedUpTo(layout, m, zero, blob[..], block * BLOCK + layout.shift + column * 32 + lane)
    {
      ElementAt(layout, m, zero, block, column, lane);
      PackingAdvances(layout, m, zero, blob[..], block * BLOCK + layout.shift + column * 32 + lane);
      blob[block * BLOCK + layout.shift + column * 32 + lane] := m[32 * block + lane][column];
    }
  }

  method PackBlock<T>(layout: Layout, m: Matrix<T>, zero: T, blob: array<T>, block: nat)
    requires layout.Valid() && IsMatrix(m, ROWS, layout.columns) && block < 16
    requires IsPackedUpTo(layout, m, zero, blob[..], block * BLOCK)
    modifies blob
    ensures IsPackedUpTo(layout, m, zero, blob[..], (block + 1) * BLOCK)
  {
    HeadIsPadding(layout, m, zero, blob[..], block);
    for column := 0 to layout.columns
      invariant IsPackedUpTo(layout, m, zero, blob[..], block * BLOCK + layout.shift + column * 32)
    {
      PackColumn(layout, m, zero, blob, block, column);
    }
    TailIsPadding(layout, m, zero, blob[..], block);
  }

  method Clear<T>(blob: array<T>, zero: T)
    modifies blob
    ensures forall k :: 0 <= k < blob.Length ==> blob[k] == zero
  {
    for k := 0 to blob.Length
      invariant forall i :: 0 <= i < k ==> blob[i] == zero
    {
      blob[k] := zero;
    }
  }

  /** Packs a matrix into a reused buffer; a matrix or buffer of another shape is refused untouched. */
  method Pack<T>(layout: Layout, m: Matrix<T>, zero: T, blob: array<T>) returns (r: Result<()>)
    requires layout.Valid()
    modifies blob
    ensures if IsMatrix(m, ROWS, layout.columns) && blob.Length == layout.size
            then r == Ok(()) && blob[..] == Packed(layout, m, zero)
            else r == Err(ValueError) && blob[..] == old(blob[..])
  {
    if !IsMatrix(m, ROWS, layout.columns) || blob.Length != layout.size {
      return Err(ValueError);
    }
    Clear(blob, zero);
    for block := 0 to 16
      invariant IsPackedUpTo(layout, m, zero, blob[..], block * BLOCK)
    {
      PackBlock(layout, m, zero, blob, block);
    }
    PackingEnds(layout, m, zero, blob[..]);
    return Ok(());
  }

  lemma PackingEnds<T>(layout: Layout, m: Matrix<T>, zero: T, blob: seq<T>)
    requires layout.Valid() && IsMatrix(m, ROWS, layout.columns) && IsPackedUpTo(layout, m, zero, blob, 16 * BLOCK)
    ensures blob == Packed(layout, m, zero)
  {
  }
}
