/** The matrix-vector projection assembled from tile products, in exact arithmetic. */
module Projection {
  import opened TileGemm
  import opened Vectors
  import opened WeightPacking
  import opened Words

  /** The tile width a call asks for, or the default for the matrix. */
  datatype Width = Default | Given(inCols: nat)

  function InCols(width: Width, columns: nat): nat {
    match width
    case Given(inCols) => inCols
    case Default => if columns >= 512 then 512 else 256
  }

  /** With this descriptor the engine multiplies: the outputs of a fresh product are the tile's dot products. */
  ghost predicate Multiplies(engine: Engine<real>, layout: Layout, descriptor: seq<real>) {
    layout.Valid() ==>
    forall tile: Matrix<real>, x: Vector {:trigger Fresh(layout, descriptor, tile, x, 0.0)} ::
      IsMatrix(tile, ROWS, layout.columns) && |x| == layout.columns ==>
        && |engine(Fresh(layout, descriptor, tile, x, 0.0))| == OUTPUT
        && forall i :: 0 <= i < ROWS ==>
             engine(Fresh(layout, descriptor, tile, x, 0.0))[i * 32] == Dot(tile[i], x, layout.columns)
  }

  /** The part of the activation that a tile column range sees, padded with zeros. */
  function Chunk(activation: Vector, col0: nat, inCols: nat): (x: Vector)
    ensures |x| == inCols
  {
    seq(inCols, j requires 0 <= j => if col0 + j < |activation| then activation[col0 + j] else 0.0)
  }

  function Added(a: Vector, b: Vector): (r: Vector)
    requires |a| == |b|
    ensures |r| == |a|
  {
    seq(|a|, i requires 0 <= i < |a| => a[i] + b[i])
  }

  function Min(a: nat, b: nat): nat {
    if a < b then a else b
  }

  /** A padded tile's dot product is the sum over the columns it covers. */
  lemma {:induction false} TileDot(
    matrix: Matrix<real>, columns: nat, activation: Vector, row0: nat, i: nat, col0: nat, inCols: nat, n: nat)
    requires IsMatrix(matrix, |matrix|, columns) && |activation| == columns
    requires i < ROWS && row0 + i < |matrix| && col0 <= columns && n <= inCols
    ensures Dot(Tile(matrix, columns, row0, col0, inCols, 0.0)[i], Chunk(activation, col0, inCols), n) ==
            Partial(matrix[row0 + i], activation, col0, Min(n, columns - col0))
  {
    if n > 0 {
      TileDot(matrix, columns, activation, row0, i, col0, inCols, n - 1);
    }
  }

  /** `acc` holds the dot products of the rows from `row0` on over the first `col0` columns. */
  ghost predicate Accumulates(
    acc: Vector, matrix: Matrix<real>, columns: nat, activation: Vector, row0: nat, col0: nat)
    requires IsMatrix(matrix, |matrix|, columns) && |activation| == columns
  {
    && |acc| == ROWS
    && forall i :: 0 <= i < ROWS && row0 + i < |matrix| ==>
         acc[i] == Dot(matrix[row0 + i], activation, Min(col0, columns))
  }

  /** One tile's results carry the accumulated products past its columns. */
  lemma TileAccumulates(
    acc: Vector, matrix: Matrix<real>, columns: nat, activation: Vector, row0: nat, col0: nat, inCols: nat,
    partial: Vector)
    requires IsMatrix(matrix, |matrix|, columns) && |activation| == columns && col0 < columns && |partial| == ROWS
    requires Accumulates(acc, matrix, columns, activation, row0, col0)
    requires forall i :: 0 <= i < ROWS && row0 + i < |matrix| ==>
               partial[i] == Dot(
                 Tile(matrix, columns, row0, col0, inCols, 0.0)[i], Chunk(activation, col0, inCols), inCols)
    ensures Accumulates(Added(acc, partial), matrix, columns, activation, row0, col0 + inCols)
  {
    forall i | 0 <= i < ROWS && row0 + i < |matrix|
      ensures Added(acc, partial)[i] == Dot(matrix[row0 + i], activation, Min(col0 + inCols, columns))
    {
      TileDot(matrix, columns, activation, row0, i, col0, inCols, inCols);
      DotSplits(matrix[row0 + i], activation, col0, Min(inCols, columns - col0));
    }
  }

  /** The products of one tile, through the rewritten program. */
  method TileProduct(
    device: Device<real>, matrix: Matrix<real>, columns: nat, activation: Vector, descriptor: seq<real>,
    row0: nat, col0: nat, inCols: nat) returns (partial: Vector)
    requires device.Valid() && device.zero == 0.0
    requires IsMatrix(matrix, |matrix|, columns) && |activation| == columns && row0 <= |matrix| && col0 <= columns
    requires inCols == 256 || inCols == 512
    requires Multiplies(device.engine, LayoutOf(inCols), device.DescriptorFor(inCols, descriptor))
    modifies device, device.owned
    ensures device.Valid() && fresh(device.owned - old(device.owned))
    ensures device.DescriptorFor(inCols, descriptor) == old(device.DescriptorFor(inCols, descriptor))
    ensures |partial| == ROWS
    ensures forall i :: 0 <= i < ROWS ==>
              partial[i] == Dot(
                Tile(matrix, columns, row0, col0, inCols, 0.0)[i], Chunk(activation, col0, inCols), inCols)
  {
    var x := Chunk(activation, col0, inCols);
    var product := device.BlobSwapGemm(matrix, columns, row0, col0, x, descriptor, inCols);
    partial := product.value;
  }

  lemma NothingAccumulated(acc: Vector, matrix: Matrix<real>, columns: nat, activation: Vector, row0: nat)
    requires IsMatrix(matrix, |matrix|, columns) && |activation| == columns
    requires |acc| == ROWS && forall i :: 0 <= i < ROWS ==> acc[i] == 0.0
    ensures Accumulates(acc, matrix, columns, activation, row0, 0)
  {
  }

  lemma FirstTileAccumulates(
    matrix: Matrix<real>, columns: nat, activation: Vector, row0: nat, inCols: nat, partial: Vector)
    requires IsMatrix(matrix, |matrix|, columns) && |activation| == columns && 0 < columns && |partial| == ROWS
    requires forall i :: 0 <= i < ROWS && row0 + i < |matrix| ==>
               partial[i] == Dot(Tile(matrix, columns, row0, 0, inCols, 0.0)[i], Chunk(activation, 0, inCols), inCols)
    ensures Accumulates(partial, matrix, columns, activation, row0, inCols)
  {
    var zeros := seq(ROWS, _ => 0.0);
    NothingAccumulated(zeros, matrix, columns, activation, row0);
    TileAccumulates(zeros, matrix, columns, activation, row0, 0, inCols, partial);
    assert Added(zeros, partial) == partial;
  }

  /** The results of the rows [row0, row0 + 512): the accumulated tile products. */
  method ProjectRows(
    device: Device<real>, matrix: Matrix<real>, columns: nat, activation: Vector, descriptor: seq<real>, row0: nat,
    inCols: nat)
    returns (r: Result<Vector>)
    requires device.Valid() && device.zero == 0.0
    requires IsMatrix(matrix, |matrix|, columns) && |activation| == columns && row0 < |matrix|
    requires inCols == 256 || inCols == 512
    requires Multiplies(device.engine, LayoutOf(inCols), device.DescriptorFor(inCols, descriptor))
    modifies device, device.owned
    ensures device.Valid() && fresh(device.owned - old(device.owned))
    ensures device.DescriptorFor(inCols, descriptor) == old(device.DescriptorFor(inCols, descriptor))
    ensures columns == 0 ==> r == Err(ValueError)
    ensures columns > 0 ==> r.Ok? && Accumulates(r.value, matrix, columns, activation, row0, columns)
  {
    if columns == 0 {
      return Err(ValueError);
    }
    var acc := TileProduct(device, matrix, columns, activation, descriptor, row0, 0, inCols);
    FirstTileAccumulates(matrix, columns, activation, row0, inCols, acc);
    var col0 := inCols;
    while col0 < columns
      invariant device.Valid() && fresh(device.owned - old(device.owned))
      invariant device.DescriptorFor(inCols, descriptor) == old(device.DescriptorFor(inCols, descriptor))
      invariant Accumulates(acc, matrix, columns, activation, row0, col0)
    {
      var partial := TileProduct(device, matrix, columns, activation, descriptor, row0, col0, inCols);
      TileAccumulates(acc, matrix, columns, activation, row0, col0, inCols, partial);
      acc := Added(acc, partial);
      col0 := col0 + inCols;
    }
    return Ok(acc);
  }

  /** W times x: for every matrix shape and both tile widths each result is the row's full dot product. */
  method Project(
    device: Device<real>, matrix: Matrix<real>, columns: nat, activation: Vector,
    descriptor: seq<real>, descriptor512: seq<real>, width: Width) returns (r: Result<Vector>)
    requires device.Valid() && device.zero == 0.0
    requires IsMatrix(matrix, |matrix|, columns) && |activation| == columns
    requires Multiplies(device.engine, NARROW, device.DescriptorFor(256, descriptor))
    requires Multiplies(device.engine, WIDE, device.DescriptorFor(512, descriptor512))
    modifies device, device.owned
    ensures device.Valid() && fresh(device.owned - old(device.owned))
    ensures if |matrix| > 0 && (columns == 0 || InCols(width, columns) !in {256, 512}) then r == Err(ValueError)
            else r.Ok? && IsProduct(r.value, matrix, columns, activation)
  {
    var inCols := InCols(width, columns);
    if |matrix| > 0 && inCols != 256 && inCols != 512 {
      return Err(ValueError);
    }
    var chosen := if inCols == 512 then descriptor512 else descriptor;
    var result: Vector := [];
    var row0 := 0;
    while row0 < |matrix|
      invariant device.Valid() && fresh(device.owned - old(device.owned))
      invariant device.DescriptorFor(inCols, chosen) == old(device.DescriptorFor(inCols, chosen))
      invariant |result| == Min(row0, |matrix|) && (row0 > 0 ==> columns > 0)
      invariant forall i :: 0 <= i < |result| ==> result[i] == Dot(matrix[i], activation, columns)
    {
      var rows := ProjectRows(device, matrix, columns, activation, chosen, row0, inCols);
      if rows.Err? {
        return Err(rows.fault);
      }
      result := result + rows.value[..Min(ROWS, |matrix| - row0)];
      row0 := row0 + ROWS;
    }
    return Ok(result);
  }

  predicate IsProduct(result: Vector, matrix: Matrix<real>, columns: nat, activation: Vector)
    requires IsMatrix(matrix, |matrix|, columns) && |activation| == columns
  {
    |result| == |matrix| && forall i :: 0 <= i < |result| ==> result[i] == Dot(matrix[i], activation, columns)
  }

  /** Without a width of the caller's, matrices from 512 columns on go in wide tiles, others in narrow ones. */
  lemma DefaultWidth(columns: nat)
    ensures InCols(Default, columns) in {256, 512} && (InCols(Default, columns) == 512 <==> columns >= 512)
    ensures forall inCols :: InCols(Given(inCols), columns) == inCols
  {
  }
}
