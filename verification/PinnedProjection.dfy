/** The projection of a very large matrix, whose tiles stay on the device as the first call packed them. */
module PinnedProjection {
  import opened Projection
  import opened TileGemm
  import opened Vectors
  import opened WeightPacking
  import opened Words

  const PINNED_ELEMENTS: nat := 100_000_000

  type Tiles = map<TileKey, Matrix<real>>

  ghost predicate AreTiles(tiles: Tiles) {
    forall key :: key in tiles ==> IsMatrix(tiles[key], ROWS, key.inCols)
  }

  /** The tile that element (r, c) belongs to. */
  function KeyAt(id: int, inCols: nat, r: nat, c: nat): TileKey
    requires inCols > 0
  {
    TileKey(id, inCols, r / ROWS * ROWS, c / inCols * inCols)
  }

  /** The element the device multiplies by: the pinned one where the tile is pinned, the matrix's own elsewhere. */
  ghost function EffectiveAt(
    tiles: Tiles, id: int, inCols: nat, matrix: Matrix<real>, columns: nat, r: nat, c: nat): real
    requires AreTiles(tiles) && inCols > 0 && IsMatrix(matrix, |matrix|, columns) && r < |matrix| && c < columns
  {
    var key := KeyAt(id, inCols, r, c);
    if key in tiles then tiles[key][r % ROWS][c % inCols] else matrix[r][c]
  }

  ghost function Effective(tiles: Tiles, id: int, inCols: nat, matrix: Matrix<real>, columns: nat): (m: Matrix<real>)
    requires AreTiles(tiles) && inCols > 0 && IsMatrix(matrix, |matrix|, columns)
    ensures IsMatrix(m, |matrix|, columns)
    ensures forall r, c :: 0 <= r < |matrix| && 0 <= c < columns ==>
              m[r][c] == EffectiveAt(tiles, id, inCols, matrix, columns, r, c)
  {
    seq(|matrix|, r requires 0 <= r < |matrix| =>
      seq(columns, c requires 0 <= c < columns => EffectiveAt(tiles, id, inCols, matrix, columns, r, c)))
  }

  /** A corner of the tiling. */
  predicate IsCorner(row0: nat, col0: nat, inCols: nat) {
    (inCols == 256 || inCols == 512) && row0 % ROWS == 0 && col0 % inCols == 0
  }

  lemma KeyOfTile(id: int, inCols: nat, row0: nat, i: nat, col0: nat, j: nat)
    requires IsCorner(row0, col0, inCols) && i < ROWS && j < inCols
    ensures KeyAt(id, inCols, row0 + i, col0 + j) == TileKey(id, inCols, row0, col0)
    ensures (row0 + i) % ROWS == i && (col0 + j) % inCols == j
  {
    if inCols == 256 {
      assert (col0 + j) / 256 == col0 / 256;
    }
  }

  /** A pinned tile multiplies like the tile of the effective matrix: where they differ the activation is zero. */
  lemma {:induction false} PinnedTileDot(
    tiles: Tiles, id: int, inCols: nat, matrix: Matrix<real>, columns: nat, x: Vector, row0: nat, i: nat, col0: nat,
    n: nat)
    requires AreTiles(tiles) && IsCorner(row0, col0, inCols) && IsMatrix(matrix, |matrix|, columns)
    requires |x| == columns && TileKey(id, inCols, row0, col0) in tiles
    requires i < ROWS && row0 + i < |matrix| && n <= inCols
    ensures var m := Effective(tiles, id, inCols, matrix, columns);
            Dot(tiles[TileKey(id, inCols, row0, col0)][i], Chunk(x, col0, inCols), n) ==
            Dot(Tile(m, columns, row0, col0, inCols, 0.0)[i], Chunk(x, col0, inCols), n)
  {
    if n > 0 {
      PinnedTileDot(tiles, id, inCols, matrix, columns, x, row0, i, col0, n - 1);
      PinnedElement(tiles, id, inCols, matrix, columns, row0, i, col0, n - 1);
    }
  }

  lemma PinnedElement(
    tiles: Tiles, id: int, inCols: nat, matrix: Matrix<real>, columns: nat, row0: nat, i: nat, col0: nat, j: nat)
    requires AreTiles(tiles) && IsCorner(row0, col0, inCols) && IsMatrix(matrix, |matrix|, columns)
    requires TileKey(id, inCols, row0, col0) in tiles && i < ROWS && row0 + i < |matrix| && j < inCols
    ensures var m := Effective(tiles, id, inCols, matrix, columns);
            col0 + j < columns ==>
              Tile(m, columns, row0, col0, inCols, 0.0)[i][j] == tiles[TileKey(id, inCols, row0, col0)][i][j]
  {
    KeyOfTile(id, inCols, row0, i, col0, j);
  }

  /** Pinning a tile of the matrix itself leaves the effective matrix as it was. */
  lemma PinningKeepsEffective(
    tiles: Tiles, after: Tiles, id: int, inCols: nat, matrix: Matrix<real>, columns: nat, key: TileKey)
    requires AreTiles(tiles) && AreTiles(after) && IsMatrix(matrix, |matrix|, columns)
    requires key.matrix == id && key.inCols == inCols && IsCorner(key.row0, key.col0, inCols)
    requires after.Keys == tiles.Keys + {key} && forall k :: k in tiles ==> after[k] == tiles[k]
    requires key !in tiles ==> after[key] == Tile(matrix, columns, key.row0, key.col0, inCols, 0.0)
    ensures Effective(after, id, inCols, matrix, columns) == Effective(tiles, id, inCols, matrix, columns)
  {
    var before, now := Effective(tiles, id, inCols, matrix, columns), Effective(after, id, inCols, matrix, columns);
    forall r | 0 <= r < |matrix|
      ensures now[r] == before[r]
    {
      forall c | 0 <= c < columns
        ensures now[r][c] == before[r][c]
      {
        OwnElement(id, inCols, matrix, columns, r, c);
        assert KeyAt(id, inCols, r, c) in tiles || KeyAt(id, inCols, r, c) == key || KeyAt(id, inCols, r, c) !in after;
      }
    }
  }

  /** An element stands in its matrix's tile where it is looked for. */
  lemma OwnElement(id: int, inCols: nat, matrix: Matrix<real>, columns: nat, r: nat, c: nat)
    requires inCols > 0 && IsMatrix(matrix, |matrix|, columns) && r < |matrix| && c < columns
    ensures var key := KeyAt(id, inCols, r, c);
            Tile(matrix, columns, key.row0, key.col0, inCols, 0.0)[r % ROWS][c % inCols] == matrix[r][c]
  {
    assert r / ROWS * ROWS + r % ROWS == r && c / inCols * inCols + c % inCols == c;
  }

  /** All programs in the cache make the engine multiply. */
  ghost predicate AllMultiply(cache: TileCache<real>)
    reads cache
  {
    forall key :: key in cache.pinned ==>
      Multiplies(cache.engine, LayoutOf(key.inCols), cache.pinned[key].descriptor)
  }

  ghost predicate IsReady(cache: TileCache<real>)
    reads cache
  {
    cache.Valid() && cache.zero == 0.0 && AllMultiply(cache) && AreTiles(cache.tiles)
  }

  /** One product of a pinned tile, in terms of what is pinned. */
  method PinnedCall(
    cache: TileCache<real>, key: TileKey, matrix: Matrix<real>, columns: nat, x: Vector, descriptor: seq<real>,
    ghost before: Tiles) returns (partial: Vector)
    requires IsReady(cache) && before == cache.tiles && (key.inCols == 256 || key.inCols == 512)
    requires IsMatrix(matrix, |matrix|, columns) && |x| == key.inCols && key.row0 <= |matrix| && key.col0 <= columns
    requires Multiplies(cache.engine, LayoutOf(key.inCols), descriptor)
    modifies cache
    ensures IsReady(cache) && cache.tiles.Keys == before.Keys + {key}
    ensures forall k :: k in before ==> cache.tiles[k] == before[k]
    ensures key !in before ==> cache.tiles[key] == Tile(matrix, columns, key.row0, key.col0, key.inCols, 0.0)
    ensures |partial| == ROWS && forall i :: 0 <= i < ROWS ==> partial[i] == Dot(cache.tiles[key][i], x, key.inCols)
  {
    var product := cache.TileGemm(key, matrix, columns, x, descriptor);
    partial := product.value;
    ResultsAreDots(cache.engine, LayoutOf(key.inCols), cache.pinned[key].descriptor, cache.tiles[key], x);
  }

  lemma ResultsAreDots(
    engine: Engine<real>, layout: Layout, descriptor: seq<real>, tile: Matrix<real>, x: Vector)
    requires layout.Valid() && IsMatrix(tile, ROWS, layout.columns) && |x| == layout.columns
    requires Multiplies(engine, layout, descriptor)
    ensures var output := engine(Fresh(layout, descriptor, tile, x, 0.0));
            |output| == OUTPUT && forall i :: 0 <= i < ROWS ==> Results(output)[i] == Dot(tile[i], x, layout.columns)
  {
  }

  /** One product of a pinned tile, in terms of the effective matrix. */
  method PinnedProduct(
    cache: TileCache<real>, id: int, matrix: Matrix<real>, columns: nat, activation: Vector, descriptor: seq<real>,
    row0: nat, col0: nat, inCols: nat) returns (partial: Vector)
    requires IsReady(cache) && IsCorner(row0, col0, inCols)
    requires IsMatrix(matrix, |matrix|, columns) && |activation| == columns && row0 <= |matrix| && col0 <= columns
    requires Multiplies(cache.engine, LayoutOf(inCols), descriptor)
    modifies cache
    ensures IsReady(cache)
    ensures Effective(cache.tiles, id, inCols, matrix, columns) ==
            old(Effective(cache.tiles, id, inCols, matrix, columns))
    ensures |partial| == ROWS
    ensures var m := Effective(cache.tiles, id, inCols, matrix, columns);
            forall i :: 0 <= i < ROWS && row0 + i < |matrix| ==>
              partial[i] == Dot(Tile(m, columns, row0, col0, inCols, 0.0)[i], Chunk(activation, col0, inCols), inCols)
  {
    var key, x := TileKey(id, inCols, row0, col0), Chunk(activation, col0, inCols);
    ghost var before := cache.tiles;
    partial := PinnedCall(cache, key, matrix, columns, x, descriptor, before);
    PinningKeepsEffective(before, cache.tiles, id, inCols, matrix, columns, key);
    PinnedResults(cache.tiles, id, inCols, matrix, columns, activation, row0, col0, partial);
  }

  lemma PinnedResults(
    tiles: Tiles, id: int, inCols: nat, matrix: Matrix<real>, columns: nat, activation: Vector, row0: nat, col0: nat,
    partial: Vector)
    requires AreTiles(tiles) && IsCorner(row0, col0, inCols) && IsMatrix(matrix, |matrix|, columns)
    requires |activation| == columns && |partial| == ROWS
    requires var key := TileKey(id, inCols, row0, col0);
             && key in tiles
             && forall i :: 0 <= i < ROWS ==> partial[i] == Dot(tiles[key][i], Chunk(activation, col0, inCols), inCols)
    ensures var m := Effective(tiles, id, inCols, matrix, columns);
            forall i :: 0 <= i < ROWS && row0 + i < |matrix| ==>
              partial[i] == Dot(Tile(m, columns, row0, col0, inCols, 0.0)[i], Chunk(activation, col0, inCols), inCols)
  {
    forall i | 0 <= i < ROWS && row0 + i < |matrix|
      ensures var m := Effective(tiles, id, inCols, matrix, columns);
              partial[i] == Dot(Tile(m, columns, row0, col0, inCols, 0.0)[i], Chunk(activation, col0, inCols), inCols)
    {
      PinnedTileDot(tiles, id, inCols, matrix, columns, activation, row0, i, col0, inCols);
    }
  }

  /** The results of the rows [row0, row0 + 512). */
  method PinnedRows(
    cache: TileCache<real>, id: int, matrix: Matrix<real>, columns: nat, activation: Vector, descriptor: seq<real>,
    row0: nat, inCols: nat, ghost m: Matrix<real>) returns (r: Result<Vector>)
    requires IsReady(cache) && IsCorner(row0, 0, inCols)
    requires IsMatrix(matrix, |matrix|, columns) && |activation| == columns && row0 < |matrix|
    requires Multiplies(cache.engine, LayoutOf(inCols), descriptor)
    requires m == Effective(cache.tiles, id, inCols, matrix, columns)
    modifies cache
    ensures IsReady(cache) && m == Effective(cache.tiles, id, inCols, matrix, columns)
    ensures columns == 0 ==> r == Err(ValueError)
    ensures columns > 0 ==> r.Ok? && Accumulates(r.value, m, columns, activation, row0, columns)
  {
    if columns == 0 {
      return Err(ValueError);
    }
    var acc := PinnedProduct(cache, id, matrix, columns, activation, descriptor, row0, 0, inCols);
    FirstTileAccumulates(m, columns, activation, row0, inCols, acc);
    var col0 := inCols;
    while col0 < columns
      invariant IsReady(cache) && m == Effective(cache.tiles, id, inCols, matrix, columns)
      invariant IsCorner(row0, col0, inCols) && Accumulates(acc, m, columns, activation, row0, col0)
    {
      var partial := PinnedProduct(cache, id, matrix, columns, activation, descriptor, row0, col0, inCols);
      TileAccumulates(acc, m, columns, activation, row0, col0, inCols, partial);
      acc := Added(acc, partial);
      NextCorner(row0, col0, inCols);
      col0 := col0 + inCols;
    }
    return Ok(acc);
  }

  lemma NextCorner(row0: nat, col0: nat, inCols: nat)
    requires IsCorner(row0, col0, inCols)
    ensures IsCorner(row0, col0 + inCols, inCols) && IsCorner(row0 + ROWS, 0, inCols)
  {
  }

  /** All blocks of rows, one after another. */
  method PinnedBlocks(
    cache: TileCache<real>, id: int, matrix: Matrix<real>, columns: nat, activation: Vector, descriptor: seq<real>,
    inCols: nat, ghost m: Matrix<real>) returns (r: Result<Vector>)
    requires IsReady(cache) && IsCorner(0, 0, inCols)
    requires IsMatrix(matrix, |matrix|, columns) && |activation| == columns && |matrix| > 0
    requires Multiplies(cache.engine, LayoutOf(inCols), descriptor)
    requires m == Effective(cache.tiles, id, inCols, matrix, columns)
    modifies cache
    ensures IsReady(cache) && m == Effective(cache.tiles, id, inCols, matrix, columns)
    ensures if columns == 0 then r == Err(ValueError) else r.Ok? && IsProduct(r.value, m, columns, activation)
  {
    var result: Vector := [];
    var row0 := 0;
    while row0 < |matrix|
      invariant IsReady(cache) && m == Effective(cache.tiles, id, inCols, matrix, columns)
      invariant IsCorner(row0, 0, inCols)
      invariant |result| == Min(row0, |matrix|) && (row0 > 0 ==> columns > 0)
      invariant forall i :: 0 <= i < |result| ==> result[i] == Dot(m[i], activation, columns)
    {
      var rows := PinnedRows(cache, id, matrix, columns, activation, descriptor, row0, inCols, m);
      if rows.Err? {
        return Err(rows.fault);
      }
      result := result + rows.value[..Min(ROWS, |matrix| - row0)];
      NextCorner(row0, 0, inCols);
      row0 := row0 + ROWS;
    }
    return Ok(result);
  }

  /** The projection over pinned tiles is the product with the effective matrix. */
  method ProjectPinned(
    cache: TileCache<real>, id: int, matrix: Matrix<real>, columns: nat, activation: Vector,
    descriptor: seq<real>, descriptor512: seq<real>, width: Width) returns (r: Result<Vector>)
    requires IsReady(cache) && IsMatrix(matrix, |matrix|, columns) && |activation| == columns
    requires Multiplies(cache.engine, NARROW, descriptor) && Multiplies(cache.engine, WIDE, descriptor512)
    modifies cache
    ensures IsReady(cache)
    ensures var inCols := InCols(width, columns);
            if |matrix| == 0 then r == Ok([])
            else if columns == 0 || inCols !in {256, 512} then r == Err(ValueError)
            else
              && r.Ok?
              && IsProduct(r.value, old(Effective(cache.tiles, id, inCols, matrix, columns)), columns, activation)
              && Effective(cache.tiles, id, inCols, matrix, columns) ==
                 old(Effective(cache.tiles, id, inCols, matrix, columns))
  {
    var inCols := InCols(width, columns);
    if |matrix| == 0 {
      return Ok([]);
    }
    if inCols != 256 && inCols != 512 {
      return Err(ValueError);
    }
    r := PinnedBlocks(
      cache, id, matrix, columns, activation, if inCols == 512 then descriptor512 else descriptor, inCols,
      Effective(cache.tiles, id, inCols, matrix, columns));
  }

  // When the effective matrix is the matrix itself

  function Products(m: Matrix<real>, columns: nat, x: Vector): (y: Vector)
    requires IsMatrix(m, |m|, columns) && |x| == columns
    ensures |y| == |m|
  {
    seq(|m|, r requires 0 <= r < |m| => Dot(m[r], x, columns))
  }

  function Unit(n: nat, at: nat): (x: Vector)
    ensures |x| == n
  {
    seq(n, i => if i == at then 1.0 else 0.0)
  }

  lemma {:induction false} DotWithUnit(a: Vector, at: nat, n: nat)
    requires at < |a| && n <= |a|
    ensures Dot(a, Unit(|a|, at), n) == if at < n then a[at] else 0.0
  {
    if n > 0 {
      DotWithUnit(a, at, n - 1);
    }
  }

  /** Matrices that multiply alike are equal. */
  lemma ProductsDetermineMatrix(a: Matrix<real>, b: Matrix<real>, columns: nat)
    requires IsMatrix(a, |a|, columns) && IsMatrix(b, |a|, columns)
    requires forall x :: |x| == columns ==> Products(a, columns, x) == Products(b, columns, x)
    ensures a == b
  {
    forall r | 0 <= r < |a|
      ensures a[r] == b[r]
    {
      forall c | 0 <= c < columns
        ensures a[r][c] == b[r][c]
      {
        DotWithUnit(a[r], c, columns);
        DotWithUnit(b[r], c, columns);
        assert Products(a, columns, Unit(columns, c))[r] == Products(b, columns, Unit(columns, c))[r];
      }
    }
  }

  /** Wherever a tile is pinned it holds the matrix's own elements. */
  ghost predicate AreOwn(tiles: Tiles, id: int, inCols: nat, matrix: Matrix<real>, columns: nat)
    requires AreTiles(tiles) && inCols > 0 && IsMatrix(matrix, |matrix|, columns)
  {
    forall r, c {:trigger matrix[r][c]} :: 0 <= r < |matrix| && 0 <= c < columns && KeyAt(id, inCols, r, c) in tiles ==>
      tiles[KeyAt(id, inCols, r, c)][r % ROWS][c % inCols] == matrix[r][c]
  }

  /** The projection is the product for every activation if and only if the pinned tiles are the matrix's own:
      a matrix that was changed in place, or that took the identity of another, is multiplied as it was. */
  lemma PinnedProductIff(tiles: Tiles, id: int, inCols: nat, matrix: Matrix<real>, columns: nat)
    requires AreTiles(tiles) && inCols > 0 && IsMatrix(matrix, |matrix|, columns)
    ensures var m := Effective(tiles, id, inCols, matrix, columns);
            (forall x :: |x| == columns ==> Products(m, columns, x) == Products(matrix, columns, x)) <==>
            AreOwn(tiles, id, inCols, matrix, columns)
  {
    var m := Effective(tiles, id, inCols, matrix, columns);
    if forall x :: |x| == columns ==> Products(m, columns, x) == Products(matrix, columns, x) {
      ProductsDetermineMatrix(m, matrix, columns);
      forall r, c | 0 <= r < |matrix| && 0 <= c < columns && KeyAt(id, inCols, r, c) in tiles
        ensures tiles[KeyAt(id, inCols, r, c)][r % ROWS][c % inCols] == matrix[r][c]
      {
        assert m[r][c] == EffectiveAt(tiles, id, inCols, matrix, columns, r, c);
      }
    }
    if AreOwn(tiles, id, inCols, matrix, columns) {
      forall r | 0 <= r < |matrix|
        ensures m[r] == matrix[r]
      {
        forall c | 0 <= c < columns
          ensures m[r][c] == matrix[r][c]
        {
          assert m[r][c] == EffectiveAt(tiles, id, inCols, matrix, columns, r, c);
        }
      }
      assert m == matrix;
    }
  }

  /** Once every tile of a matrix is pinned, any other matrix of its shape and identity is multiplied as the first. */
  lemma FirstMatrixStays(
    tiles: Tiles, id: int, inCols: nat, first: Matrix<real>, later: Matrix<real>, columns: nat)
    requires AreTiles(tiles) && inCols > 0
    requires IsMatrix(first, |first|, columns) && IsMatrix(later, |first|, columns)
    requires forall r, c :: 0 <= r < |first| && 0 <= c < columns ==> KeyAt(id, inCols, r, c) in tiles
    requires AreOwn(tiles, id, inCols, first, columns)
    ensures Effective(tiles, id, inCols, later, columns) == first
  {
    var m := Effective(tiles, id, inCols, later, columns);
    forall r | 0 <= r < |first|
      ensures m[r] == first[r]
    {
      forall c | 0 <= c < columns
        ensures m[r][c] == first[r][c]
      {
        assert m[r][c] == EffectiveAt(tiles, id, inCols, later, columns, r, c);
      }
    }
  }

  /** The model's projection: very large matrices go through pinned tiles, all others through the rewritten program. */
  method ProjectMatrix(
    device: Device<real>, cache: TileCache<real>, id: int, matrix: Matrix<real>, columns: nat, activation: Vector,
    descriptor: seq<real>, descriptor512: seq<real>, width: Width) returns (r: Result<Vector>)
    requires device.Valid() && device.zero == 0.0 && IsReady(cache) && cache !in device.owned
    requires IsMatrix(matrix, |matrix|, columns) && |activation| == columns
    requires Multiplies(device.engine, NARROW, device.DescriptorFor(256, descriptor))
    requires Multiplies(device.engine, WIDE, device.DescriptorFor(512, descriptor512))
    requires Multiplies(cache.engine, NARROW, descriptor) && Multiplies(cache.engine, WIDE, descriptor512)
    modifies device, device.owned, cache
    ensures device.Valid() && IsReady(cache)
    ensures var inCols := InCols(width, columns);
            if |matrix| > 0 && (columns == 0 || inCols !in {256, 512}) then r == Err(ValueError)
            else
              && r.Ok?
              && (|matrix| > 0 && |matrix| * columns >= PINNED_ELEMENTS ==>
                    IsProduct(r.value, old(Effective(cache.tiles, id, inCols, matrix, columns)), columns, activation))
              && (|matrix| * columns < PINNED_ELEMENTS || |matrix| == 0 ==>
                    IsProduct(r.value, matrix, columns, activation))
  {
    if |matrix| * columns >= PINNED_ELEMENTS {
      r := ProjectPinned(cache, id, matrix, columns, activation, descriptor, descriptor512, width);
    } else {
      r := Project(device, matrix, columns, activation, descriptor, descriptor512, width);
    }
  }
}
