/** Tiling of an NCHW surface of halfwords into padded rows and planes, and its inverse. */
module SurfaceTiling {
  import opened Grids
  import opened Words

  /** Extents of the dense surface, with `P` bytes to a tiled plane and `R` bytes to a tiled row. */
  datatype Shape = Shape(N: nat, C: nat, H: nat, W: nat, P: nat, R: nat) {
    /** The dimensions for which a tiled plane holds a dense one. */
    predicate Fits() {
      && R > 0 && R % 2 == 0 && P % R == 0
      && H <= P / R && W <= R / 2
    }

    function Rows(): nat
      requires Fits()
    {
      P / R
    }

    function Width(): nat
      requires Fits()
    {
      R / 2
    }

    function DataSize(): nat {
      N * C * H * W
    }

    function TileSize(): nat
      requires Fits()
    {
      N * C * Rows() * Width()
    }
  }

  /** The offset sums of the copying loops are cells of nested grids. */
  lemma OffsetIsCell(n: nat, C: nat, c: nat, H: nat, h: nat, W: nat)
    ensures n * (C * H * W) + c * (H * W) + h * W == Cell(Cell(Cell(n, C, c), H, h), W, 0)
  {
    assert n * (C * H * W) == (n * C) * (H * W);
    assert (n * C) * (H * W) + c * (H * W) == (n * C + c) * (H * W);
    assert (n * C + c) * (H * W) == ((n * C + c) * H) * W;
    assert ((n * C + c) * H) * W + h * W == ((n * C + c) * H + h) * W;
  }

  // The two layouts

  /** The dense line that tile halfword `k` belongs to. */
  function SourceLine(s: Shape, k: nat): nat
    requires s.Fits()
  {
    var row := Line(k, s.Width());
    Cell(Line(row, s.Rows()), s.H, Column(row, s.Rows()))
  }

  /** Whether tile halfword `k` lies in a dense row and column rather than in padding. */
  predicate IsCovered(s: Shape, k: nat)
    requires s.Fits()
  {
    Column(k, s.Width()) < s.W && Column(Line(k, s.Width()), s.Rows()) < s.H
  }

  function SourceIndex(s: Shape, k: nat): nat
    requires s.Fits()
  {
    Cell(SourceLine(s, k), s.W, Column(k, s.Width()))
  }

  /** The tile halfword that holds dense halfword `j`. */
  function TileIndex(s: Shape, j: nat): nat
    requires s.Fits()
  {
    var line := Line(j, s.W);
    Cell(Cell(Line(line, s.H), s.Rows(), Column(line, s.H)), s.Width(), Column(j, s.W))
  }

  lemma SourceIsInside(s: Shape, k: nat)
    requires s.Fits() && k < s.TileSize() && IsCovered(s, k)
    ensures SourceIndex(s, k) < s.DataSize()
  {
    var row := Line(k, s.Width());
    LineIsInside(k, s.N * s.C * s.Rows(), s.Width());
    LineIsInside(row, s.N * s.C, s.Rows());
    CellIsInside(Line(row, s.Rows()), s.N * s.C, s.H, Column(row, s.Rows()));
    CellIsInside(SourceLine(s, k), s.N * s.C * s.H, s.W, Column(k, s.Width()));
  }

  lemma TileIsInside(s: Shape, j: nat)
    requires s.Fits() && j < s.DataSize()
    ensures TileIndex(s, j) < s.TileSize()
  {
    var line := Line(j, s.W);
    LineIsInside(j, s.N * s.C * s.H, s.W);
    LineIsInside(line, s.N * s.C, s.H);
    CellIsInside(Line(line, s.H), s.N * s.C, s.Rows(), Column(line, s.H));
    CellIsInside(Cell(Line(line, s.H), s.Rows(), Column(line, s.H)), s.N * s.C * s.Rows(), s.Width(), Column(j, s.W));
  }

  /** The two index maps are inverse: no two dense halfwords share a place in the tile. */
  lemma TileIndexReturns(s: Shape, j: nat)
    requires s.Fits() && j < s.DataSize()
    ensures IsCovered(s, TileIndex(s, j)) && SourceIndex(s, TileIndex(s, j)) == j
  {
    var line := Line(j, s.W);
    LineIsInside(j, s.N * s.C * s.H, s.W);
    LineIsInside(line, s.N * s.C, s.H);
    CellSplits(Cell(Line(line, s.H), s.Rows(), Column(line, s.H)), s.Width(), Column(j, s.W));
    CellSplits(Line(line, s.H), s.Rows(), Column(line, s.H));
    SplitIsCell(line, s.H);
    SplitIsCell(j, s.W);
  }

  lemma SourceIndexReturns(s: Shape, k: nat)
    requires s.Fits() && k < s.TileSize() && IsCovered(s, k)
    ensures TileIndex(s, SourceIndex(s, k)) == k
  {
    var row := Line(k, s.Width());
    LineIsInside(k, s.N * s.C * s.Rows(), s.Width());
    LineIsInside(row, s.N * s.C, s.Rows());
    CellSplits(SourceLine(s, k), s.W, Column(k, s.Width()));
    CellSplits(Line(row, s.Rows()), s.H, Column(row, s.Rows()));
    SplitIsCell(row, s.Rows());
    SplitIsCell(k, s.Width());
  }

  function TiledAt(s: Shape, data: seq<Half>, k: nat): Half
    requires s.Fits() && |data| == s.DataSize() && k < s.TileSize()
  {
    if IsCovered(s, k) then
      SourceIsInside(s, k);
      data[SourceIndex(s, k)]
    else 0
  }

  function UntiledAt(s: Shape, tile: seq<Half>, j: nat): Half
    requires s.Fits() && |tile| == s.TileSize() && j < s.DataSize()
  {
    TileIsInside(s, j);
    tile[TileIndex(s, j)]
  }

  /** The tile holds the data in its rows and planes and zeros in all padding. */
  ghost predicate IsTiled(s: Shape, data: seq<Half>, tile: seq<Half>)
    requires s.Fits() && |data| == s.DataSize()
  {
    |tile| == s.TileSize() && forall k :: 0 <= k < |tile| ==> tile[k] == TiledAt(s, data, k)
  }

  ghost predicate IsUntiled(s: Shape, tile: seq<Half>, data: seq<Half>)
    requires s.Fits() && |tile| == s.TileSize()
  {
    |data| == s.DataSize() && forall j :: 0 <= j < |data| ==> data[j] == UntiledAt(s, tile, j)
  }

  // The copying loops

  /** The first `lines` dense lines are in place and the rest of the tile is zero. */
  ghost predicate IsTiledUpTo(s: Shape, data: seq<Half>, tile: seq<Half>, lines: nat)
    requires s.Fits() && |data| == s.DataSize()
  {
    && |tile| == s.TileSize()
    && forall k :: 0 <= k < |tile| ==> tile[k] == if SourceLine(s, k) < lines then TiledAt(s, data, k) else 0
  }

  ghost predicate IsUntiledUpTo(s: Shape, tile: seq<Half>, data: seq<Half>, lines: nat)
    requires s.Fits() && |tile| == s.TileSize()
  {
    && |data| == s.DataSize()
    && forall j :: 0 <= j < |data| ==> data[j] == if Line(j, s.W) < lines then UntiledAt(s, tile, j) else 0
  }

  /** `after` is `before` with `width` halfwords of `source` copied in. */
  ghost predicate IsCopied(
    source: seq<Half>, from: nat, before: seq<Half>, after: seq<Half>, to: nat, width: nat)
  {
    && from + width <= |source| && to + width <= |before| && |after| == |before|
    && forall k :: 0 <= k < |after| ==>
         after[k] == if to <= k < to + width then source[from + (k - to)] else before[k]
  }

  method CopyRow(source: array<Half>, from: nat, target: array<Half>, to: nat, width: nat)
    requires from + width <= source.Length && to + width <= target.Length && source != target
    modifies target
    ensures IsCopied(source[..], from, old(target[..]), target[..], to, width)
  {
    for i := 0 to width
      invariant forall k :: 0 <= k < target.Length ==>
        target[k] == if to <= k < to + i then source[from + (k - to)] else old(target[k])
    {
      target[to + i] := source[from + i];
    }
  }

  /** Tile halfword `k` lies in the row of dense line (plane, h) exactly when that line is its source. */
  lemma RowHolds(s: Shape, plane: nat, h: nat, k: nat)
    requires s.Fits() && h < s.H && k < s.TileSize()
    ensures var to := Cell(Cell(plane, s.Rows(), h), s.Width(), 0);
            to <= k < to + s.W <==> IsCovered(s, k) && SourceLine(s, k) == Cell(plane, s.H, h)
    ensures var to := Cell(Cell(plane, s.Rows(), h), s.Width(), 0);
            to <= k < to + s.W ==> SourceIndex(s, k) == Cell(Cell(plane, s.H, h), s.W, 0) + (k - to)
  {
    var row := Line(k, s.Width());
    LineIsInside(k, s.N * s.C * s.Rows(), s.Width());
    LineIsInside(row, s.N * s.C, s.Rows());
    var to := Cell(Cell(plane, s.Rows(), h), s.Width(), 0);
    if to <= k < to + s.W {
      CellSplits(Cell(plane, s.Rows(), h), s.Width(), k - to);
      CellSplits(plane, s.Rows(), h);
    }
    if IsCovered(s, k) && SourceLine(s, k) == Cell(plane, s.H, h) {
      CellSplits(plane, s.H, h);
      CellSplits(Line(row, s.Rows()), s.H, Column(row, s.Rows()));
      SplitIsCell(row, s.Rows());
      SplitIsCell(k, s.Width());
    }
  }

  lemma TileRowAdvances(s: Shape, data: seq<Half>, before: seq<Half>, after: seq<Half>, plane: nat, h: nat)
    requires s.Fits() && |data| == s.DataSize() && h < s.H
    requires IsTiledUpTo(s, data, before, Cell(plane, s.H, h))
    requires IsCopied(
      data, Cell(Cell(plane, s.H, h), s.W, 0), before, after, Cell(Cell(plane, s.Rows(), h), s.Width(), 0), s.W)
    ensures IsTiledUpTo(s, data, after, Cell(plane, s.H, h) + 1)
  {
    forall k | 0 <= k < |after|
      ensures after[k] == if SourceLine(s, k) < Cell(plane, s.H, h) + 1 then TiledAt(s, data, k) else 0
    {
      RowHolds(s, plane, h, k);
    }
  }

  lemma UntileRowAdvances(s: Shape, tile: seq<Half>, before: seq<Half>, after: seq<Half>, plane: nat, h: nat)
    requires s.Fits() && |tile| == s.TileSize() && h < s.H
    requires IsUntiledUpTo(s, tile, before, Cell(plane, s.H, h))
    requires IsCopied(
      tile, Cell(Cell(plane, s.Rows(), h), s.Width(), 0), before, after, Cell(Cell(plane, s.H, h), s.W, 0), s.W)
    ensures IsUntiledUpTo(s, tile, after, Cell(plane, s.H, h) + 1)
  {
    var line := Cell(plane, s.H, h);
    CellSplits(plane, s.H, h);
    forall j | 0 <= j < |after|
      ensures after[j] == if Line(j, s.W) < line + 1 then UntiledAt(s, tile, j) else 0
    {
      LineIsInside(j, s.N * s.C * s.H, s.W);
      SplitIsCell(j, s.W);
      var from := Cell(line, s.W, 0);
      if from <= j < from + s.W {
        CellSplits(line, s.W, j - from);
      }
    }
  }

  /** Both copies of a line stay inside their buffers. */
  lemma LineFits(s: Shape, n: nat, c: nat, h: nat)
    requires s.Fits() && n < s.N && c < s.C && h < s.H
    ensures Cell(Cell(Cell(n, s.C, c), s.H, h), s.W, 0) + s.W <= s.DataSize()
    ensures Cell(Cell(Cell(n, s.C, c), s.Rows(), h), s.Width(), 0) + s.W <= s.TileSize()
  {
    var plane := Cell(n, s.C, c);
    CellIsInside(n, s.N, s.C, c);
    CellIsInside(plane, s.N * s.C, s.H, h);
    CellIsInside(plane, s.N * s.C, s.Rows(), h);
    LinesAreApart(Cell(plane, s.H, h), s.N * s.C * s.H, s.W);
    LinesAreApart(Cell(plane, s.Rows(), h), s.N * s.C * s.Rows(), s.Width());
  }

  lemma TiledUpToEnd(s: Shape, data: seq<Half>, tile: seq<Half>)
    requires s.Fits() && |data| == s.DataSize()
    requires IsTiledUpTo(s, data, tile, Cell(Cell(s.N, s.C, 0), s.H, 0))
    ensures IsTiled(s, data, tile)
  {
    forall k | 0 <= k < |tile|
      ensures tile[k] == TiledAt(s, data, k)
    {
      if IsCovered(s, k) {
        var row := Line(k, s.Width());
        LineIsInside(k, s.N * s.C * s.Rows(), s.Width());
        LineIsInside(row, s.N * s.C, s.Rows());
        CellIsInside(Line(row, s.Rows()), s.N * s.C, s.H, Column(row, s.Rows()));
      }
    }
  }

  lemma UntiledUpToEnd(s: Shape, tile: seq<Half>, data: seq<Half>)
    requires s.Fits() && |tile| == s.TileSize()
    requires IsUntiledUpTo(s, tile, data, Cell(Cell(s.N, s.C, 0), s.H, 0))
    ensures IsUntiled(s, tile, data)
  {
    forall j | 0 <= j < |data|
      ensures data[j] == UntiledAt(s, tile, j)
    {
      LineIsInside(j, s.N * s.C * s.H, s.W);
    }
  }

  /** Without padding both layouts are the plain copy. */
  lemma DenseTileIsCopy(s: Shape, data: seq<Half>)
    requires s.Fits() && s.Rows() == s.H && s.Width() == s.W && |data| == s.DataSize()
    ensures s.TileSize() == s.DataSize() && IsTiled(s, data, data) && IsUntiled(s, data, data)
  {
    forall k | 0 <= k < |data|
      ensures data[k] == TiledAt(s, data, k) && data[k] == UntiledAt(s, data, k)
    {
      LineIsInside(k, s.N * s.C * s.H, s.W);
      LineIsInside(Line(k, s.W), s.N * s.C, s.H);
      SplitIsCell(Line(k, s.W), s.H);
      SplitIsCell(k, s.W);
    }
  }

  method Clear(target: array<Half>)
    modifies target
    ensures forall k :: 0 <= k < target.Length ==> target[k] == 0
  {
    for i := 0 to target.Length
      invariant forall k :: 0 <= k < i ==> target[k] == 0
    {
      target[i] := 0;
    }
  }

  method Tile(s: Shape, data: array<Half>, tile: array<Half>)
    requires s.Fits() && data.Length == s.DataSize() && tile.Length == s.TileSize() && data != tile
    modifies tile
    ensures IsTiled(s, data[..], tile[..])
  {
    var newH, newW := s.P / s.R, s.R / 2;
    if newH == s.H && newW == s.W {
      CopyRow(data, 0, tile, 0, tile.Length);
      DenseTileIsCopy(s, data[..]);
      assert tile[..] == data[..];
      return;
    }
    Clear(tile);
    for n := 0 to s.N
      invariant IsTiledUpTo(s, data[..], tile[..], Cell(Cell(n, s.C, 0), s.H, 0))
    {
      for c := 0 to s.C
        invariant IsTiledUpTo(s, data[..], tile[..], Cell(Cell(n, s.C, c), s.H, 0))
      {
        for h := 0 to s.H
          invariant IsTiledUpTo(s, data[..], tile[..], Cell(Cell(n, s.C, c), s.H, h))
        {
          TileRow(s, data, tile, n, c, h);
        }
        LineEnds(Cell(n, s.C, c), s.H);
      }
      LineEnds(n, s.C);
    }
    TiledUpToEnd(s, data[..], tile[..]);
  }

  method TileRow(s: Shape, data: array<Half>, tile: array<Half>, n: nat, c: nat, h: nat)
    requires s.Fits() && data.Length == s.DataSize() && tile.Length == s.TileSize() && data != tile
    requires n < s.N && c < s.C && h < s.H
    requires IsTiledUpTo(s, data[..], tile[..], Cell(Cell(n, s.C, c), s.H, h))
    modifies tile
    ensures IsTiledUpTo(s, data[..], tile[..], Cell(Cell(n, s.C, c), s.H, h) + 1)
  {
    var newH, newW := s.P / s.R, s.R / 2;
    LineFits(s, n, c, h);
    OffsetIsCell(n, s.C, c, s.H, h, s.W);
    OffsetIsCell(n, s.C, c, newH, h, newW);
    ghost var before := tile[..];
    CopyRow(
      data, n * (s.C * s.H * s.W) + c * (s.H * s.W) + h * s.W,
      tile, n * (s.C * newH * newW) + c * (newH * newW) + h * newW, s.W);
    TileRowAdvances(s, data[..], before, tile[..], Cell(n, s.C, c), h);
  }

  method Untile(s: Shape, data: array<Half>, tile: array<Half>)
    requires s.Fits() && data.Length == s.DataSize() && tile.Length == s.TileSize() && data != tile
    modifies data
    ensures IsUntiled(s, tile[..], data[..])
  {
    var newH, newW := s.P / s.R, s.R / 2;
    if newH == s.H && newW == s.W {
      CopyRow(tile, 0, data, 0, data.Length);
      DenseTileIsCopy(s, tile[..]);
      assert data[..] == tile[..];
      return;
    }
    Clear(data);
    for n := 0 to s.N
      invariant IsUntiledUpTo(s, tile[..], data[..], Cell(Cell(n, s.C, 0), s.H, 0))
    {
      for c := 0 to s.C
        invariant IsUntiledUpTo(s, tile[..], data[..], Cell(Cell(n, s.C, c), s.H, 0))
      {
        for h := 0 to s.H
          invariant IsUntiledUpTo(s, tile[..], data[..], Cell(Cell(n, s.C, c), s.H, h))
        {
          UntileRow(s, data, tile, n, c, h);
        }
        LineEnds(Cell(n, s.C, c), s.H);
      }
      LineEnds(n, s.C);
    }
    UntiledUpToEnd(s, tile[..], data[..]);
  }

  method UntileRow(s: Shape, data: array<Half>, tile: array<Half>, n: nat, c: nat, h: nat)
    requires s.Fits() && data.Length == s.DataSize() && tile.Length == s.TileSize() && data != tile
    requires n < s.N && c < s.C && h < s.H
    requires IsUntiledUpTo(s, tile[..], data[..], Cell(Cell(n, s.C, c), s.H, h))
    modifies data
    ensures IsUntiledUpTo(s, tile[..], data[..], Cell(Cell(n, s.C, c), s.H, h) + 1)
  {
    var newH, newW := s.P / s.R, s.R / 2;
    LineFits(s, n, c, h);
    OffsetIsCell(n, s.C, c, s.H, h, s.W);
    OffsetIsCell(n, s.C, c, newH, h, newW);
    ghost var before := data[..];
    CopyRow(
      tile, n * (s.C * newH * newW) + c * (newH * newW) + h * newW,
      data, n * (s.C * s.H * s.W) + c * (s.H * s.W) + h * s.W, s.W);
    UntileRowAdvances(s, tile[..], before, data[..], Cell(n, s.C, c), h);
  }

  // What the layouts promise

  /** Untiling a tiled surface gives every halfword back. */
  lemma UntilingIsInverse(s: Shape, data: seq<Half>, tile: seq<Half>, back: seq<Half>)
    requires s.Fits() && |data| == s.DataSize() && IsTiled(s, data, tile) && IsUntiled(s, tile, back)
    ensures back == data
  {
    forall j | 0 <= j < |data|
      ensures back[j] == data[j]
    {
      TileIsInside(s, j);
      TileIndexReturns(s, j);
      assert back[j] == tile[TileIndex(s, j)];
    }
  }

  /** Tiling what was untiled gives the tile back exactly when its padding is zero. */
  lemma TilingIsInverseIff(s: Shape, tile: seq<Half>, data: seq<Half>, again: seq<Half>)
    requires s.Fits() && |tile| == s.TileSize() && IsUntiled(s, tile, data) && IsTiled(s, data, again)
    ensures again == tile <==> forall k :: 0 <= k < |tile| && !IsCovered(s, k) ==> tile[k] == 0
  {
    forall k | 0 <= k < |tile|
      ensures again[k] == if IsCovered(s, k) then tile[k] else 0
    {
      if IsCovered(s, k) {
        SourceIsInside(s, k);
        SourceIndexReturns(s, k);
        assert data[SourceIndex(s, k)] == tile[TileIndex(s, SourceIndex(s, k))];
      }
    }
  }

  /** The element at (n, c, h, w) of the dense surface is at the same coordinates of the padded one. */
  lemma ElementsKeepCoordinates(s: Shape, data: seq<Half>, tile: seq<Half>, n: nat, c: nat, h: nat, w: nat)
    requires s.Fits() && |data| == s.DataSize() && IsTiled(s, data, tile)
    requires n < s.N && c < s.C && h < s.Rows() && w < s.Width()
    ensures var k := Cell(Cell(Cell(n, s.C, c), s.Rows(), h), s.Width(), w);
            var j := Cell(Cell(Cell(n, s.C, c), s.H, h), s.W, w);
            && k < |tile|
            && (h < s.H && w < s.W ==> j < |data| && tile[k] == data[j])
            && (!(h < s.H && w < s.W) ==> tile[k] == 0)
  {
    var plane := Cell(n, s.C, c);
    CellIsInside(n, s.N, s.C, c);
    CellIsInside(plane, s.N * s.C, s.Rows(), h);
    CellIsInside(Cell(plane, s.Rows(), h), s.N * s.C * s.Rows(), s.Width(), w);
    CellSplits(plane, s.Rows(), h);
    CellSplits(Cell(plane, s.Rows(), h), s.Width(), w);
    if h < s.H && w < s.W {
      SourceIsInside(s, Cell(Cell(plane, s.Rows(), h), s.Width(), w));
    }
  }

  /** The bytes a tile takes: the byte count both functions clear or copy. */
  lemma TileBytes(s: Shape)
    requires s.Fits()
    ensures 2 * s.TileSize() == s.N * s.C * s.P
  {
    var rows, width := s.Rows(), s.Width();
    assert rows * s.R == s.P && 2 * width == s.R;
    assert 2 * (s.N * s.C * rows * width) == s.N * s.C * (rows * (2 * width));
  }
}
