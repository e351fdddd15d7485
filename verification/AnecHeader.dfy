/** The ANEC header: the converter derives strides and writes it, the probe reads
    the surfaces back out of it. */
module AnecHeader {
  import opened StructPacking
  import opened Words

  const TILE_UNIT := 0x200
  const TILE_SIZE := 0x4000
  const SLOTS := 32

  datatype Shape = Shape(n: int, channels: int, height: int, width: int)

  datatype Section = Section(address: nat, size: nat)

  datatype Strides = Strides(plane: int, row: int)

  datatype TileDMA = TileDMA(sourceRun: nat, sourceTotal: nat, destRun: nat, destTotal: nat)

  datatype Image = Image(
    contentSize: nat, taskStreamSize: nat, tdCount: nat, tdSize: nat, kernelSize: nat, workspaceSize: nat,
    inputSize: nat, outputSize: nat, inputs: seq<Section>, outputs: seq<Section>, dma: TileDMA)

  // ---- strides ----

  function PaddedStrides(height: int, width: int): (r: Result<Strides>) {
    if height < 1 || width < 1 then Err(ValueError)
    else
      var padded := (width * 2 + 0x3F) / 0x40 * 0x40;
      var row := if padded < 0x40 then 0x40 else padded;
      Ok(Strides(height * row, row))
  }

  /** A padded row is the least positive multiple of 64 bytes that holds the width, and a plane is all its rows. */
  lemma PaddedRowIsLeast(height: int, width: int)
    ensures PaddedStrides(height, width).Ok? <==> height >= 1 && width >= 1
    ensures PaddedStrides(height, width).Ok? ==>
              var s := PaddedStrides(height, width).value;
              s.row % 64 == 0 && 2 * width <= s.row < 2 * width + 64 && s.plane == height * s.row
  {
  }

  /** The plane stride the task's own byte counts account for, if they do. */
  function AccountedPlane(shape: Shape, total: int, run: int): (plane: int)
    ensures plane >= 0
  {
    var planes := shape.n * shape.channels;
    if total <= 0 || run <= 0 || planes <= 0 || shape.height <= 0 || total % run != 0 then 0
    else
      var rows := total / run;
      var plane := if rows == planes then run else if rows == 1 && total % planes == 0 then total / planes else 0;
      if plane <= 0 || plane % shape.height != 0 || plane < shape.width * 2 then 0 else plane
  }

  function DeriveStrides(shape: Shape, total: int, run: int): (r: Result<Strides>) {
    var fallback :- PaddedStrides(shape.height, shape.width);
    var plane := AccountedPlane(shape, total, run);
    if plane == 0 then Ok(fallback) else Ok(Strides(plane, plane / shape.height))
  }

  lemma DivideExactly(a: int, b: int)
    requires b > 0 && a % b == 0
    ensures a / b * b == a
  {
  }

  /** Planes are whole rows, and one plane holds at least one row of halfwords. */
  lemma StridesAreConsistent(shape: Shape, total: int, run: int)
    requires DeriveStrides(shape, total, run).Ok?
    ensures var s := DeriveStrides(shape, total, run).value;
            s.plane == s.row * shape.height && s.plane >= 2 * shape.width && s.row >= 0
  {
    var s := DeriveStrides(shape, total, run).value;
    if AccountedPlane(shape, total, run) != 0 {
      DivideExactly(s.plane, shape.height);
    } else {
      RowsFill(shape.height, s.row);
    }
  }

  lemma RowsFill(height: int, row: int)
    requires height >= 1 && row >= 0
    ensures height * row >= row && height * row == row * height
  {
  }

  /** Strides taken from the task cover its transfer to the byte. */
  lemma AccountedCoversTransfer(shape: Shape, total: int, run: int)
    requires DeriveStrides(shape, total, run).Ok? && AccountedPlane(shape, total, run) != 0
    ensures shape.n * shape.channels * DeriveStrides(shape, total, run).value.plane == total
  {
    var planes := shape.n * shape.channels;
    if total / run == planes {
      DivideExactly(total, run);
    } else {
      DivideExactly(total, planes);
    }
  }

  /** The task accounts for a plane exactly when all planes together are the transfer, one plane or all of them were
      moved in a run, and the plane is whole rows that hold one row's halfwords at least. */
  lemma AccountedPlaneIff(shape: Shape, total: int, run: int, plane: int)
    requires plane != 0
    ensures AccountedPlane(shape, total, run) == plane <==>
            && total > 0 && run > 0 && plane > 0 && shape.n * shape.channels > 0 && shape.height > 0
            && total == shape.n * shape.channels * plane && (run == plane || run == total)
            && plane % shape.height == 0 && plane >= 2 * shape.width
  {
    var planes := shape.n * shape.channels;
    if total > 0 && run > 0 && planes > 0 && plane > 0 {
      if run == total && total == planes * plane {
        QuotientIs(total, 1, run);
        TimesCommutes(planes, plane);
        QuotientIs(total, plane, planes);
      }
      if run == plane && total == planes * plane {
        QuotientIs(total, planes, run);
      }
      if AccountedPlane(shape, total, run) == plane {
        DivideExactly(total, run);
        if total / run != planes {
          DivideExactly(total, planes);
        }
      }
    }
  }

  lemma QuotientIs(a: int, q: int, b: int)
    requires b > 0 && a == q * b
    ensures a / b == q && a % b == 0
  {
    var r, left := a / b, a % b;
    Difference(q, r, b);
    if r < q {
      AtLeastOnce(q - r, b);
    } else if q < r {
      AtLeastOnce(r - q, b);
    }
  }

  lemma Difference(q: int, r: int, b: int)
    ensures q * b - r * b == (q - r) * b == -((r - q) * b)
  {
  }

  lemma AtLeastOnce(k: int, b: int)
    requires k >= 1 && b > 0
    ensures k * b >= b
  {
    assert (k - 1) * b >= 0;
  }

  /** Each row has room for its halfwords if and only if the strides fall back or the transfer holds all
      halfwords of the shape: the width test asks for one row's worth only. */
  lemma RowsHoldWidthIff(shape: Shape, total: int, run: int)
    requires DeriveStrides(shape, total, run).Ok?
    ensures DeriveStrides(shape, total, run).value.row >= 2 * shape.width <==>
            || AccountedPlane(shape, total, run) == 0
            || total >= shape.n * shape.channels * (2 * shape.width * shape.height)
  {
    var s := DeriveStrides(shape, total, run).value;
    if AccountedPlane(shape, total, run) != 0 {
      var planes := shape.n * shape.channels;
      StridesAreConsistent(shape, total, run);
      AccountedCoversTransfer(shape, total, run);
      Scaled(s.row, 2 * shape.width, shape.height);
      Scaled(s.plane, 2 * shape.width * shape.height, planes);
      TimesCommutes(planes, s.plane);
      TimesCommutes(planes, 2 * shape.width * shape.height);
    }
  }

  lemma TimesCommutes(a: int, b: int)
    ensures a * b == b * a
  {
  }

  lemma Scaled(a: int, b: int, h: int)
    requires h >= 1
    ensures a >= b <==> a * h >= b * h
  {
    if a >= b {
      assert (a - b) * h >= 0;
    } else {
      assert (b - a) * h >= 1;
    }
  }

  /** Two rows of 64 halfwords in a 128-byte plane pass the test with 64-byte rows. */
  lemma NarrowRowsAreAccepted()
    ensures DeriveStrides(Shape(1, 1, 2, 64), 128, 128) == Ok(Strides(128, 64))
  {
  }

  // ---- writing the header ----

  function Tiles(bytes: int): int {
    (bytes + TILE_UNIT - 1) / TILE_UNIT
  }

  /** Tile count of a surface buffer: at least one tile, section and shape both covered. */
  function SurfaceTiles(size: int, shape: Shape, plane: int): int {
    var shapeBytes := shape.n * shape.channels * plane;
    var tiles := Tiles(if size >= shapeBytes then size else shapeBytes);
    if tiles < 1 then 1 else tiles
  }

  function SixOf(shape: Shape, s: Strides): (six: seq<int>)
    ensures |six| == 6
  {
    [shape.n, shape.channels, shape.height, shape.width, s.plane, s.row]
  }

  /** A missing section list stands for one section with the whole span. */
  function SectionSizes(sections: seq<Section>, whole: nat): (sizes: seq<nat>)
    ensures |sizes| == if sections == [] then 1 else |sections|
    ensures forall i :: 0 <= i < |sections| ==> sizes[i] >= sections[i].size
    ensures |sizes| == 1 ==> sizes[0] >= whole
  {
    if sections == [] then [whole]
    else if |sections| == 1 then [if sections[0].size >= whole then sections[0].size else whole]
    else seq(|sections|, i requires 0 <= i < |sections| => sections[i].size)
  }

  /** The six words of one surface slot. */
  function SlotWords(nchw: seq<int>, bdx: nat): (six: seq<int>)
    requires 6 * bdx + 6 <= |nchw|
    ensures |six| == 6
  {
    nchw[6 * bdx..6 * bdx + 6]
  }

  function WriteSlot(nchw: seq<int>, bdx: nat, six: seq<int>): (r: seq<int>)
    requires 6 * bdx + 6 <= |nchw| && |six| == 6
    ensures |r| == |nchw| && SlotWords(r, bdx) == six
    ensures forall other :: other != bdx && 0 <= other && 6 * other + 6 <= |nchw| ==>
        SlotWords(r, other) == SlotWords(nchw, other)
  {
    var r := seq(|nchw|, k requires 0 <= k < |nchw| =>
      if 6 * bdx <= k < 6 * bdx + 6 then six[k - 6 * bdx] else nchw[k]);
    assert SlotWords(r, bdx) == six;
    assert forall other :: other != bdx && 0 <= other && 6 * other + 6 <= |nchw| ==>
      SlotWords(r, other) == SlotWords(nchw, other);
    r
  }

  datatype Tables = Tables(tiles: seq<int>, nchw: seq<int>)

  ghost predicate Sized(t: Tables) {
    |t.tiles| == SLOTS && |t.nchw| == 6 * SLOTS
  }

  /** Slots first.. of the tables describe these surfaces. */
  ghost predicate Describes(t: Tables, first: nat, n: nat, sizes: seq<nat>, shape: Shape, s: Strides)
    requires Sized(t) && n <= |sizes| && first + |sizes| <= SLOTS
  {
    forall i :: 0 <= i < n ==>
      t.tiles[first + i] == SurfaceTiles(sizes[i], shape, s.plane) && SlotWords(t.nchw, first + i) == SixOf(shape, s)
  }

  /** One of the two surface loops. */
  method WriteSurfaces(before: Tables, first: nat, sizes: seq<nat>, shape: Shape, s: Strides) returns (t: Tables)
    requires Sized(before) && first + |sizes| <= SLOTS
    ensures Sized(t) && Describes(t, first, |sizes|, sizes, shape, s)
    ensures forall bdx :: 0 <= bdx < SLOTS && !(first <= bdx < first + |sizes|) ==>
              t.tiles[bdx] == before.tiles[bdx] && SlotWords(t.nchw, bdx) == SlotWords(before.nchw, bdx)
  {
    t := before;
    for i := 0 to |sizes|
      invariant Sized(t) && Describes(t, first, i, sizes, shape, s)
      invariant forall bdx :: 0 <= bdx < SLOTS && !(first <= bdx < first + i) ==>
                  t.tiles[bdx] == before.tiles[bdx] && SlotWords(t.nchw, bdx) == SlotWords(before.nchw, bdx)
    {
      t := Tables(
        t.tiles[first + i := SurfaceTiles(sizes[i], shape, s.plane)],
        WriteSlot(t.nchw, first + i, SixOf(shape, s)));
    }
  }

  lemma StillDescribed(before: Tables, after: Tables, first: nat, sizes: seq<nat>, shape: Shape, s: Strides)
    requires Sized(before) && Sized(after) && first + |sizes| <= SLOTS
    requires Describes(before, first, |sizes|, sizes, shape, s)
    requires forall bdx :: first <= bdx < first + |sizes| ==>
               after.tiles[bdx] == before.tiles[bdx] && SlotWords(after.nchw, bdx) == SlotWords(before.nchw, bdx)
    ensures Describes(after, first, |sizes|, sizes, shape, s)
  {
    forall i | 0 <= i < |sizes|
      ensures after.tiles[first + i] == SurfaceTiles(sizes[i], shape, s.plane)
      ensures SlotWords(after.nchw, first + i) == SixOf(shape, s)
    {
      var bdx := first + i;
      assert after.tiles[bdx] == before.tiles[bdx];
      assert SlotWords(after.nchw, bdx) == SlotWords(before.nchw, bdx);
      assert before.tiles[first + i] == SurfaceTiles(sizes[i], shape, s.plane);
      assert SlotWords(before.nchw, first + i) == SixOf(shape, s);
    }
  }

  function Widths(): (w: seq<nat>)
    ensures |w| == 7 + SLOTS + 6 * SLOTS
  {
    [8, 4, 4, 8, 8, 4, 4] + seq(SLOTS, _ => 4) + seq(6 * SLOTS, _ => 8)
  }

  /** The header values: outputs in the slots from 4 on, inputs behind them. */
  ghost predicate IsHeader(
    image: Image, input: Shape, output: Shape, ins: Strides, outs: Strides, tdSize: int, values: seq<int>)
  {
    var inSizes, outSizes := SectionSizes(image.inputs, image.inputSize), SectionSizes(image.outputs, image.outputSize);
    && |inSizes| + |outSizes| <= 28 && |values| == |Widths()|
    && values[..7] ==
      [image.contentSize, tdSize, image.tdCount, image.taskStreamSize, image.kernelSize, |inSizes|, |outSizes|]
    && var t := Tables(values[7..7 + SLOTS], values[7 + SLOTS..]);
       && t.tiles[0] == Tiles(image.contentSize) && t.tiles[3] == Tiles(image.workspaceSize)
       && Describes(t, 4, |outSizes|, outSizes, output, outs)
       && Describes(t, 4 + |outSizes|, |inSizes|, inSizes, input, ins)
  }

  /** The descriptor size field: clamped unless the caller overrides it. */
  function TdSizeField(image: Image, override': int, overridden: bool): int {
    if overridden then override' else if image.tdSize < 0x1F8 then image.tdSize else 0x1F8
  }

  predicate PortsFit(image: Image) {
    |SectionSizes(image.inputs, image.inputSize)| + |SectionSizes(image.outputs, image.outputSize)| <= 28
  }

  method HeaderValues(image: Image, input: Shape, output: Shape, ins: Strides, outs: Strides, tdSize: int)
    returns (r: Result<seq<int>>)
    ensures r.Ok? ==> IsHeader(image, input, output, ins, outs, tdSize, r.value)
    ensures if PortsFit(image) then r.Ok? else r == Err(ValueError)
  {
    var inSizes, outSizes := SectionSizes(image.inputs, image.inputSize), SectionSizes(image.outputs, image.outputSize);
    if |inSizes| + |outSizes| > 28 {
      return Err(ValueError);
    }
    var tiles: seq<int> := seq(SLOTS, _ => 0);
    tiles := tiles[0 := Tiles(image.contentSize)][3 := Tiles(image.workspaceSize)];
    var t := WriteSurfaces(Tables(tiles, seq(6 * SLOTS, _ => 0)), 4, outSizes, output, outs);
    ghost var outputsOnly := t;
    t := WriteSurfaces(t, 4 + |outSizes|, inSizes, input, ins);
    StillDescribed(outputsOnly, t, 4, outSizes, output, outs);
    var fields := [
      image.contentSize, tdSize, image.tdCount, image.taskStreamSize, image.kernelSize, |inSizes|, |outSizes|];
    var values := fields + t.tiles + t.nchw;
    assert values[..7] == fields && values[7..7 + SLOTS] == t.tiles && values[7 + SLOTS..] == t.nchw;
    assert Tables(t.tiles, t.nchw) == t;
    r := Ok(values);
  }

  /** A header is written only when both stride derivations succeed, the ports fit and
      every value fits its field; then it packs the values described above. */
  method BuildHeader(image: Image, input: Shape, output: Shape, override': int, overridden: bool)
    returns (r: Result<seq<Byte>>, values: seq<int>)
    ensures var ins := DeriveStrides(input, image.dma.sourceTotal, image.dma.sourceRun);
            var outs := DeriveStrides(output, image.dma.destTotal, image.dma.destRun);
            if ins.Err? || outs.Err? || !PortsFit(image) then r == Err(ValueError)
            else
              && IsHeader(
                   image, input, output, ins.value, outs.value, TdSizeField(image, override', overridden), values)
              && r == PackFields(Widths(), values)
  {
    values := [];
    var ins := DeriveStrides(input, image.dma.sourceTotal, image.dma.sourceRun);
    if ins.Err? {
      return Err(ins.fault), values;
    }
    var outs := DeriveStrides(output, image.dma.destTotal, image.dma.destRun);
    if outs.Err? {
      return Err(outs.fault), values;
    }
    var built := HeaderValues(image, input, output, ins.value, outs.value, TdSizeField(image, override', overridden));
    if built.Err? {
      return Err(built.fault), values;
    }
    values := built.value;
    r := PackFields(Widths(), built.value);
  }

  // ---- reading it back ----

  datatype Surface = Surface(bdx: nat, bytes: int, nchw: seq<int>)

  datatype Stage = Stage(
    contentSize: int, tdSize: int, tdCount: int, taskStreamSize: int, kernelSize: int,
    workspaceSize: int, inputs: seq<Surface>, outputs: seq<Surface>)

  /** Python's tiles[bdx] and nchw[bdx * 6:bdx * 6 + 6]: an index past the table raises. */
  function SurfacesFrom(tiles: seq<int>, nchw: seq<int>, first: nat, n: nat): (r: seq<Surface>)
    requires first + n <= |tiles| && 6 * (first + n) <= |nchw|
    ensures |r| == n
    ensures forall i :: 0 <= i < n ==>
              r[i] == Surface(first + i, tiles[first + i] * TILE_SIZE, SlotWords(nchw, first + i))
  {
    seq(n, i requires 0 <= i < n => Surface(first + i, tiles[first + i] * TILE_SIZE, SlotWords(nchw, first + i)))
  }

  function StageGeometry(values: seq<int>): (r: Result<Stage>)
    requires |values| == 7 + SLOTS + 6 * SLOTS
  {
    var src, dst := values[5], values[6];
    if src < 0 || dst < 0 || 4 + dst + src > SLOTS then Err(ValueError)
    else
      var tiles, nchw := values[7..7 + SLOTS], values[7 + SLOTS..];
      Ok(Stage(
        values[0], values[1], values[2], values[3], values[4], tiles[3] * TILE_SIZE,
        SurfacesFrom(tiles, nchw, 4 + dst, src), SurfacesFrom(tiles, nchw, 4, dst)))
  }

  /** The surface has its own slot, its own shape and strides, and room for its section and its planes. */
  ghost predicate Covers(surface: Surface, bdx: nat, size: int, shape: Shape, s: Strides) {
    && surface.bdx == bdx && surface.nchw == SixOf(shape, s)
    && surface.bytes >= size && surface.bytes >= shape.n * shape.channels * s.plane
  }

  lemma TilesCover(bytes: int, tiles: int)
    requires tiles >= Tiles(bytes) && tiles >= 1
    ensures tiles * TILE_SIZE >= bytes
  {
  }

  lemma SurfaceCovers(size: nat, shape: Shape, s: Strides, bdx: nat, surface: Surface)
    requires surface == Surface(bdx, SurfaceTiles(size, shape, s.plane) * TILE_SIZE, SixOf(shape, s))
    ensures Covers(surface, bdx, size, shape, s)
  {
    var shapeBytes := shape.n * shape.channels * s.plane;
    TilesCover(if size >= shapeBytes then size else shapeBytes, SurfaceTiles(size, shape, s.plane));
  }

  lemma SurfacesCover(t: Tables, first: nat, sizes: seq<nat>, shape: Shape, s: Strides)
    requires Sized(t) && first + |sizes| <= SLOTS && Describes(t, first, |sizes|, sizes, shape, s)
    ensures forall i :: 0 <= i < |sizes| ==>
              Covers(SurfacesFrom(t.tiles, t.nchw, first, |sizes|)[i], first + i, sizes[i], shape, s)
  {
    forall i | 0 <= i < |sizes|
      ensures Covers(SurfacesFrom(t.tiles, t.nchw, first, |sizes|)[i], first + i, sizes[i], shape, s)
    {
      SurfaceCovers(sizes[i], shape, s, first + i, SurfacesFrom(t.tiles, t.nchw, first, |sizes|)[i]);
    }
  }

  /** Reading a written header returns the scalar fields, and every surface in a slot of
      its own, outputs from slot 4 on and inputs behind them, with a covering buffer. */
  lemma HeaderReadsBack(
    image: Image, input: Shape, output: Shape, ins: Strides, outs: Strides, tdSize: int, values: seq<int>,
    bytes: seq<Byte>)
    requires IsHeader(image, input, output, ins, outs, tdSize, values) && PackFields(Widths(), values) == Ok(bytes)
    ensures |bytes| == Size(Widths()) && StageGeometry(UnpackFields(Widths(), bytes)).Ok?
    ensures var stage := StageGeometry(UnpackFields(Widths(), bytes)).value;
            var inSizes, outSizes :=
              SectionSizes(image.inputs, image.inputSize), SectionSizes(image.outputs, image.outputSize);
            && stage.contentSize == image.contentSize && stage.tdSize == tdSize && stage.tdCount == image.tdCount
            && stage.taskStreamSize == image.taskStreamSize && stage.kernelSize == image.kernelSize
            && stage.workspaceSize >= image.workspaceSize
            && |stage.outputs| == |outSizes| && |stage.inputs| == |inSizes|
            && (forall i :: 0 <= i < |outSizes| ==> Covers(stage.outputs[i], 4 + i, outSizes[i], output, outs))
            && (forall i :: 0 <= i < |inSizes| ==>
                  Covers(stage.inputs[i], 4 + |outSizes| + i, inSizes[i], input, ins))
  {
    UnpackPacked(Widths(), values);
    ValuesReadBack(image, input, output, ins, outs, tdSize, values);
  }

  lemma ValuesReadBack(
    image: Image, input: Shape, output: Shape, ins: Strides, outs: Strides, tdSize: int, values: seq<int>)
    requires IsHeader(image, input, output, ins, outs, tdSize, values)
    ensures StageGeometry(values).Ok?
    ensures var stage := StageGeometry(values).value;
            var inSizes, outSizes :=
              SectionSizes(image.inputs, image.inputSize), SectionSizes(image.outputs, image.outputSize);
            && stage.contentSize == image.contentSize && stage.tdSize == tdSize && stage.tdCount == image.tdCount
            && stage.taskStreamSize == image.taskStreamSize && stage.kernelSize == image.kernelSize
            && stage.workspaceSize >= image.workspaceSize
            && |stage.outputs| == |outSizes| && |stage.inputs| == |inSizes|
            && (forall i :: 0 <= i < |outSizes| ==> Covers(stage.outputs[i], 4 + i, outSizes[i], output, outs))
            && (forall i :: 0 <= i < |inSizes| ==>
                  Covers(stage.inputs[i], 4 + |outSizes| + i, inSizes[i], input, ins))
  {
    var inSizes, outSizes := SectionSizes(image.inputs, image.inputSize), SectionSizes(image.outputs, image.outputSize);
    var head, t := values[..7], Tables(values[7..7 + SLOTS], values[7 + SLOTS..]);
    assert head[0] == values[0] && head[1] == values[1] && head[2] == values[2] && head[3] == values[3];
    assert head[4] == values[4] && head[5] == values[5] && head[6] == values[6];
    SurfacesCover(t, 4, outSizes, output, outs);
    SurfacesCover(t, 4 + |outSizes|, inSizes, input, ins);
  }

  /** When the task accounts for the strides, a covering buffer holds its whole transfer. */
  lemma BufferHoldsTransfer(surface: Surface, bdx: nat, size: int, shape: Shape, s: Strides, total: int, run: int)
    requires Covers(surface, bdx, size, shape, s) && DeriveStrides(shape, total, run) == Ok(s)
    ensures AccountedPlane(shape, total, run) != 0 ==> surface.bytes >= total == shape.n * shape.channels * s.plane
  {
    if AccountedPlane(shape, total, run) != 0 {
      AccountedCoversTransfer(shape, total, run);
    }
  }

  // ---- what stands where ----

  /** The tile count is the least one that covers section and shape with 0x200-byte tiles, and at least 1. */
  lemma SurfaceTilesAreLeast(size: int, shape: Shape, plane: int)
    ensures var t, shapeBytes := SurfaceTiles(size, shape, plane), shape.n * shape.channels * plane;
            && t >= 1 && 0x200 * t >= size && 0x200 * t >= shapeBytes
            && (t > 1 ==> 0x200 * (t - 1) < size || 0x200 * (t - 1) < shapeBytes)
  {
  }

  /** The section sizes, case by case: only a single section is stretched to the whole span. */
  lemma SectionSizesAre(sections: seq<Section>, whole: nat)
    ensures sections == [] ==> SectionSizes(sections, whole) == [whole]
    ensures |sections| == 1 ==>
              && |SectionSizes(sections, whole)| == 1
              && SectionSizes(sections, whole)[0] >= sections[0].size && SectionSizes(sections, whole)[0] >= whole
              && (SectionSizes(sections, whole)[0] == sections[0].size || SectionSizes(sections, whole)[0] == whole)
    ensures |sections| > 1 ==> forall i :: 0 <= i < |sections| ==> SectionSizes(sections, whole)[i] == sections[i].size
  {
  }

  /** The byte at which header value `i` starts. */
  function Offset(i: nat): nat {
    if i == 0 then 0 else if i == 1 then 8 else if i == 2 then 12 else if i == 3 then 16 else if i == 4 then 24
    else if i == 5 then 32 else if i == 6 then 36 else if i < 39 then 40 + 4 * (i - 7) else 168 + 8 * (i - 39)
  }

  lemma {:induction false} ValueStartsAt(i: nat)
    requires i <= 231
    ensures Size(Widths()[..i]) == Offset(i)
  {
    if i > 0 {
      ValueStartsAt(i - 1);
      SizeOfMore(Widths(), i - 1);
      assert Widths()[i - 1] == if i - 1 in {0, 3, 4} || 39 <= i - 1 then 8 else 4;
    }
  }

  lemma WidthOf(i: nat)
    requires i < 231
    ensures Widths()[i] == if i in {0, 3, 4} || 39 <= i then 8 else 4
  {
  }

  lemma HeaderSize()
    ensures Size(Widths()) == 1704
  {
    ValueStartsAt(231);
    assert Widths()[..231] == Widths();
  }

  /** The packed header: 4-byte fields are words at their offsets, 8-byte fields two words each. */
  lemma HeaderBytes(values: seq<int>, bytes: seq<Byte>, i: nat, at: nat)
    requires |values| == 231 && PackFields(Widths(), values) == Ok(bytes) && i < 231 && at == Offset(i)
    ensures |bytes| == 1704
    ensures if i in {0, 3, 4} || 39 <= i then
              at + 8 <= 1704 && DoubleWord(bytes, at) == values[i]
            else at + 4 <= 1704 && Word(bytes, at) == values[i]
  {
    HeaderSize();
    ValueStartsAt(i);
    WidthOf(i);
    PackedWords(Widths(), values, i, bytes, at);
  }

  lemma NarrowBytes(values: seq<int>, bytes: seq<Byte>, i: nat, at: nat)
    requires |values| == 231 && PackFields(Widths(), values) == Ok(bytes) && 7 <= i < 39 && at == Offset(i)
    ensures |bytes| == 1704 && at + 4 <= 1704 && Word(bytes, at) == values[i]
  {
    HeaderBytes(values, bytes, i, at);
  }

  lemma WideScalar(values: seq<int>, bytes: seq<Byte>, i: nat, at: nat)
    requires |values| == 231 && PackFields(Widths(), values) == Ok(bytes)
    requires (i == 0 && at == 0) || (i == 3 && at == 16) || (i == 4 && at == 24)
    ensures |bytes| == 1704 && DoubleWord(bytes, at) == values[i]
  {
    HeaderBytes(values, bytes, i, at);
  }

  lemma NarrowScalar(values: seq<int>, bytes: seq<Byte>, i: nat, at: nat)
    requires |values| == 231 && PackFields(Widths(), values) == Ok(bytes)
    requires (i == 1 && at == 8) || (i == 2 && at == 12) || (i == 5 && at == 32) || (i == 6 && at == 36)
    ensures |bytes| == 1704 && Word(bytes, at) == values[i]
  {
    HeaderBytes(values, bytes, i, at);
  }

  lemma ScalarsOf(
    image: Image, input: Shape, output: Shape, ins: Strides, outs: Strides, tdSize: int, values: seq<int>)
    requires IsHeader(image, input, output, ins, outs, tdSize, values)
    ensures |values| == 231
    ensures values[0] == image.contentSize && values[1] == tdSize && values[2] == image.tdCount
    ensures values[3] == image.taskStreamSize && values[4] == image.kernelSize
    ensures values[5] == |SectionSizes(image.inputs, image.inputSize)|
    ensures values[6] == |SectionSizes(image.outputs, image.outputSize)|
  {
    var head := values[..7];
    assert head[0] == values[0] && head[1] == values[1] && head[2] == values[2] && head[3] == values[3];
    assert head[4] == values[4] && head[5] == values[5] && head[6] == values[6];
  }

  /** A header's scalars stand at fixed bytes: the sizes of content, stream and kernel in eight each, ... */
  lemma WideScalarsAreLaidOut(
    image: Image, input: Shape, output: Shape, ins: Strides, outs: Strides, tdSize: int, values: seq<int>,
    bytes: seq<Byte>)
    requires IsHeader(image, input, output, ins, outs, tdSize, values) && PackFields(Widths(), values) == Ok(bytes)
    ensures |bytes| == 1704
    ensures DoubleWord(bytes, 0) == image.contentSize
    ensures DoubleWord(bytes, 16) == image.taskStreamSize
    ensures DoubleWord(bytes, 24) == image.kernelSize
  {
    ScalarsOf(image, input, output, ins, outs, tdSize, values);
    WideScalar(values, bytes, 0, 0);
    WideScalar(values, bytes, 3, 16);
    WideScalar(values, bytes, 4, 24);
  }

  /** ... and descriptor size, descriptor count and the two port counts in four. */
  lemma NarrowScalarsAreLaidOut(
    image: Image, input: Shape, output: Shape, ins: Strides, outs: Strides, tdSize: int, values: seq<int>,
    bytes: seq<Byte>)
    requires IsHeader(image, input, output, ins, outs, tdSize, values) && PackFields(Widths(), values) == Ok(bytes)
    ensures |bytes| == 1704 && Word(bytes, 8) == tdSize && Word(bytes, 12) == image.tdCount
    ensures Word(bytes, 32) == |SectionSizes(image.inputs, image.inputSize)|
    ensures Word(bytes, 36) == |SectionSizes(image.outputs, image.outputSize)|
  {
    ScalarsOf(image, input, output, ins, outs, tdSize, values);
    NarrowScalar(values, bytes, 1, 8);
    NarrowScalar(values, bytes, 2, 12);
    NarrowScalar(values, bytes, 5, 32);
    NarrowScalar(values, bytes, 6, 36);
  }

  /** The tile count of slot `bdx` stands at byte 40 + 4 bdx. */
  lemma TilesAreLaidOut(values: seq<int>, bytes: seq<Byte>, bdx: nat, i: nat, at: nat)
    requires |values| == 231 && PackFields(Widths(), values) == Ok(bytes) && bdx < SLOTS
    requires i == 7 + bdx && at == 40 + 4 * bdx
    ensures |bytes| == 1704 && Word(bytes, at) == values[7..39][bdx]
  {
    NarrowBytes(values, bytes, i, at);
    TileWordIs(values, bdx);
  }

  lemma TileWordIs(values: seq<int>, bdx: nat)
    requires |values| == 231 && bdx < SLOTS
    ensures values[7..39][bdx] == values[7 + bdx]
  {
  }

  /** Its shape and strides stand in six 8-byte fields from byte 168 + 48 bdx on. */
  lemma SlotIsLaidOut(values: seq<int>, bytes: seq<Byte>, bdx: nat, f: nat, at: nat)
    requires |values| == 231 && PackFields(Widths(), values) == Ok(bytes) && bdx < SLOTS && f < 6
    requires at == 168 + 48 * bdx + 8 * f
    ensures |bytes| == 1704 && at + 8 <= 1704
    ensures DoubleWord(bytes, at) == SlotWords(values[39..], bdx)[f]
  {
    HeaderBytes(values, bytes, 39 + (6 * bdx + f), at);
    SlotWordIs(values, bdx, f);
  }

  lemma SlotWordIs(values: seq<int>, bdx: nat, f: nat)
    requires |values| == 231 && bdx < SLOTS && f < 6
    ensures SlotWords(values[39..], bdx)[f] == values[39 + (6 * bdx + f)]
  {
  }

  /** The six fields of a surface, in order. */
  lemma SixAre(shape: Shape, s: Strides)
    ensures var six := SixOf(shape, s);
            && six[0] == shape.n && six[1] == shape.channels && six[2] == shape.height && six[3] == shape.width
            && six[4] == s.plane && six[5] == s.row
  {
  }

  /** The command tile count is the least one whose 0x200-byte tiles hold the content; the workspace's likewise. */
  lemma FixedTilesAreLeast(
    image: Image, input: Shape, output: Shape, ins: Strides, outs: Strides, tdSize: int, values: seq<int>)
    requires IsHeader(image, input, output, ins, outs, tdSize, values)
    ensures |values| == 231
    ensures image.contentSize <= 0x200 * values[7] < image.contentSize + 0x200
    ensures image.workspaceSize <= 0x200 * values[10] < image.workspaceSize + 0x200
  {
    TileWordIs(values, 0);
    TileWordIs(values, 3);
  }

  /** The written descriptor size: as large as the image's but never above 0x1F8, unless the caller says otherwise. */
  lemma TdSizeIsClamped(image: Image, override': int)
    ensures TdSizeField(image, override', true) == override'
    ensures var field := TdSizeField(image, override', false);
            field <= 0x1F8 && field <= image.tdSize && (field == 0x1F8 || field == image.tdSize)
  {
  }
}
