/** Tile products on the device: a fresh command for every call, and one program whose blob is rewritten. */
module TileGemm {
  import opened Vectors
  import opened WeightPacking
  import opened Words

  const OUTPUT: nat := 16384
  const TD_SIZE: nat := 314

  /** What the device reads at one submission. */
  datatype Submission<T> = Submission(command: seq<T>, source: seq<T>, descriptor: seq<T>)

  /** The engine: the output surface as a pure function of the submitted buffers. */
  type Engine<!T> = Submission<T> -> seq<T>

  function LayoutOf(inCols: nat): Layout {
    if inCols == 256 then NARROW else WIDE
  }

  /** The descriptor, cut off or padded up to the blob, and the blob. */
  function Command<T>(layout: Layout, descriptor: seq<T>, blob: seq<T>, zero: T): (command: seq<T>)
    ensures |command| == layout.offset + |blob|
  {
    seq(layout.offset, k requires 0 <= k => if k < |descriptor| then descriptor[k] else zero) + blob
  }

  /** The activation, one element every 32 halfwords. */
  function Source<T>(activation: seq<T>, zero: T): (source: seq<T>)
    ensures |source| == |activation| * 32
  {
    seq(|activation| * 32, k requires 0 <= k < |activation| * 32 => if k % 32 == 0 then activation[k / 32] else zero)
  }

  /** How numpy assigns an activation to n places: one element goes to all of them. */
  function Spread<T>(activation: seq<T>, n: nat): (x: seq<T>)
    ensures |activation| == 1 ==> |x| == n && forall i :: 0 <= i < n ==> x[i] == activation[0]
    ensures |activation| != 1 ==> x == activation
  {
    if |activation| == 1 then seq(n, _ => activation[0]) else activation
  }

  /** The 512 results, one every 32 halfwords. */
  function Results<T>(output: seq<T>): (results: seq<T>)
    requires |output| == OUTPUT
    ensures |results| == ROWS
  {
    seq(ROWS, i requires 0 <= i < ROWS => output[i * 32])
  }

  /** The zero-padded tile of a matrix at (row0, col0). */
  function Tile<T>(weights: Matrix<T>, columns: nat, row0: nat, col0: nat, inCols: nat, zero: T): (tile: Matrix<T>)
    requires IsMatrix(weights, |weights|, columns)
    ensures IsMatrix(tile, ROWS, inCols)
  {
    seq(ROWS, i requires 0 <= i => seq(inCols, j requires 0 <= j =>
      if row0 + i < |weights| && col0 + j < columns then weights[row0 + i][col0 + j] else zero))
  }

  /** What gemm and gemm512 submit for a tile. */
  function Fresh<T>(layout: Layout, descriptor: seq<T>, tile: Matrix<T>, activation: seq<T>, zero: T): Submission<T>
    requires layout.Valid() && IsMatrix(tile, ROWS, layout.columns)
  {
    Submission(Command(layout, descriptor, Packed(layout, tile, zero), zero), Source(activation, zero), descriptor)
  }

  /** A submission determines its tile and activation, so an engine can compute any function of the two. */
  lemma FreshIsInjective<T>(
    layout: Layout, descriptor: seq<T>, a: Matrix<T>, b: Matrix<T>, x: seq<T>, y: seq<T>, zero: T)
    requires layout.Valid() && IsMatrix(a, ROWS, layout.columns) && IsMatrix(b, ROWS, layout.columns)
    requires Fresh(layout, descriptor, a, x, zero) == Fresh(layout, descriptor, b, y, zero)
    ensures a == b && x == y
  {
    var left, right := Packed(layout, a, zero), Packed(layout, b, zero);
    forall k | 0 <= k < |left|
      ensures left[k] == right[k]
    {
      assert Command(layout, descriptor, left, zero)[layout.offset + k] == left[k];
      assert Command(layout, descriptor, right, zero)[layout.offset + k] == right[k];
    }
    assert left == right;
    PackingIsInjective(layout, a, b, zero);
    SourceIsInjective(x, y, zero);
  }

  lemma SourceIsInjective<T>(x: seq<T>, y: seq<T>, zero: T)
    requires Source(x, zero) == Source(y, zero)
    ensures x == y
  {
    forall j | 0 <= j < |x|
      ensures x[j] == y[j]
    {
      assert Source(x, zero)[j * 32] == x[j] && Source(y, zero)[j * 32] == y[j];
    }
  }

  ghost predicate GivesOutputs<T(!new)>(engine: Engine<T>) {
    forall s :: |engine(s)| == OUTPUT
  }

  /** The engine's results do not tell the two submissions apart. */
  ghost predicate SameResults<T(!new)>(engine: Engine<T>, a: Submission<T>, b: Submission<T>) {
    GivesOutputs(engine) ==> Results(engine(a)) == Results(engine(b))
  }

  /** Every engine gives the same results for two submissions if and only if they are the same: `one` and `other` are
      any two values an output can hold. */
  lemma EveryEngineAgreesIff<T(!new)>(a: Submission<T>, b: Submission<T>, one: T, other: T)
    requires one != other
    ensures (forall engine: Engine<T> :: SameResults(engine, a, b)) <==> a == b
  {
    if a != b {
      ghost var engine: Engine<T> := s => seq(OUTPUT, _ => if s == a then one else other);
      assert engine(a)[0] == one && engine(b)[0] == other;
      assert Results(engine(a))[0] == one && Results(engine(b))[0] == other;
      assert !SameResults(engine, a, b);
    }
  }

  /** Writes the activation into a reused source buffer. */
  method FillSource<T>(activation: seq<T>, zero: T, source: array<T>)
    requires source.Length == |activation| * 32
    modifies source
    ensures source[..] == Source(activation, zero)
  {
    Clear(source, zero);
    for j := 0 to |activation|
      invariant forall k :: 0 <= k < source.Length ==>
        source[k] == if k % 32 == 0 && k / 32 < j then activation[k / 32] else zero
    {
      source[j * 32] := activation[j];
    }
  }

  method CopyInto<T>(from: seq<T>, to: array<T>, at: nat)
    requires at + |from| <= to.Length
    modifies to
    ensures forall k :: 0 <= k < to.Length ==> to[k] == if at <= k < at + |from| then from[k - at] else old(to[k])
  {
    for i := 0 to |from|
      invariant forall k :: 0 <= k < to.Length ==> to[k] == if at <= k < at + i then from[k - at] else old(to[k])
    {
      to[at + i] := from[i];
    }
  }

  /** The command of a descriptor and a packed blob. */
  method BuildCommand<T>(layout: Layout, descriptor: seq<T>, packed: seq<T>, zero: T) returns (command: array<T>)
    requires layout.Valid() && |packed| == layout.size
    ensures fresh(command) && command[..] == Command(layout, descriptor, packed, zero)
  {
    command := new T[layout.offset + layout.size](_ => zero);
    CopyInto(if |descriptor| <= command.Length then descriptor else descriptor[..command.Length], command, 0);
    CopyInto(packed, command, layout.offset);
  }

  /** gemm and gemm512: everything built afresh for one product. */
  method Gemm<T(!new)>(
    engine: Engine<T>, zero: T, layout: Layout, weights: Matrix<T>, activation: seq<T>, descriptor: seq<T>)
    returns (r: Result<seq<T>>)
    requires layout.Valid() && GivesOutputs(engine)
    ensures if |activation| == layout.columns && IsMatrix(weights, ROWS, layout.columns) && |descriptor| >= TD_SIZE
            then r == Ok(Results(engine(Fresh(layout, descriptor, weights, activation, zero))))
            else r == Err(ValueError)
  {
    if |activation| != layout.columns {
      return Err(ValueError);
    }
    var packed := new T[layout.size](_ => zero);
    var shaped := Pack(layout, weights, zero, packed);
    if shaped.Err? || |descriptor| < TD_SIZE {
      return Err(ValueError);
    }
    var command := BuildCommand(layout, descriptor, packed[..], zero);
    var source := new T[layout.columns * 32](_ => zero);
    FillSource(activation, zero, source);
    return Ok(Results(engine(Submission(command[..], source[..], descriptor))));
  }

  /** The rows of a padded tile buffer. */
  function RowsOf<T>(padded: array2<T>): (m: Matrix<T>)
    reads padded
    ensures IsMatrix(m, padded.Length0, padded.Length1)
    ensures forall i, j :: 0 <= i < padded.Length0 && 0 <= j < padded.Length1 ==> m[i][j] == padded[i, j]
  {
    seq(padded.Length0, i requires 0 <= i < padded.Length0 reads padded =>
      seq(padded.Length1, j requires 0 <= j < padded.Length1 reads padded => padded[i, j]))
  }

  /** One persistent program whose buffers every call rewrites. */
  class Program<T> {
    const layout: Layout
    const descriptor: seq<T>
    const zero: T
    const cmd: array<T>
    const src: array<T>
    const padded: array2<T>
    const packed: array<T>
    const source: array<T>

    constructor (layout: Layout, descriptor: seq<T>, zero: T)
      requires layout.Valid()
      ensures Valid() && fresh(Buffers())
      ensures this.layout == layout && this.descriptor == descriptor && this.zero == zero
    {
      this.layout, this.descriptor, this.zero := layout, descriptor, zero;
      padded := new T[ROWS, layout.columns]((i, j) => zero);
      packed := new T[layout.size](_ => zero);
      src := new T[layout.columns * 32](_ => zero);
      source := new T[layout.columns * 32](_ => zero);
      var command := BuildCommand(layout, descriptor, seq(layout.size, _ => zero), zero);
      cmd := command;
    }

    ghost function Buffers(): set<object> {
      {cmd, src, padded, packed, source}
    }

    /** The buffers are distinct and of the layout's sizes, and the command still starts with the descriptor. */
    ghost predicate Valid()
      reads cmd
    {
      && layout.Valid()
      && cmd != src && cmd != packed && cmd != source && src != packed && src != source && packed != source
      && padded.Length0 == ROWS && padded.Length1 == layout.columns
      && packed.Length == layout.size && cmd.Length == layout.offset + layout.size
      && src.Length == source.Length == layout.columns * 32
      && forall k :: 0 <= k < layout.offset ==> cmd[k] == if k < |descriptor| then descriptor[k] else zero
    }

    /** The first `n` rows of the tile are in place up to column `m` of the last, and the rest is zero. */
    ghost predicate IsFilled(weights: Matrix<T>, columns: nat, row0: nat, col0: nat, n: nat, m: nat)
      requires padded.Length0 == ROWS && padded.Length1 == layout.columns
      requires IsMatrix(weights, |weights|, columns) && row0 + n <= |weights| && col0 + m <= columns
      reads padded
    {
      forall a, b {:trigger padded[a, b]} :: 0 <= a < ROWS && 0 <= b < layout.columns ==>
        padded[a, b] ==
        if (if a + 1 == n then b < m else a < n && col0 + b < columns) then weights[row0 + a][col0 + b] else zero
    }

    method FillRow(weights: Matrix<T>, columns: nat, row0: nat, col0: nat, i: nat, cols: nat)
      requires Valid() && IsMatrix(weights, |weights|, columns) && i < ROWS && row0 + i < |weights| && col0 <= columns
      requires cols == if columns - col0 < layout.columns then columns - col0 else layout.columns
      requires IsFilled(weights, columns, row0, col0, i, cols)
      modifies padded
      ensures IsFilled(weights, columns, row0, col0, i + 1, cols)
    {
      for j := 0 to cols
        invariant IsFilled(weights, columns, row0, col0, i + 1, j)
      {
        padded[i, j] := weights[row0 + i][col0 + j];
      }
    }

    /** padded.fill(0), then the part of the matrix the tile covers. */
    method FillTile(weights: Matrix<T>, columns: nat, row0: nat, col0: nat)
      requires Valid() && IsMatrix(weights, |weights|, columns) && row0 <= |weights| && col0 <= columns
      modifies padded
      ensures RowsOf(padded) == Tile(weights, columns, row0, col0, layout.columns, zero)
    {
      var rows := if |weights| - row0 < ROWS then |weights| - row0 else ROWS;
      var cols := if columns - col0 < layout.columns then columns - col0 else layout.columns;
      forall i, j | 0 <= i < ROWS && 0 <= j < layout.columns {
        padded[i, j] := zero;
      }
      for i := 0 to rows
        invariant IsFilled(weights, columns, row0, col0, i, cols)
      {
        FillRow(weights, columns, row0, col0, i, cols);
      }
      FilledIsTile(weights, columns, row0, col0, rows, cols);
    }

    lemma FilledIsTile(weights: Matrix<T>, columns: nat, row0: nat, col0: nat, rows: nat, cols: nat)
      requires Valid() && IsMatrix(weights, |weights|, columns) && row0 <= |weights| && col0 <= columns
      requires rows == if |weights| - row0 < ROWS then |weights| - row0 else ROWS
      requires cols == if columns - col0 < layout.columns then columns - col0 else layout.columns
      requires IsFilled(weights, columns, row0, col0, rows, cols)
      ensures RowsOf(padded) == Tile(weights, columns, row0, col0, layout.columns, zero)
    {
      var shown, tile := RowsOf(padded), Tile(weights, columns, row0, col0, layout.columns, zero);
      forall a | 0 <= a < ROWS
        ensures shown[a] == tile[a]
      {
        assert forall b :: 0 <= b < layout.columns ==> shown[a][b] == padded[a, b];
      }
    }

    /** Rewrites the blob: the command is then the one a fresh product of the zero-padded tile submits. */
    method RewriteBlob(weights: Matrix<T>, columns: nat, row0: nat, col0: nat)
      requires Valid() && IsMatrix(weights, |weights|, columns) && row0 <= |weights| && col0 <= columns
      modifies cmd, padded, packed
      ensures Valid()
      ensures var tile := Tile(weights, columns, row0, col0, layout.columns, zero);
              cmd[..] == Command(layout, descriptor, Packed(layout, tile, zero), zero)
    {
      FillTile(weights, columns, row0, col0);
      var shaped := Pack(layout, RowsOf(padded), zero, packed);
      CopyInto(packed[..], cmd, layout.offset);
      assert cmd[..] == Command(layout, descriptor, packed[..], zero);
    }

    /** Rewrites the blob and the source: the buffers then hold what a fresh product would submit. An activation
        that does not fit is refused, with the blob rewritten already. */
    method Rewrite(weights: Matrix<T>, columns: nat, row0: nat, col0: nat, activation: seq<T>) returns (r: Result<()>)
      requires Valid() && IsMatrix(weights, |weights|, columns) && row0 <= |weights| && col0 <= columns
      modifies cmd, src, padded, packed, source
      ensures Valid()
      ensures if |activation| != 1 && |activation| != layout.columns then r == Err(ValueError)
              else
                && r.Ok?
                && Submission(cmd[..], src[..], descriptor) == Fresh(
                     layout, descriptor, Tile(weights, columns, row0, col0, layout.columns, zero),
                     Spread(activation, layout.columns), zero)
    {
      RewriteBlob(weights, columns, row0, col0);
      if |activation| != 1 && |activation| != layout.columns {
        return Err(ValueError);
      }
      FillSource(Spread(activation, layout.columns), zero, source);
      CopyInto(source[..], src, 0);
      assert src[..] == source[..];
      return Ok(());
    }
  }

  /** The device's persistent programs, one for each tile width. */
  class Device<T(!new)> {
    const engine: Engine<T>
    const zero: T
    var swapCache: map<nat, Program<T>>
    ghost var owned: set<object>

    constructor (engine: Engine<T>, zero: T)
      requires GivesOutputs(engine)
      ensures Valid() && swapCache == map[] && owned == {}
      ensures this.engine == engine && this.zero == zero
    {
      this.engine, this.zero := engine, zero;
      swapCache, owned := map[], {};
    }

    /** The buffers of the program of one width, if there is one. */
    ghost function BuffersOf(inCols: nat): set<object>
      reads this
    {
      if inCols in swapCache then swapCache[inCols].Buffers() else {}
    }

    ghost predicate Holds(inCols: nat)
      reads this, BuffersOf(inCols)
    {
      inCols in swapCache ==>
        && swapCache[inCols].layout == LayoutOf(inCols) && swapCache[inCols].zero == zero
        && swapCache[inCols].Valid()
    }

    /** The cached programs belong to their widths, share no buffer, and are all among the owned objects. */
    ghost predicate Valid()
      reads this, owned
    {
      && GivesOutputs(engine)
      && BuffersOf(256) <= owned && BuffersOf(512) <= owned
      && swapCache.Keys <= {256, 512}
      && Holds(256) && Holds(512)
      && BuffersOf(256) !! BuffersOf(512)
    }

    /** The descriptor a call submits: the one the width's program was made with. */
    function DescriptorFor(inCols: nat, descriptor: seq<T>): seq<T>
      reads this
    {
      if inCols in swapCache then swapCache[inCols].descriptor else descriptor
    }

    /** What a call submits gives the results of a fresh product under the call's own descriptor, for every engine, if
        and only if no program was made for its width or the one made has that descriptor. */
    lemma OwnDescriptorIff(
      inCols: nat, descriptor: seq<T>, tile: Matrix<T>, x: seq<T>, one: T, other: T)
      requires inCols == 256 || inCols == 512
      requires IsMatrix(tile, ROWS, inCols) && one != other
      ensures (forall engine: Engine<T> :: SameResults(
                engine, Fresh(LayoutOf(inCols), DescriptorFor(inCols, descriptor), tile, x, zero),
                Fresh(LayoutOf(inCols), descriptor, tile, x, zero))) <==>
              inCols !in swapCache || swapCache[inCols].descriptor == descriptor
    {
      EveryEngineAgreesIff(
        Fresh(LayoutOf(inCols), DescriptorFor(inCols, descriptor), tile, x, zero),
        Fresh(LayoutOf(inCols), descriptor, tile, x, zero), one, other);
    }

    method ProgramFor(inCols: nat, descriptor: seq<T>) returns (program: Program<T>)
      requires Valid() && (inCols == 256 || inCols == 512)
      modifies this
      ensures Valid() && inCols in swapCache && swapCache[inCols] == program
      ensures program.descriptor == old(DescriptorFor(inCols, descriptor))
      ensures swapCache == old(swapCache)[inCols := program]
      ensures program.Buffers() <= owned && fresh(owned - old(owned))
    {
      if inCols !in swapCache {
        program := new Program(LayoutOf(inCols), descriptor, zero);
        swapCache := swapCache[inCols := program];
        owned := owned + program.Buffers();
      } else {
        program := swapCache[inCols];
      }
    }

    /** Rewrites one persistent program: whatever came before, the device gets what a fresh product of the
        zero-padded tile would submit. */
    method BlobSwapGemm(
      weights: Matrix<T>, columns: nat, row0: nat, col0: nat, activation: seq<T>, descriptor: seq<T>, inCols: nat)
      returns (r: Result<seq<T>>)
      requires Valid() && IsMatrix(weights, |weights|, columns) && row0 <= |weights| && col0 <= columns
      modifies this, owned
      ensures Valid() && fresh(owned - old(owned))
      ensures forall w, d :: w != inCols ==> DescriptorFor(w, d) == old(DescriptorFor(w, d))
      ensures if inCols != 256 && inCols != 512 then r == Err(ValueError) && swapCache == old(swapCache)
              else
                && (forall d :: DescriptorFor(inCols, d) == old(DescriptorFor(inCols, descriptor)))
                && r == if |activation| != 1 && |activation| != inCols then Err(ValueError)
                        else Ok(Results(engine(Fresh(
                          LayoutOf(inCols), old(DescriptorFor(inCols, descriptor)),
                          Tile(weights, columns, row0, col0, inCols, zero), Spread(activation, inCols), zero))))
    {
      if inCols != 256 && inCols != 512 {
        return Err(ValueError);
      }
      var program := ProgramFor(inCols, descriptor);
      var _ :- program.Rewrite(weights, columns, row0, col0, activation);
      return Ok(Results(engine(Submission(program.cmd[..], program.src[..], program.descriptor))));
    }
  }

  /** The key of a pinned tile: the matrix's identity, the tile width and the corner. */
  datatype TileKey = TileKey(matrix: int, inCols: nat, row0: nat, col0: nat)

  /** A pinned tile's command, programmed once, and its descriptor. */
  datatype Pinned<T> = Pinned(command: seq<T>, descriptor: seq<T>)

  /** The device's pinned tiles: a key's blob stays as its first call packed it. */
  class TileCache<T(!new)> {
    const engine: Engine<T>
    const zero: T
    var pinned: map<TileKey, Pinned<T>>
    ghost var tiles: map<TileKey, Matrix<T>>

    constructor (engine: Engine<T>, zero: T)
      requires GivesOutputs(engine)
      ensures Valid() && pinned == map[]
      ensures this.engine == engine && this.zero == zero
    {
      this.engine, this.zero := engine, zero;
      pinned, tiles := map[], map[];
    }

    ghost predicate Valid()
      reads this
    {
      && GivesOutputs(engine)
      && pinned.Keys == tiles.Keys
      && forall key :: key in pinned ==> Holds(key, pinned[key], tiles[key])
    }

    ghost predicate Holds(key: TileKey, program: Pinned<T>, tile: Matrix<T>) {
      && (key.inCols == 256 || key.inCols == 512)
      && IsMatrix(tile, ROWS, key.inCols)
      && program.command ==
         Command(LayoutOf(key.inCols), program.descriptor, Packed(LayoutOf(key.inCols), tile, zero), zero)
    }

    method Pin(key: TileKey, weights: Matrix<T>, columns: nat, descriptor: seq<T>) returns (program: Pinned<T>)
      requires Valid() && IsMatrix(weights, |weights|, columns) && key.row0 <= |weights| && key.col0 <= columns
      requires key !in pinned && (key.inCols == 256 || key.inCols == 512)
      modifies this
      ensures Valid() && program.descriptor == descriptor
      ensures pinned == old(pinned)[key := program]
      ensures tiles == old(tiles)[key := Tile(weights, columns, key.row0, key.col0, key.inCols, zero)]
    {
      var layout := LayoutOf(key.inCols);
      var blob := new T[layout.size](_ => zero);
      var tile := Tile(weights, columns, key.row0, key.col0, key.inCols, zero);
      var shaped := Pack(layout, tile, zero, blob);
      var command := BuildCommand(layout, descriptor, blob[..], zero);
      program := Pinned(command[..], descriptor);
      pinned, tiles := pinned[key := program], tiles[key := tile];
    }

    /** One product of a pinned tile: what a fresh product of the key's first tile submits, and nothing else
        changes in the cache. */
    method TileGemm(key: TileKey, weights: Matrix<T>, columns: nat, activation: seq<T>, descriptor: seq<T>)
      returns (r: Result<seq<T>>)
      requires Valid() && IsMatrix(weights, |weights|, columns) && key.row0 <= |weights| && key.col0 <= columns
      modifies this
      ensures Valid()
      ensures forall k :: k in old(pinned) ==> k in pinned && pinned[k] == old(pinned)[k] && tiles[k] == old(tiles[k])
      ensures if key.inCols != 256 && key.inCols != 512 then r == Err(ValueError) && tiles == old(tiles)
              else
                && pinned.Keys == old(pinned.Keys) + {key}
                && (key !in old(pinned) ==>
                      && tiles[key] == Tile(weights, columns, key.row0, key.col0, key.inCols, zero)
                      && pinned[key].descriptor == descriptor)
                && r == if |activation| != 1 && |activation| != key.inCols then Err(ValueError)
                        else Ok(Results(engine(Fresh(
                          LayoutOf(key.inCols), pinned[key].descriptor, tiles[key], Spread(activation, key.inCols),
                          zero))))
    {
      if key.inCols != 256 && key.inCols != 512 {
        return Err(ValueError);
      }
      var program;
      if key in pinned {
        program := pinned[key];
      } else {
        program := Pin(key, weights, columns, descriptor);
      }
      if |activation| != 1 && |activation| != key.inCols {
        return Err(ValueError);
      }
      var source := new T[key.inCols * 32](_ => zero);
      FillSource(Spread(activation, key.inCols), zero, source);
      return Ok(Results(engine(Submission(program.command, source[..], program.descriptor))));
    }
  }

  // Where a submission holds what

  /** The narrow submission, halfword by halfword: the descriptor, 16 blocks of 32 rows with six zeros in front of
      each, column by column, and every activation followed by 31 zeros. */
  lemma NarrowSubmission<T>(
    descriptor: seq<T>, tile: Matrix<T>, x: seq<T>, zero: T, row: nat, column: nat, k: nat, j: nat)
    requires IsMatrix(tile, 512, 256) && |x| == 256
    requires row < 512 && column < 256 && k < 262144 && j < 8192
    ensures var s := Fresh(NARROW, descriptor, tile, x, zero);
            && |s.command| == 314 + 262144 && |s.source| == 8192 && s.descriptor == descriptor
            && (k < 314 ==> s.command[k] == if k < |descriptor| then descriptor[k] else zero)
            && s.command[314 + (row / 32 * 16384 + 6 + column * 32 + row % 32)] == tile[row][column]
            && (k % 16384 < 6 || 8198 <= k % 16384 ==> s.command[314 + k] == zero)
            && s.source[j] == if j % 32 == 0 then x[j / 32] else zero
  {
    ElementsAreStored(NARROW, tile, zero, row, column);
    CommandHolds(NARROW, descriptor, tile, x, zero, BlobIndex(NARROW, row, column));
    CommandHolds(NARROW, descriptor, tile, x, zero, k);
  }

  /** The wide submission: no zeros in front, and blocks filled to the end. */
  lemma WideSubmission<T>(
    descriptor: seq<T>, tile: Matrix<T>, x: seq<T>, zero: T, row: nat, column: nat, k: nat, j: nat)
    requires IsMatrix(tile, 512, 512) && |x| == 512
    requires row < 512 && column < 512 && k < 320 && j < 16384
    ensures var s := Fresh(WIDE, descriptor, tile, x, zero);
            && |s.command| == 320 + 524288 && |s.source| == 16384 && s.descriptor == descriptor
            && s.command[k] == (if k < |descriptor| then descriptor[k] else zero)
            && s.command[320 + (row / 32 * 16384 + column * 32 + row % 32)] == tile[row][column]
            && s.source[j] == if j % 32 == 0 then x[j / 32] else zero
  {
    ElementsAreStored(WIDE, tile, zero, row, column);
    CommandHolds(WIDE, descriptor, tile, x, zero, BlobIndex(WIDE, row, column));
  }

  lemma CommandHolds<T>(layout: Layout, descriptor: seq<T>, tile: Matrix<T>, x: seq<T>, zero: T, k: nat)
    requires layout.Valid() && IsMatrix(tile, ROWS, layout.columns) && k < layout.size
    ensures var s := Fresh(layout, descriptor, tile, x, zero);
            && |s.command| == layout.offset + layout.size
            && s.command[layout.offset + k] == Packed(layout, tile, zero)[k] == PackedAt(layout, tile, zero, k)
  {
  }
}
