/** The swizzle engine, class `BytesSwizzle`: it reads the linear buffer as a
    grid of `row_count` by `column_count` read units, splits it into
    `tile_per_height` bands and every band into `tile_per_width` tiles, splits
    every tile along the step list down to single read units, and emits those
    read units tile after tile.

    As for the deswizzler, pure functions (`ToGrid`, `SwizzleTiles`,
    `TileBytes`, `SwizzleSpec`) state what the engine computes and the lemmas
    what that guarantees; the class is proved to compute `SwizzleSpec`. */
module Swizzler {
  import opened Arith
  import opened Grids
  import opened Steps
  import opened Platform
  import opened Deswizzler

  /** `__bytes_to_array`: `rowCount` rows of `columnCount` read units of
      `readSize` bytes, taken from the buffer in order. */
  function ToGrid(data: seq<byte>, rowCount: nat, columnCount: nat, readSize: nat): Grid<ReadUnit>
    requires rowCount * columnCount * readSize <= |data|
  {
    MulRearrange(rowCount, columnCount, readSize);
    Chunks(Chunks(data, readSize, rowCount * columnCount), columnCount, rowCount)
  }

  /** The tiles of the image, tile-row by tile-row: the two `__split_arrays`
      calls of `swizzle`. */
  function SwizzleTiles(data: seq<byte>, c: SwizzleConfig): seq<Grid<ReadUnit>>
    requires SwizzleReady(c, |data|)
  {
    var image := ToGrid(data, c.rowCount, c.columnCount, c.readSize);
    SplitAll(SplitAll([image], c.tilePerHeight, Vertical), c.tilePerWidth, Horizontal)
  }

  /** `block[0][0]`: the read unit of a 1x1 block. Splitting a tile along
      the step list leaves only 1x1 blocks (`SwizzleTileBlocks`); the guard
      only makes the function total. */
  function BlockUnit(block: Grid<ReadUnit>): ReadUnit {
    if |block| > 0 && |block[0]| > 0 then block[0][0] else []
  }

  function BlockUnits(blocks: seq<Grid<ReadUnit>>): seq<ReadUnit> {
    seq(|blocks|, j requires 0 <= j < |blocks| => BlockUnit(blocks[j]))
  }

  /** Every block is a 1x1 grid. */
  predicate UnitBlocks(blocks: seq<Grid<ReadUnit>>) {
    forall j :: 0 <= j < |blocks| ==> |blocks[j]| == 1 && |blocks[j][0]| == 1
  }

  /** The bytes `swizzle` emits for one tile: the tile split along the step
      list, and the read units of the resulting blocks in order. */
  function TileBytes(tile: Grid<ReadUnit>, steps: seq<Step>): seq<byte>
    requires Positive(steps)
  {
    Flatten(BlockUnits(SplitSteps([tile], steps)))
  }

  function TileOutputs(tiles: seq<Grid<ReadUnit>>, steps: seq<Step>): seq<seq<byte>>
    requires Positive(steps)
  {
    seq(|tiles|, t requires 0 <= t < |tiles| => TileBytes(tiles[t], steps))
  }

  /** The bytes `swizzle()` builds before its final length check. */
  function SwizzleSpec(data: seq<byte>, c: SwizzleConfig): seq<byte>
    requires SwizzleReady(c, |data|)
  {
    Flatten(TileOutputs(SwizzleTiles(data, c), c.steps))
  }

  /** Constructing a `BytesSwizzle` and calling `swizzle()`: the first
      exception raised, or the tiled data. */
  function SwizzleResult(p: Params, data: seq<byte>): Result<seq<byte>>
    requires Runs(p, |data|)
  {
    match SwizzlerInit(p, |data|)
    case Err(e) => Err(e)
    case Ok(c) =>
      InitsAgree(p, |data|);
      InitsReady(p, |data|);
      Ok(SwizzleSpec(data, c))
  }

  // ---------------------------------------------------------------------------
  // What the computation guarantees

  /** The buffer read as a grid has `rowCount` rows of `columnCount` read
      units of `readSize` bytes. */
  lemma ToGridShape(data: seq<byte>, rowCount: nat, columnCount: nat, readSize: nat)
    requires rowCount * columnCount * readSize <= |data|
    ensures HasShape(ToGrid(data, rowCount, columnCount, readSize), Shape(rowCount, columnCount))
    ensures ElemsIn(ToGrid(data, rowCount, columnCount, readSize), UnitsOfSize(readSize))
  {
    MulRearrange(rowCount, columnCount, readSize);
    var units := Chunks(data, readSize, rowCount * columnCount);
    var g := ToGrid(data, rowCount, columnCount, readSize);
    forall row, x | row in g && x in row ensures x in UnitsOfSize(readSize) {
      var i :| 0 <= i < |g| && g[i] == row;
      ChunksMember(units, columnCount, rowCount, i, x);
    }
  }

  /** The image splits into `tilePerHeight * tilePerWidth` tiles of the shape
      the step list splits into single read units. */
  lemma SwizzleTilesShape(data: seq<byte>, c: SwizzleConfig)
    requires SwizzleReady(c, |data|)
    ensures |SwizzleTiles(data, c)| == c.tilePerWidth * c.tilePerHeight
    ensures AllHaveShape(SwizzleTiles(data, c), SwizzleTileShape(c.steps))
    ensures AllElemsIn(SwizzleTiles(data, c), UnitsOfSize(c.readSize))
  {
    var sh := SwizzleTileShape(c.steps);
    var image := ToGrid(data, c.rowCount, c.columnCount, c.readSize);
    var band := Shape(sh.rows, c.columnCount);
    ToGridShape(data, c.rowCount, c.columnCount, c.readSize);
    assert AllHaveShape([image], Scale(band, c.tilePerHeight, Vertical));
    SplitAllShape([image], c.tilePerHeight, Vertical, band);
    SplitAllElems([image], c.tilePerHeight, Vertical, UnitsOfSize(c.readSize));
    var bands := SplitAll([image], c.tilePerHeight, Vertical);
    assert band == Scale(sh, c.tilePerWidth, Horizontal);
    SplitAllShape(bands, c.tilePerWidth, Horizontal, sh);
    SplitAllElems(bands, c.tilePerWidth, Horizontal, UnitsOfSize(c.readSize));
  }

  /** Tiles come out in row-major order: tile `r * tilePerWidth + k` is part
      `k` of the width split of band `r` of the height split. */
  lemma SwizzleTileOrder(data: seq<byte>, c: SwizzleConfig, r: nat, k: nat)
    requires SwizzleReady(c, |data|) && r < c.tilePerHeight && k < c.tilePerWidth
    ensures var image := ToGrid(data, c.rowCount, c.columnCount, c.readSize);
      var tiles := SwizzleTiles(data, c);
      r * c.tilePerWidth + k < |tiles| &&
      tiles[r * c.tilePerWidth + k] == Split(Split(image, c.tilePerHeight, Vertical)[r], c.tilePerWidth, Horizontal)[k]
  {
    var image := ToGrid(data, c.rowCount, c.columnCount, c.readSize);
    var bands := SplitAll([image], c.tilePerHeight, Vertical);
    assert bands == Split(image, c.tilePerHeight, Vertical);
    SplitAllAt(bands, c.tilePerWidth, Horizontal, r, k);
  }

  /** The byte size of one tile. */
  function TileSize(c: SwizzleConfig): nat {
    c.readSize * Product(c.steps)
  }

  /** The blocks' read units are the elements of the blocks. */
  lemma BlockUnitsIn(blocks: seq<Grid<ReadUnit>>, S: iset<ReadUnit>)
    requires AllHaveShape(blocks, Shape(1, 1)) && AllElemsIn(blocks, S)
    ensures UnitBlocks(blocks)
    ensures forall j :: 0 <= j < |blocks| ==> BlockUnits(blocks)[j] in S
  {
    forall j | 0 <= j < |blocks| ensures |blocks[j]| == 1 && |blocks[j][0]| == 1 && BlockUnits(blocks)[j] in S {
      var g := blocks[j];
      assert g in blocks;
      assert g[0] in g;
    }
  }

  /** Splitting a tile of the shape the step list expects leaves
      `Product(steps)` 1x1 blocks, whose read units keep their size. */
  lemma SplitTileUnits(tile: Grid<ReadUnit>, steps: seq<Step>, n: nat)
    requires Positive(steps) && HasShape(tile, SwizzleTileShape(steps)) && ElemsIn(tile, UnitsOfSize(n))
    ensures UnitBlocks(SplitSteps([tile], steps))
    ensures |BlockUnits(SplitSteps([tile], steps))| == Product(steps)
    ensures forall j :: 0 <= j < Product(steps) ==> |BlockUnits(SplitSteps([tile], steps))[j]| == n
  {
    var blocks := SplitSteps([tile], steps);
    SplitStepsShape([tile], steps, Shape(1, 1));
    SplitStepsElems([tile], steps, UnitsOfSize(n));
    BlockUnitsIn(blocks, UnitsOfSize(n));
  }

  /** Splitting tile `t` along the step list leaves 1x1 blocks only. */
  lemma SwizzleTileBlocks(data: seq<byte>, c: SwizzleConfig, t: nat)
    requires SwizzleReady(c, |data|) && t < |SwizzleTiles(data, c)|
    ensures UnitBlocks(SplitSteps([SwizzleTiles(data, c)[t]], c.steps))
  {
    var tiles := SwizzleTiles(data, c);
    SwizzleTilesShape(data, c);
    assert tiles[t] in tiles;
    SplitTileUnits(tiles[t], c.steps, c.readSize);
  }

  /** One tile yields `Product(steps)` read units of `n` bytes. */
  lemma TileBytesLength(tile: Grid<ReadUnit>, steps: seq<Step>, n: nat)
    requires Positive(steps) && HasShape(tile, SwizzleTileShape(steps)) && ElemsIn(tile, UnitsOfSize(n))
    ensures |TileBytes(tile, steps)| == n * Product(steps)
  {
    SplitTileUnits(tile, steps, n);
    FlattenLength(BlockUnits(SplitSteps([tile], steps)), n);
  }

  /** Cutting a tile's bytes into read units gives back the units of its
      blocks. */
  lemma TileBytesUnits(tile: Grid<ReadUnit>, steps: seq<Step>, n: nat)
    requires Positive(steps) && HasShape(tile, SwizzleTileShape(steps)) && ElemsIn(tile, UnitsOfSize(n))
    ensures |TileBytes(tile, steps)| == n * Product(steps)
    ensures Chunks(TileBytes(tile, steps), n, Product(steps)) == BlockUnits(SplitSteps([tile], steps))
  {
    SplitTileUnits(tile, steps, n);
    ChunksFlatten(BlockUnits(SplitSteps([tile], steps)), n);
  }

  /** Tile `t` has the tile shape and holds read units of `readSize` bytes. */
  lemma SwizzleTileIn(data: seq<byte>, c: SwizzleConfig, t: nat)
    requires SwizzleReady(c, |data|) && t < c.tilePerWidth * c.tilePerHeight
    ensures t < |SwizzleTiles(data, c)|
    ensures HasShape(SwizzleTiles(data, c)[t], SwizzleTileShape(c.steps))
    ensures ElemsIn(SwizzleTiles(data, c)[t], UnitsOfSize(c.readSize))
  {
    var tiles := SwizzleTiles(data, c);
    SwizzleTilesShape(data, c);
    assert tiles[t] in tiles;
  }

  /** Every tile's output is `TileSize(c)` bytes. */
  lemma TileOutputsSized(data: seq<byte>, c: SwizzleConfig)
    requires SwizzleReady(c, |data|)
    ensures AllHaveShape(SwizzleTiles(data, c), SwizzleTileShape(c.steps))
    ensures var outs := TileOutputs(SwizzleTiles(data, c), c.steps);
      |outs| == c.tilePerWidth * c.tilePerHeight && forall j :: 0 <= j < |outs| ==> |outs[j]| == TileSize(c)
  {
    var tiles := SwizzleTiles(data, c);
    SwizzleTilesShape(data, c);
    forall j | 0 <= j < |tiles| ensures |TileBytes(tiles[j], c.steps)| == TileSize(c) {
      assert tiles[j] in tiles;
      TileBytesLength(tiles[j], c.steps, c.readSize);
    }
  }

  /** Tile `t` occupies bytes `[t*size, (t+1)*size)` of the output, `size`
      being the byte size of a tile. */
  lemma SwizzleTileBytes(data: seq<byte>, c: SwizzleConfig, t: nat, lo: nat)
    requires SwizzleReady(c, |data|) && t < c.tilePerWidth * c.tilePerHeight && lo == t * TileSize(c)
    ensures t < |SwizzleTiles(data, c)| && HasShape(SwizzleTiles(data, c)[t], SwizzleTileShape(c.steps))
    ensures lo + TileSize(c) <= |SwizzleSpec(data, c)|
    ensures SwizzleSpec(data, c)[lo..lo + TileSize(c)] == TileBytes(SwizzleTiles(data, c)[t], c.steps)
  {
    var tiles := SwizzleTiles(data, c);
    TileOutputsSized(data, c);
    assert tiles[t] in tiles;
    FlattenSlice(TileOutputs(tiles, c.steps), TileSize(c), t);
  }

  /** `swizzle()` returns exactly as many bytes as it was given. */
  lemma SwizzleLength(data: seq<byte>, c: SwizzleConfig)
    requires SwizzleReady(c, |data|)
    ensures |SwizzleSpec(data, c)| == |data|
  {
    var sh := SwizzleTileShape(c.steps);
    SplitArea(Shape(1, 1), c.steps);
    assert sh.rows * sh.cols == Product(c.steps);
    var n := c.tilePerWidth * c.tilePerHeight;
    TileOutputsSized(data, c);
    FlattenLength(TileOutputs(SwizzleTiles(data, c), c.steps), TileSize(c));
    MulTurn(c.readSize, Product(c.steps), n);
    ImageArea(n, c.tilePerWidth, c.tilePerHeight, sh.rows, sh.cols, Product(c.steps), c.readSize);
  }

  // ---------------------------------------------------------------------------
  // The engine

  class BytesSwizzle {
    /** The buffer given to the constructor. */
    const data: seq<byte>
    /** What the constructor stores: the step list, `read_size`,
        `column_count`, `tile_count`, `tile_per_width`, `tile_per_height`
        and `row_count`. */
    const cfg: SwizzleConfig

    /** `__init__` past its checks; `NewBytesSwizzle` runs the checks. */
    constructor (p: Params, data: seq<byte>)
      requires InDomain(p) && SwizzlerInit(p, |data|).Ok?
      ensures this.data == data && cfg == SwizzlerInit(p, |data|).value
    {
      this.data := data;
      cfg := SwizzlerInit(p, |data|).value;
    }

    /** `__bytes_to_array`: the buffer read row by row into a grid of read
        units. With no rows the source fails on an unbound variable, hence
        `rowCount > 0`. */
    method BytesToArray() returns (grid: Grid<ReadUnit>)
      requires cfg.rowCount > 0 && cfg.rowCount * cfg.columnCount * cfg.readSize <= |data|
      ensures grid == ToGrid(data, cfg.rowCount, cfg.columnCount, cfg.readSize)
    {
      var rows, cols, size := cfg.rowCount, cfg.columnCount, cfg.readSize;
      ghost var spec := ToGrid(data, rows, cols, size);
      ghost var rowBytes := cols * size;
      MulRearrange(rows, cols, size);
      var readDataIdx := 0;
      grid := [];
      var i := 0;
      while i < rows
        invariant i <= rows && readDataIdx == i * rowBytes
        invariant grid == spec[..i]
      {
        ghost var rowStart := readDataIdx;
        ChunksOfChunksAt(data, size, rows, cols, i, rowStart);
        ghost var row := spec[i];
        var newRow := [];
        var j := 0;
        while j < cols
          invariant j <= cols && readDataIdx == rowStart + j * size
          invariant newRow == row[..j]
        {
          MulMono(j + 1, cols, size);
          MulAddOne(j, size);
          MulNonneg(j, size);
          ChunkFromAt(data, rowStart, size, cols, j, readDataIdx);
          newRow := newRow + [data[readDataIdx..readDataIdx + size]];
          readDataIdx := readDataIdx + size;
          j := j + 1;
        }
        assert newRow == row;
        assert spec[..i + 1] == grid + [row];
        MulAddOne(i, rowBytes);
        if i == 0 {
          grid := [newRow];
        } else {
          grid := grid + [newRow];
        }
        i := i + 1;
      }
    }

    /** The inner loop of `__split_arrays`: each part appended in turn. */
    static method AppendEach(newArrayList: seq<Grid<ReadUnit>>, parts: seq<Grid<ReadUnit>>)
      returns (extended: seq<Grid<ReadUnit>>)
      ensures extended == newArrayList + parts
    {
      extended := newArrayList;
      var m := 0;
      while m < |parts|
        invariant m <= |parts|
        invariant extended == newArrayList + parts[..m]
      {
        assert parts[..m + 1] == parts[..m] + [parts[m]];
        extended := extended + [parts[m]];
        m := m + 1;
      }
      assert parts[..m] == parts;
    }

    /** `__split_arrays`: every grid split into `sectionNumber` parts along
        `axis`, the parts kept in order. */
    static method SplitArrays(arrayList: seq<Grid<ReadUnit>>, sectionNumber: nat, axis: Axis)
      returns (newArrayList: seq<Grid<ReadUnit>>)
      requires sectionNumber > 0
      ensures newArrayList == SplitAll(arrayList, sectionNumber, axis)
    {
      newArrayList := [];
      var n := 0;
      while n < |arrayList|
        invariant n <= |arrayList|
        invariant newArrayList == SplitAll(arrayList[..n], sectionNumber, axis)
      {
        var parts := Split(arrayList[n], sectionNumber, axis);
        newArrayList := AppendEach(newArrayList, parts);
        assert newArrayList == SplitAll(arrayList[..n + 1], sectionNumber, axis) by {
          assert arrayList[..n + 1] == arrayList[..n] + [arrayList[n]];
          SplitAllSnoc(arrayList[..n], arrayList[n], sectionNumber, axis);
        }
        n := n + 1;
      }
      assert arrayList[..n] == arrayList;
    }

    /** `__swizzle_tile`: the grids split along every step in turn. */
    method SwizzleTile(arrayList: seq<Grid<ReadUnit>>) returns (result: seq<Grid<ReadUnit>>)
      requires Positive(cfg.steps)
      ensures result == SplitSteps(arrayList, cfg.steps)
    {
      var steps := cfg.steps;
      result := arrayList;
      var n := 0;
      while n < |steps|
        invariant n <= |steps| && Positive(steps[..n])
        invariant result == SplitSteps(arrayList, steps[..n])
      {
        var step := steps[n];
        assert steps[..n + 1] == steps[..n] + [step];
        PositivePrefix(steps, n + 1);
        SplitStepsSnoc(arrayList, steps[..n], step);
        result := SplitArrays(result, step.groupSize, step.axis);
        n := n + 1;
      }
      assert steps[..n] == steps;
    }

    /** The inner loop of `swizzle()`: the read unit of every 1x1 block, in
        order. */
    static method EmitBlocks(swizzledArrayList: seq<Grid<ReadUnit>>) returns (tileData: seq<byte>)
      requires UnitBlocks(swizzledArrayList)
      ensures tileData == Flatten(BlockUnits(swizzledArrayList))
    {
      tileData := [];
      ghost var units := BlockUnits(swizzledArrayList);
      var b := 0;
      while b < |swizzledArrayList|
        invariant b <= |swizzledArrayList|
        invariant tileData == Flatten(units[..b])
      {
        var block := swizzledArrayList[b];
        FlattenSnoc(units, b);
        tileData := tileData + block[0][0];
        b := b + 1;
      }
      assert units[..b] == units;
    }

    /** `swizzle()`: the image split into tiles, every tile split into read
        units, the read units appended tile after tile. The final length
        check never fails. */
    method Swizzle() returns (r: Result<seq<byte>>)
      requires SwizzleReady(cfg, |data|)
      ensures r == Ok(SwizzleSpec(data, cfg))
    {
      var image := BytesToArray();
      var initialArrayList := [image];
      var splitArrayList := SplitArrays(initialArrayList, cfg.tilePerHeight, Vertical);
      var finalArrayList := SplitArrays(splitArrayList, cfg.tilePerWidth, Horizontal);
      assert finalArrayList == SwizzleTiles(data, cfg);
      forall t | 0 <= t < |finalArrayList| ensures UnitBlocks(SplitSteps([finalArrayList[t]], cfg.steps)) {
        SwizzleTileBlocks(data, cfg, t);
      }
      var swizzledData: seq<byte> := [];
      ghost var outs := TileOutputs(finalArrayList, cfg.steps);
      var t := 0;
      while t < |finalArrayList|
        invariant t <= |finalArrayList|
        invariant swizzledData == Flatten(outs[..t])
      {
        var tile := finalArrayList[t];
        var swizzledArrayList := SwizzleTile([tile]);
        var tileData := EmitBlocks(swizzledArrayList);
        FlattenSnoc(outs, t);
        swizzledData := swizzledData + tileData;
        t := t + 1;
      }
      assert outs[..t] == outs;
      var expected: nat, actual: nat := |data|, |swizzledData|;
      SwizzleLength(data, cfg);
      if actual != expected {
        r := Err(InvalidOutputDatasize(expected, actual));
      } else {
        r := Ok(swizzledData);
      }
    }
  }

  /** `BytesSwizzle(...)`: the engine, or the exception its constructor raises. */
  method NewBytesSwizzle(p: Params, data: seq<byte>) returns (r: Result<BytesSwizzle>)
    requires InDomain(p)
    ensures r.Err? <==> SwizzlerInit(p, |data|).Err?
    ensures r.Err? ==> r.error == SwizzlerInit(p, |data|).error
    ensures r.Ok? ==> fresh(r.value) && r.value.data == data && r.value.cfg == SwizzlerInit(p, |data|).value
  {
    match SwizzlerInit(p, |data|)
    case Err(e) =>
      r := Err(e);
    case Ok(_) =>
      var engine := new BytesSwizzle(p, data);
      r := Ok(engine);
  }

  /** `BytesSwizzle(...).swizzle()` on arguments that do not crash it. */
  method SwizzleBytes(p: Params, data: seq<byte>) returns (r: Result<seq<byte>>)
    requires Runs(p, |data|)
    ensures r == SwizzleResult(p, data)
  {
    var engine := NewBytesSwizzle(p, data);
    match engine
    case Err(e) =>
      r := Err(e);
    case Ok(s) =>
      InitsAgree(p, |data|);
      InitsReady(p, |data|);
      r := s.Swizzle();
  }
}
