/** The two engines are inverse to each other: for arguments both
    constructors accept, `swizzle` undoes `deswizzle` and `deswizzle` undoes
    `swizzle`. The proof follows the data through each stage: the byte
    buffer and the image grid, the image and its tiles, a tile and its read
    units. */
module RoundTrip {
  import opened Arith
  import opened Grids
  import opened Steps
  import opened Platform
  import opened Deswizzler
  import opened Swizzler

  // ---------------------------------------------------------------------------
  // Bytes and grids

  /** Reading the bytes of a grid back as a grid of the same shape gives the
      grid. */
  lemma ToGridToBytes(g: Grid<ReadUnit>, rows: nat, cols: nat, n: nat)
    requires HasShape(g, Shape(rows, cols)) && ElemsIn(g, UnitsOfSize(n))
    ensures |ToBytes(g)| == rows * cols * n
    ensures ToGrid(ToBytes(g), rows, cols, n) == g
  {
    ToBytesLength(g, Shape(rows, cols), n);
    var units := Flatten(g);
    forall j | 0 <= j < |units| ensures |units[j]| == n {
      FlattenMember(g, units[j]);
    }
    ChunksFlatten(units, n);
    forall j | 0 <= j < |g| ensures |g[j]| == cols {
      assert g[j] in g;
    }
    ChunksFlatten(g, cols);
  }

  /** Cutting a buffer into a grid and reading the grid's bytes gives the
      buffer. */
  lemma ToBytesToGrid(data: seq<byte>, rows: nat, cols: nat, n: nat)
    requires rows * cols * n == |data|
    ensures ToBytes(ToGrid(data, rows, cols, n)) == data
  {
    var m := rows * cols;
    MulRearrange(rows, cols, n);
    assert n * m == |data|;
    var units := Chunks(data, n, m);
    assert |units| == cols * rows;
    FlattenAllChunks(units, cols, rows);
    FlattenAllChunks(data, n, m);
  }

  // ---------------------------------------------------------------------------
  // Images and tiles

  /** Splitting an assembled image into `tph` bands and every band into `tpw`
      tiles gives the tiles back. */
  lemma SplitAssembled(tiles: seq<Grid<ReadUnit>>, tpw: nat, tph: nat, sh: Shape)
    requires tpw > 0 && tph > 0 && |tiles| == tph * tpw && AllHaveShape(tiles, sh)
    ensures |tiles| / tpw == tph
    ensures SplitAll(SplitAll([Assemble(tiles, tpw)], tph, Vertical), tpw, Horizontal) == tiles
  {
    DivCancel(tph, tpw);
    var rows := ConcatGroups(tiles, tpw, Horizontal);
    ConcatGroupsShape(tiles, tpw, Horizontal, sh);
    ConcatGroupsWhole(rows, Vertical);
    var image := Concat(rows, Vertical);
    assert Assemble(tiles, tpw) == image;
    SplitConcat(rows, tph, Vertical, Scale(sh, tpw, Horizontal));
    assert SplitAll([image], tph, Vertical) == rows by {
      assert SplitAll([image], tph, Vertical) == Split(image, tph, Vertical) + SplitAll([], tph, Vertical);
    }
    SplitAllConcatGroups(tiles, tpw, Horizontal, sh, tph);
  }

  /** Assembling the tiles of a split image gives the image back. */
  lemma AssembleSplit(image: Grid<ReadUnit>, tpw: nat, tph: nat, sh: Shape)
    requires tpw > 0 && tph > 0 && HasShape(image, Shape(tph * sh.rows, tpw * sh.cols))
    ensures |SplitAll(SplitAll([image], tph, Vertical), tpw, Horizontal)| / tpw == tph
    ensures Assemble(SplitAll(SplitAll([image], tph, Vertical), tpw, Horizontal), tpw) == image
  {
    var band := Scale(sh, tpw, Horizontal);
    assert HasShape(image, Scale(band, tph, Vertical));
    var bands := SplitAll([image], tph, Vertical);
    assert bands == Split(image, tph, Vertical) by {
      assert bands == Split(image, tph, Vertical) + SplitAll([], tph, Vertical);
    }
    SplitShape(image, tph, Vertical, band);
    var tiles := SplitAll(bands, tpw, Horizontal);
    assert |tiles| == tpw * tph;
    DivCancel(tph, tpw);
    ConcatGroupsSplitAll(bands, tpw, Horizontal, sh);
    ConcatGroupsWhole(bands, Vertical);
    ConcatSplit(image, tph, Vertical, band);
  }

  // ---------------------------------------------------------------------------
  // Tiles and read units

  /** `[[u]]` blocks carry the read units `u`, and 1x1 blocks are the
      `[[u]]` of their read units. */
  lemma BlockUnitsOfSingletons(units: seq<ReadUnit>)
    ensures BlockUnits(Singletons(units)) == units
  {
  }

  lemma SingletonsOfBlockUnits(blocks: seq<Grid<ReadUnit>>)
    requires UnitBlocks(blocks)
    ensures Singletons(BlockUnits(blocks)) == blocks
  {
    forall j | 0 <= j < |blocks| ensures Singletons(BlockUnits(blocks))[j] == blocks[j] {
      assert blocks[j][0] == [blocks[j][0][0]];
      assert blocks[j] == [blocks[j][0]];
    }
  }

  /** Reversing a step list keeps the number of read units per tile. */
  lemma ProductReverse(st: seq<Step>)
    ensures Product(Reverse(st)) == Product(st)
  {
    MergeArea(Shape(1, 1), st);
    SplitArea(Shape(1, 1), Reverse(st));
    ShapeBeforeSplitReverse(Shape(1, 1), st);
  }

  /** Splitting deswizzled tile `t` along the reversed step list gives the
      bytes the tile was read from. */
  lemma SwizzleUndoesTile(data: seq<byte>, d: DeswizzleConfig, t: nat)
    requires DeswizzleReady(d, |data|) && t < d.tileCount
    ensures (t + 1) * (d.readPerTileCount * d.readSize) <= |data|
    ensures Positive(Reverse(d.steps))
    ensures TileBytes(Tiles(data, d)[t], Reverse(d.steps)) ==
              data[t * (d.readPerTileCount * d.readSize)..(t + 1) * (d.readPerTileCount * d.readSize)]
  {
    MulStep(d.readPerTileCount * d.readSize, t, d.tileCount);
    var units := TileUnits(data, d, t);
    TileUnitsSized(data, d, t);
    SingletonsShape(units);
    MergeShape(Singletons(units), d.steps, Shape(1, 1), 1);
    var merged := Merge(Singletons(units), d.steps);
    assert merged == [Tiles(data, d)[t]];
    SplitUndoesMerge(Singletons(units), d.steps, Shape(1, 1), 1);
    BlockUnitsOfSingletons(units);
    TileReadsItsBytes(data, d, t);
  }

  /** The bytes `swizzle` emits for tile `t`, cut into read units, are the
      read units of the tile's blocks. */
  lemma SwizzledTileUnits(data: seq<byte>, s: SwizzleConfig, t: nat, lo: nat)
    requires SwizzleReady(s, |data|) && t < s.tilePerWidth * s.tilePerHeight && lo == t * TileSize(s)
    ensures t < |SwizzleTiles(data, s)|
    ensures lo + TileSize(s) <= |SwizzleSpec(data, s)|
    ensures Chunks(SwizzleSpec(data, s)[lo..], s.readSize, Product(s.steps)) ==
              BlockUnits(SplitSteps([SwizzleTiles(data, s)[t]], s.steps))
  {
    SwizzleTileBytes(data, s, t, lo);
    SwizzleTileIn(data, s, t);
    var tile := SwizzleTiles(data, s)[t];
    TileBytesUnits(tile, s.steps, s.readSize);
    ChunksOfPiece(SwizzleSpec(data, s), lo, TileSize(s), TileBytes(tile, s.steps),
                  s.readSize, Product(s.steps), BlockUnits(SplitSteps([tile], s.steps)));
  }

  /** Deswizzle's read units for tile `t` of a swizzled buffer are the read
      units of the swizzled tile's blocks. */
  lemma SwizzledTileReads(data: seq<byte>, d: DeswizzleConfig, s: SwizzleConfig, t: nat)
    requires DeswizzleReady(d, |data|) && SwizzleReady(s, |data|) && Paired(d, s) && t < d.tileCount
    ensures DeswizzleReady(d, |SwizzleSpec(data, s)|) && t < |SwizzleTiles(data, s)|
    ensures (t + 1) * (d.readPerTileCount * d.readSize) <= |SwizzleSpec(data, s)|
    ensures TileUnits(SwizzleSpec(data, s), d, t) == BlockUnits(SplitSteps([SwizzleTiles(data, s)[t]], s.steps))
  {
    SwizzleLength(data, s);
    SwizzleTilesShape(data, s);
    ProductReverse(d.steps);
    assert TileSize(s) == d.readPerTileCount * d.readSize;
    MulNonneg(t, TileSize(s));
    var lo := t * TileSize(s);
    SwizzledTileUnits(data, s, t, lo);
    TileUnitsFrom(SwizzleSpec(data, s), d, t, TileSize(s), lo);
  }

  /** Merging the read units of a tile's blocks along the reversed step list
      gives the tile back. */
  lemma TileFromItsBlocks(tile: Grid<ReadUnit>, st: seq<Step>, n: nat)
    requires Positive(st) && HasShape(tile, SwizzleTileShape(st)) && ElemsIn(tile, UnitsOfSize(n))
    ensures Positive(Reverse(st)) && |BlockUnits(SplitSteps([tile], st))| == Product(Reverse(st))
    ensures DeswizzleTileSpec(BlockUnits(SplitSteps([tile], st)), Reverse(st)) == tile
  {
    var blocks := SplitSteps([tile], st);
    SplitTileUnits(tile, st, n);
    ProductReverse(st);
    SingletonsOfBlockUnits(blocks);
    assert AllHaveShape([tile], ShapeBeforeSplit(Shape(1, 1), st));
    MergeUndoesSplit([tile], st, Shape(1, 1));
  }

  /** Deswizzling tile `t` of a swizzled buffer gives back swizzle's tile `t`. */
  lemma DeswizzleUndoesTile(data: seq<byte>, d: DeswizzleConfig, s: SwizzleConfig, t: nat)
    requires DeswizzleReady(d, |data|) && SwizzleReady(s, |data|) && Paired(d, s) && t < d.tileCount
    ensures DeswizzleReady(d, |SwizzleSpec(data, s)|) && t < |SwizzleTiles(data, s)|
    ensures TileAt(SwizzleSpec(data, s), d, t) == SwizzleTiles(data, s)[t]
  {
    SwizzledTileReads(data, d, s, t);
    SwizzleTileIn(data, s, t);
    TileFromItsBlocks(SwizzleTiles(data, s)[t], s.steps, s.readSize);
    ReverseReverse(d.steps);
  }

  // ---------------------------------------------------------------------------
  // The engines

  /** Reading the deswizzled image back as a swizzler does gives the
      deswizzled tiles, in the same order. */
  lemma DeswizzledTiles(data: seq<byte>, d: DeswizzleConfig, s: SwizzleConfig)
    requires DeswizzleReady(d, |data|) && SwizzleReady(s, |data|) && Paired(d, s)
    ensures SwizzleReady(s, |DeswizzleSpec(data, d)|)
    ensures SwizzleTiles(DeswizzleSpec(data, d), s) == Tiles(data, d)
  {
    DeswizzleLength(data, d);
    var tiles := Tiles(data, d);
    var sh := ShapeAfterMerge(Shape(1, 1), d.steps);
    ShapeBeforeSplitReverse(Shape(1, 1), d.steps);
    TilesShape(data, d);
    AssembleShape(tiles, d.tilePerWidth, s.tilePerHeight, sh, UnitsOfSize(d.readSize));
    var image := Assemble(tiles, d.tilePerWidth);
    assert DeswizzleImage(data, d) == image;
    ToGridToBytes(image, s.rowCount, s.columnCount, s.readSize);
    SplitAssembled(tiles, d.tilePerWidth, s.tilePerHeight, sh);
  }

  /** Swizzling each deswizzled tile and joining the results gives back the
      buffer the tiles were read from. */
  lemma TilesSwizzleBack(data: seq<byte>, d: DeswizzleConfig)
    requires DeswizzleReady(d, |data|)
    ensures Positive(Reverse(d.steps))
    ensures Flatten(TileOutputs(Tiles(data, d), Reverse(d.steps))) == data
  {
    PositiveReverse(d.steps);
    var size := d.readPerTileCount * d.readSize;
    var outs := TileOutputs(Tiles(data, d), Reverse(d.steps));
    var pieces := Chunks(data, size, d.tileCount);
    forall t | 0 <= t < d.tileCount ensures outs[t] == pieces[t] {
      SwizzleUndoesTile(data, d, t);
      ChunkAt(data, size, d.tileCount, t);
    }
    assert outs == pieces;
    FlattenChunks(data, size, d.tileCount);
    assert data[..size * d.tileCount] == data;
  }

  /** `swizzle` undoes `deswizzle`, for configurations built from the same
      arguments. */
  lemma SwizzleDeswizzle(data: seq<byte>, d: DeswizzleConfig, s: SwizzleConfig)
    requires DeswizzleReady(d, |data|) && SwizzleReady(s, |data|) && Paired(d, s)
    ensures SwizzleReady(s, |DeswizzleSpec(data, d)|)
    ensures SwizzleSpec(DeswizzleSpec(data, d), s) == data
  {
    DeswizzledTiles(data, d, s);
    TilesSwizzleBack(data, d);
  }

  /** `deswizzle` undoes `swizzle`, for configurations built from the same
      arguments. */
  lemma DeswizzleSwizzle(data: seq<byte>, d: DeswizzleConfig, s: SwizzleConfig)
    requires DeswizzleReady(d, |data|) && SwizzleReady(s, |data|) && Paired(d, s)
    ensures DeswizzleReady(d, |SwizzleSpec(data, s)|)
    ensures DeswizzleSpec(SwizzleSpec(data, s), d) == data
  {
    SwizzleLength(data, s);
    var out := SwizzleSpec(data, s);
    var tiles := SwizzleTiles(data, s);
    SwizzleTilesShape(data, s);
    forall t | 0 <= t < d.tileCount ensures Tiles(out, d)[t] == tiles[t] {
      DeswizzleUndoesTile(data, d, s, t);
    }
    assert Tiles(out, d) == tiles;
    var sh := SwizzleTileShape(s.steps);
    var image := ToGrid(data, s.rowCount, s.columnCount, s.readSize);
    ToGridShape(data, s.rowCount, s.columnCount, s.readSize);
    AssembleSplit(image, s.tilePerWidth, s.tilePerHeight, sh);
    assert DeswizzleImage(out, d) == image;
    ToBytesToGrid(data, s.rowCount, s.columnCount, s.readSize);
  }

  // ---------------------------------------------------------------------------
  // Constructing and running

  /** `BytesSwizzle(BytesDeswizzle(args, data).deswizzle(), args).swizzle()`
      is `data` whenever the deswizzle succeeds. */
  lemma DeswizzleThenSwizzle(p: Params, data: seq<byte>)
    requires InDomain(p) && p.width > 0 && p.height > 0 && DeswizzleResult(p, data).Ok?
    ensures SwizzleResult(p, DeswizzleResult(p, data).value) == Ok(data)
  {
    InitsReady(p, |data|);
    var d, s := DeswizzlerInit(p, |data|).value, SwizzlerInit(p, |data|).value;
    DeswizzleLength(data, d);
    SwizzleDeswizzle(data, d, s);
  }

  /** `BytesDeswizzle(BytesSwizzle(args, data).swizzle(), args).deswizzle()`
      is `data` whenever the swizzle succeeds. */
  lemma SwizzleThenDeswizzle(p: Params, data: seq<byte>)
    requires InDomain(p) && p.width > 0 && p.height > 0 && SwizzleResult(p, data).Ok?
    ensures DeswizzleResult(p, SwizzleResult(p, data).value) == Ok(data)
  {
    InitsAgree(p, |data|);
    InitsReady(p, |data|);
    var d, s := DeswizzlerInit(p, |data|).value, SwizzlerInit(p, |data|).value;
    SwizzleLength(data, s);
    DeswizzleSwizzle(data, d, s);
  }

  /** Both directions accept the same arguments, return as many bytes as
      they are given, and never raise `InvalidOutputDatasize`; they fail
      alike except on an unknown platform. */
  lemma ResultsAgree(p: Params, data: seq<byte>)
    requires Runs(p, |data|)
    ensures DeswizzleResult(p, data).Ok? <==> SwizzleResult(p, data).Ok?
    ensures DeswizzleResult(p, data).Ok? ==> |DeswizzleResult(p, data).value| == |data|
    ensures SwizzleResult(p, data).Ok? ==> |SwizzleResult(p, data).value| == |data|
    ensures DeswizzleResult(p, data).Err? ==> !DeswizzleResult(p, data).error.InvalidOutputDatasize?
    ensures SwizzleResult(p, data).Err? ==> !SwizzleResult(p, data).error.InvalidOutputDatasize?
    ensures DeswizzleResult(p, data).Err? && DeswizzleResult(p, data).error != UnsupportedPlatform ==>
              SwizzleResult(p, data) == DeswizzleResult(p, data)
  {
    InitsAgree(p, |data|);
    if DeswizzlerInit(p, |data|).Ok? {
      InitsReady(p, |data|);
      DeswizzleLength(data, DeswizzlerInit(p, |data|).value);
      SwizzleLength(data, SwizzlerInit(p, |data|).value);
    }
  }
}
