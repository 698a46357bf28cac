/** The deswizzle engine, class `BytesDeswizzle`: it cuts the buffer into read
    units, merges each tile's read units into one grid along the step list,
    joins the tiles into rows of `tile_per_width` tiles, stacks the rows, and
    returns the image's bytes in row-major order.

    The pure functions first (`TileUnits`, `DeswizzleTileSpec`, `Tiles`,
    `Assemble`, `DeswizzleSpec`) state what the engine computes, and the
    lemmas after them what that computation guarantees; the class then does
    it step by step and is proved to compute exactly `DeswizzleSpec`. */
module Deswizzler {
  import opened Arith
  import opened Grids
  import opened Steps
  import opened Platform

  /** The read units of exactly `n` bytes each. */
  ghost function UnitsOfSize(n: nat): iset<ReadUnit> {
    iset u: ReadUnit | |u| == n
  }

  /** The 1x1 grids `[[unit]]` that `__get_tile_data` wraps around each read unit. */
  function Singletons(units: seq<ReadUnit>): seq<Grid<ReadUnit>> {
    seq(|units|, i requires 0 <= i < |units| => [[units[i]]])
  }

  /** The read units of tile `t`: `read_per_tile_count` runs of `read_size`
      bytes starting at byte `t * read_per_tile_count * read_size`. */
  function TileUnits(data: seq<byte>, c: DeswizzleConfig, t: nat): seq<ReadUnit>
    requires (t + 1) * (c.readPerTileCount * c.readSize) <= |data|
  {
    var size := c.readPerTileCount * c.readSize;
    Chunks(data[t * size..], c.readSize, c.readPerTileCount)
  }

  /** `__deswizzle_tile` on given read units: the one grid that merging them
      along the step list leaves. */
  function DeswizzleTileSpec(units: seq<ReadUnit>, steps: seq<Step>): Grid<ReadUnit>
    requires Positive(steps) && |units| == Product(steps)
  {
    SingletonsShape(units);
    MergeShape(Singletons(units), steps, Shape(1, 1), 1);
    Merge(Singletons(units), steps)[0]
  }

  /** Tile `t` of a buffer of `n` bytes lies inside the buffer. */
  lemma TileInBounds(c: DeswizzleConfig, n: nat, t: nat)
    requires DeswizzleReady(c, n) && t < c.tileCount
    ensures (t + 1) * (c.readPerTileCount * c.readSize) <= n
  {
    var size := c.readPerTileCount * c.readSize;
    MulStep(size, t, c.tileCount);
    MulAddOne(t, size);
    MulComm(size, t);
    MulComm(size, c.tileCount);
  }

  function TileAt(data: seq<byte>, c: DeswizzleConfig, t: nat): Grid<ReadUnit>
    requires DeswizzleReady(c, |data|) && t < c.tileCount
  {
    TileInBounds(c, |data|, t);
    DeswizzleTileSpec(TileUnits(data, c, t), c.steps)
  }

  /** The deswizzled tiles, in the order of the buffer. */
  function Tiles(data: seq<byte>, c: DeswizzleConfig): (r: seq<Grid<ReadUnit>>)
    requires DeswizzleReady(c, |data|)
    ensures |r| == c.tileCount
  {
    seq(c.tileCount, t requires 0 <= t < c.tileCount => TileAt(data, c, t))
  }

  /** The tiles joined side by side in rows of `tilePerWidth`, and the rows
      stacked: the last two `__concat_arrays` calls of `deswizzle`. The source
      divides by the number of rows, hence the precondition. */
  function Assemble(tiles: seq<Grid<ReadUnit>>, tilePerWidth: nat): Grid<ReadUnit>
    requires tilePerWidth > 0 && |tiles| / tilePerWidth > 0
  {
    var rows := ConcatGroups(tiles, tilePerWidth, Horizontal);
    ConcatGroups(rows, |rows|, Vertical)[0]
  }

  /** `.tobytes()`: the read units of the grid, row after row. */
  function ToBytes(g: Grid<ReadUnit>): seq<byte> {
    Flatten(Flatten(g))
  }

  /** The image grid `deswizzle()` assembles. */
  function DeswizzleImage(data: seq<byte>, c: DeswizzleConfig): Grid<ReadUnit>
    requires DeswizzleReady(c, |data|)
  {
    PositiveQuotient(c.tileCount, c.tilePerWidth);
    Assemble(Tiles(data, c), c.tilePerWidth)
  }

  /** The bytes `deswizzle()` builds before its final length check. */
  function DeswizzleSpec(data: seq<byte>, c: DeswizzleConfig): seq<byte>
    requires DeswizzleReady(c, |data|)
  {
    ToBytes(DeswizzleImage(data, c))
  }

  /** Constructing a `BytesDeswizzle` and calling `deswizzle()`: the first
      exception raised, or the linear image. */
  function DeswizzleResult(p: Params, data: seq<byte>): Result<seq<byte>>
    requires Runs(p, |data|)
  {
    match DeswizzlerInit(p, |data|)
    case Err(e) => Err(e)
    case Ok(c) =>
      InitsReady(p, |data|);
      Ok(DeswizzleSpec(data, c))
  }

  // ---------------------------------------------------------------------------
  // What the computation guarantees

  lemma SingletonsShape(units: seq<ReadUnit>)
    ensures |Singletons(units)| == |units|
    ensures AllHaveShape(Singletons(units), Shape(1, 1))
  {
  }

  /** One more read unit: the `n`-th unit after `start` is the slice the
      cursor `lo = start + n * size` points at, and the cursor then moves to
      the next unit. */
  lemma ReadStep(data: seq<byte>, start: nat, size: nat, count: nat, n: nat, lo: nat)
    requires start + count * size <= |data| && n < count && lo == start + n * size
    ensures lo + size <= |data| && lo + size == start + (n + 1) * size
    ensures Singletons(Chunks(data[start..], size, n + 1)) ==
            Singletons(Chunks(data[start..], size, n)) + [[[data[lo..lo + size]]]]
  {
    MulStep(size, n, count);
    MulAddOne(n, size);
    assert size * (n + 1) <= |data[start..]|;
    ChunksSnoc(data[start..], size, n);
    DropSlice(data, start, n * size, size);
    SingletonsSnoc(Chunks(data[start..], size, n), data[lo..lo + size]);
  }

  lemma SingletonsSnoc(units: seq<ReadUnit>, u: ReadUnit)
    ensures Singletons(units + [u]) == Singletons(units) + [[[u]]]
  {
  }

  lemma SingletonsElems(units: seq<ReadUnit>, S: iset<ReadUnit>)
    requires forall u :: u in units ==> u in S
    ensures AllElemsIn(Singletons(units), S)
  {
    forall g, row, x | g in Singletons(units) && row in g && x in row ensures x in S {
      var i :| 0 <= i < |units| && Singletons(units)[i] == g;
    }
  }

  /** The bound and the cut of `TileUnits`, for a `size` already known to be
      the tile's byte size. */
  lemma TileUnitsFrom(data: seq<byte>, c: DeswizzleConfig, t: nat, size: nat, lo: nat)
    requires size == c.readPerTileCount * c.readSize && lo == t * size && lo + size <= |data|
    ensures (t + 1) * (c.readPerTileCount * c.readSize) <= |data|
    ensures TileUnits(data, c, t) == Chunks(data[lo..], c.readSize, c.readPerTileCount)
  {
    MulAddOne(t, size);
  }

  /** Tile `t` is made of the bytes `[t*size, (t+1)*size)` of the buffer,
      `size` being the tile's byte size. */
  lemma TileReadsItsBytes(data: seq<byte>, c: DeswizzleConfig, t: nat)
    requires (t + 1) * (c.readPerTileCount * c.readSize) <= |data|
    ensures var size := c.readPerTileCount * c.readSize;
      Flatten(TileUnits(data, c, t)) == data[t * size..(t + 1) * size]
  {
    var size := c.readPerTileCount * c.readSize;
    MulAddOne(t, size);
    var lo := t * size;
    assert c.readSize * c.readPerTileCount == size;
    FlattenChunks(data[lo..], c.readSize, c.readPerTileCount);
    DropSlice(data, lo, 0, size);
  }

  /** Every read unit of a tile is `readSize` bytes long. */
  lemma TileUnitsSized(data: seq<byte>, c: DeswizzleConfig, t: nat)
    requires (t + 1) * (c.readPerTileCount * c.readSize) <= |data|
    ensures |TileUnits(data, c, t)| == c.readPerTileCount
    ensures forall u :: u in TileUnits(data, c, t) ==> u in UnitsOfSize(c.readSize)
  {
  }

  /** A merged tile has the shape the step list builds from single read units,
      and holds only the tile's read units. */
  lemma TileShape(units: seq<ReadUnit>, steps: seq<Step>, S: iset<ReadUnit>)
    requires Positive(steps) && |units| == Product(steps)
    requires forall u :: u in units ==> u in S
    ensures HasShape(DeswizzleTileSpec(units, steps), ShapeAfterMerge(Shape(1, 1), steps))
    ensures ElemsIn(DeswizzleTileSpec(units, steps), S)
  {
    SingletonsShape(units);
    SingletonsElems(units, S);
    MergeShape(Singletons(units), steps, Shape(1, 1), 1);
    MergeElems(Singletons(units), steps, S);
    assert DeswizzleTileSpec(units, steps) in Merge(Singletons(units), steps);
  }

  /** All tiles share one shape and hold read units of `readSize` bytes. */
  lemma TilesShape(data: seq<byte>, c: DeswizzleConfig)
    requires DeswizzleReady(c, |data|)
    ensures AllHaveShape(Tiles(data, c), ShapeAfterMerge(Shape(1, 1), c.steps))
    ensures AllElemsIn(Tiles(data, c), UnitsOfSize(c.readSize))
  {
    var ts := Tiles(data, c);
    forall g | g in ts
      ensures HasShape(g, ShapeAfterMerge(Shape(1, 1), c.steps)) && ElemsIn(g, UnitsOfSize(c.readSize))
    {
      var t :| 0 <= t < |ts| && ts[t] == g;
      TileInBounds(c, |data|, t);
      TileUnitsSized(data, c, t);
      TileShape(TileUnits(data, c, t), c.steps, UnitsOfSize(c.readSize));
    }
  }

  /** `tilePerHeight` rows of `tilePerWidth` tiles of shape `sh` make an image
      `tilePerHeight * sh.rows` high and `tilePerWidth * sh.cols` wide. */
  lemma AssembleShape(tiles: seq<Grid<ReadUnit>>, tilePerWidth: nat, tilePerHeight: nat, sh: Shape, S: iset<ReadUnit>)
    requires tilePerWidth > 0 && tilePerHeight > 0 && |tiles| == tilePerHeight * tilePerWidth
    requires AllHaveShape(tiles, sh) && AllElemsIn(tiles, S)
    ensures |tiles| / tilePerWidth == tilePerHeight
    ensures HasShape(Assemble(tiles, tilePerWidth), Shape(tilePerHeight * sh.rows, tilePerWidth * sh.cols))
    ensures ElemsIn(Assemble(tiles, tilePerWidth), S)
  {
    DivCancel(tilePerHeight, tilePerWidth);
    var rows := ConcatGroups(tiles, tilePerWidth, Horizontal);
    ConcatGroupsShape(tiles, tilePerWidth, Horizontal, sh);
    ConcatGroupsElems(tiles, tilePerWidth, Horizontal, S);
    ConcatGroupsWhole(rows, Vertical);
    ConcatShape(rows, tilePerHeight, Vertical, Scale(sh, tilePerWidth, Horizontal));
    ConcatElems(rows, Vertical, S);
  }

  /** An image of `sh` read units of `n` bytes has `sh.rows * sh.cols * n` bytes. */
  lemma ToBytesLength(g: Grid<ReadUnit>, sh: Shape, n: nat)
    requires HasShape(g, sh) && ElemsIn(g, UnitsOfSize(n))
    ensures |Flatten(g)| == sh.rows * sh.cols
    ensures |ToBytes(g)| == sh.rows * sh.cols * n
  {
    FlattenLength(g, sh.cols);
    var units := Flatten(g);
    forall j | 0 <= j < |units| ensures |units[j]| == n {
      FlattenMember(g, units[j]);
    }
    FlattenLength(units, n);
  }

  lemma ImageArea(tileCount: nat, tpw: nat, tph: nat, h: nat, w: nat, rpt: nat, rs: nat)
    requires tileCount == tpw * tph && h * w == rpt
    ensures (tph * h) * (tpw * w) * rs == tileCount * (rpt * rs)
  {
    MulRearrange4(tph, h, tpw, w);
  }

  /** `deswizzle()` returns exactly as many bytes as it was given. */
  lemma DeswizzleLength(data: seq<byte>, c: DeswizzleConfig)
    requires DeswizzleReady(c, |data|)
    ensures |DeswizzleSpec(data, c)| == |data|
  {
    var sh := ShapeAfterMerge(Shape(1, 1), c.steps);
    var tiles := Tiles(data, c);
    var tph := c.tileCount / c.tilePerWidth;
    ModExact(c.tileCount, c.tilePerWidth);
    PositiveQuotient(c.tileCount, c.tilePerWidth);
    TilesShape(data, c);
    AssembleShape(tiles, c.tilePerWidth, tph, sh, UnitsOfSize(c.readSize));
    var image := Assemble(tiles, c.tilePerWidth);
    MulNonneg(tph, sh.rows);
    MulNonneg(c.tilePerWidth, sh.cols);
    ToBytesLength(image, Shape(tph * sh.rows, c.tilePerWidth * sh.cols), c.readSize);
    MergeArea(Shape(1, 1), c.steps);
    ImageArea(c.tileCount, c.tilePerWidth, tph, sh.rows, sh.cols, c.readPerTileCount, c.readSize);
    assert DeswizzleSpec(data, c) == ToBytes(image);
  }

  /** The two `__concat_arrays` calls of `deswizzle`, one after the other,
      leave one grid: the assembled image. */
  lemma AssembleStages(tiles: seq<Grid<ReadUnit>>, tpw: nat)
    requires tpw > 0 && |tiles| / tpw > 0
    ensures var rows := ConcatGroups(tiles, tpw, Horizontal);
      |rows| > 0 && |ConcatGroups(rows, |rows|, Vertical)| == 1 &&
      ConcatGroups(rows, |rows|, Vertical)[0] == Assemble(tiles, tpw)
  {
    var rows := ConcatGroups(tiles, tpw, Horizontal);
    ConcatGroupsWhole(rows, Vertical);
  }

  /** `DeswizzleSpec` is the bytes of the assembled tiles, as many as the
      buffer holds. */
  lemma DeswizzleSpecBytes(data: seq<byte>, c: DeswizzleConfig)
    requires DeswizzleReady(c, |data|)
    ensures c.tileCount / c.tilePerWidth > 0
    ensures DeswizzleSpec(data, c) == ToBytes(Assemble(Tiles(data, c), c.tilePerWidth))
    ensures |DeswizzleSpec(data, c)| == |data|
  {
    PositiveQuotient(c.tileCount, c.tilePerWidth);
    DeswizzleLength(data, c);
  }

  /** Row `i` of grid `r` of a vertical stack of grids `h` rows high. */
  lemma StackedRow(rows: seq<Grid<ReadUnit>>, h: nat, r: nat, i: nat)
    requires forall j :: 0 <= j < |rows| ==> |rows[j]| == h
    requires r < |rows| && i < h
    ensures r * h + i < |Flatten(rows)| && Flatten(rows)[r * h + i] == rows[r][i]
  {
    FlattenSlice(rows, h, r);
    var band := Flatten(rows)[r * h..r * h + h];
    assert band[i] == Flatten(rows)[r * h + i];
  }

  /** Row `i` of grid `k` of a side-by-side join of grids `w` columns wide. */
  lemma JoinedSlice(group: seq<Grid<ReadUnit>>, w: nat, k: nat, i: nat)
    requires forall j :: 0 <= j < |group| ==> i < |group[j]| && |group[j][i]| == w
    requires k < |group|
    ensures i < |JoinColumns(group)| && k * w + w <= |JoinColumns(group)[i]|
    ensures JoinColumns(group)[i][k * w..k * w + w] == group[k][i]
  {
    var parts := seq(|group|, j requires 0 <= j < |group| => RowOr(group[j], i));
    assert JoinColumns(group)[i] == Flatten(parts);
    FlattenSlice(parts, w, k);
  }

  /** Row `i` of tile `k` of tile-row `r` within that tile-row's joined grid. */
  lemma PlacementInRow(tiles: seq<Grid<ReadUnit>>, tpw: nat, w: nat, r: nat, k: nat, i: nat)
    requires r * tpw + tpw <= |tiles| && k < tpw
    requires forall j :: 0 <= j < |tiles| ==> i < |tiles[j]| && |tiles[j][i]| == w
    ensures r * tpw + k < |tiles|
    ensures var row := Concat(tiles[r * tpw..r * tpw + tpw], Horizontal);
      i < |row| && k * w + w <= |row[i]| && row[i][k * w..k * w + w] == tiles[r * tpw + k][i]
  {
    var lo := r * tpw;
    var group := tiles[lo..lo + tpw];
    forall j | 0 <= j < |group| ensures i < |group[j]| && |group[j][i]| == w {
      assert group[j] == tiles[lo + j];
    }
    assert group[k] == tiles[lo + k];
    JoinedSlice(group, w, k, i);
  }

  /** In an assembled image, tile `at = r * tilePerWidth + k` sits at
      tile-row `r` and tile-column `k`: its row `i` is image row
      `row = r * H + i` from read unit `lo = k * W` on. */
  lemma AssemblePlacement(tiles: seq<Grid<ReadUnit>>, tpw: nat, tph: nat, sh: Shape, r: nat, k: nat, i: nat,
                          at: nat, row: nat, lo: nat)
    requires tpw > 0 && |tiles| == tpw * tph && AllHaveShape(tiles, sh)
    requires r < tph && k < tpw && i < sh.rows
    requires at == r * tpw + k && row == r * sh.rows + i && lo == k * sh.cols
    ensures |tiles| / tpw == tph && at < |tiles| && i < |tiles[at]|
    ensures var image := Assemble(tiles, tpw);
      row < |image| && lo + sh.cols <= |image[row]| && image[row][lo..lo + sh.cols] == tiles[at][i]
  {
    DivCancel(tph, tpw);
    MulStep(tpw, r, tph);
    assert tiles[at] in tiles;
    AssembledRow(tiles, tpw, tph, sh, r, i, row);
    TileRowWidths(tiles, sh, i);
    PlacementInRow(tiles, tpw, sh.cols, r, k, i);
  }

  /** Image row `row = r * H + i` is row `i` of tile-row `r`, the tiles
      `r * tilePerWidth` to `r * tilePerWidth + tilePerWidth` side by side. */
  lemma AssembledRow(tiles: seq<Grid<ReadUnit>>, tpw: nat, tph: nat, sh: Shape, r: nat, i: nat, row: nat)
    requires tpw > 0 && |tiles| == tpw * tph && AllHaveShape(tiles, sh)
    requires r < tph && i < sh.rows && row == r * sh.rows + i
    ensures |tiles| / tpw == tph && r * tpw + tpw <= |tiles|
    ensures var image, joined := Assemble(tiles, tpw), Concat(tiles[r * tpw..r * tpw + tpw], Horizontal);
      row < |image| && i < |joined| && image[row] == joined[i]
  {
    DivCancel(tph, tpw);
    MulComm(tph, tpw);
    var rows := ConcatGroups(tiles, tpw, Horizontal);
    AssembledRows(tiles, tpw, tph, sh);
    StackedRow(rows, sh.rows, r, i);
    ConcatGroupsAt(tiles, tpw, Horizontal, r);
  }

  /** An assembled image is its tile-rows stacked, each tile-row as high as
      a tile. */
  lemma AssembledRows(tiles: seq<Grid<ReadUnit>>, tpw: nat, tph: nat, sh: Shape)
    requires tpw > 0 && tph > 0 && |tiles| == tph * tpw && AllHaveShape(tiles, sh)
    ensures |tiles| / tpw > 0
    ensures var rows := ConcatGroups(tiles, tpw, Horizontal);
      Assemble(tiles, tpw) == Flatten(rows) &&
      forall j :: 0 <= j < |rows| ==> |rows[j]| == sh.rows
  {
    MulComm(tph, tpw);
    DivCancel(tph, tpw);
    var rows := ConcatGroups(tiles, tpw, Horizontal);
    ConcatGroupsShape(tiles, tpw, Horizontal, sh);
    ConcatGroupsWhole(rows, Vertical);
    forall j | 0 <= j < |rows| ensures |rows[j]| == sh.rows {
      assert rows[j] in rows;
    }
  }

  /** Row `i` of every tile is `sh.cols` read units wide. */
  lemma TileRowWidths(tiles: seq<Grid<ReadUnit>>, sh: Shape, i: nat)
    requires AllHaveShape(tiles, sh) && i < sh.rows
    ensures forall j :: 0 <= j < |tiles| ==> i < |tiles[j]| && |tiles[j][i]| == sh.cols
  {
    forall j | 0 <= j < |tiles| ensures i < |tiles[j]| && |tiles[j][i]| == sh.cols {
      assert tiles[j] in tiles;
      assert tiles[j][i] in tiles[j];
    }
  }

  /** Tiles are placed in row-major order: tile `r * tilePerWidth + k` of
      `tiles` lands at tile-row `r` and tile-column `k` of `image`, so that
      row `i` of the tile is the slice of image row `r * H + i` that starts
      at read unit `k * W`, for tiles `H` read units high and `W` wide. */
  lemma TilePlacement(data: seq<byte>, c: DeswizzleConfig, tiles: seq<Grid<ReadUnit>>, image: Grid<ReadUnit>,
                      r: nat, k: nat, i: nat)
    requires DeswizzleReady(c, |data|) && tiles == Tiles(data, c) && image == DeswizzleImage(data, c)
    requires r < c.tileCount / c.tilePerWidth && k < c.tilePerWidth
    requires i < ShapeAfterMerge(Shape(1, 1), c.steps).rows
    ensures r * c.tilePerWidth + k < |tiles| && i < |tiles[r * c.tilePerWidth + k]|
    ensures var sh := ShapeAfterMerge(Shape(1, 1), c.steps);
      r * sh.rows + i < |image| && k * sh.cols + sh.cols <= |image[r * sh.rows + i]| &&
      image[r * sh.rows + i][k * sh.cols..k * sh.cols + sh.cols] == tiles[r * c.tilePerWidth + k][i]
  {
    var tpw, sh := c.tilePerWidth, ShapeAfterMerge(Shape(1, 1), c.steps);
    DivNat(c.tileCount, tpw);
    var tph: nat := c.tileCount / tpw;
    ModExact(c.tileCount, tpw);
    TilesShape(data, c);
    MulNonneg(r, tpw);
    MulNonneg(r, sh.rows);
    MulNonneg(k, sh.cols);
    AssemblePlacement(tiles, tpw, tph, sh, r, k, i, r * tpw + k, r * sh.rows + i, k * sh.cols);
  }

  // ---------------------------------------------------------------------------
  // The engine

  class BytesDeswizzle {
    /** The buffer given to the constructor. */
    const data: seq<byte>
    /** What the constructor stores: the step list, `read_size`,
        `read_per_tile_count`, `tile_count` and `tile_per_width`. */
    const cfg: DeswizzleConfig
    /** `data_read_idx`: where `__get_tile_data` reads next. */
    var dataReadIdx: nat

    /** `__init__` past its checks; `NewBytesDeswizzle` runs the checks. */
    constructor (p: Params, data: seq<byte>)
      requires InDomain(p) && DeswizzlerInit(p, |data|).Ok?
      ensures this.data == data && cfg == DeswizzlerInit(p, |data|).value
      ensures dataReadIdx == 0
    {
      this.data := data;
      cfg := DeswizzlerInit(p, |data|).value;
      dataReadIdx := 0;
    }

    /** `__get_tile_data`: the next `read_per_tile_count` read units, each in
        a 1x1 grid, and the cursor moved past them. */
    method GetTileData() returns (arrayList: seq<Grid<ReadUnit>>)
      requires dataReadIdx + cfg.readPerTileCount * cfg.readSize <= |data|
      modifies this
      ensures dataReadIdx == old(dataReadIdx) + cfg.readPerTileCount * cfg.readSize
      ensures arrayList == Singletons(Chunks(data[old(dataReadIdx)..], cfg.readSize, cfg.readPerTileCount))
    {
      var start := dataReadIdx;
      ghost var rest := data[start..];
      var size, count := cfg.readSize, cfg.readPerTileCount;
      arrayList := [];
      var n := 0;
      while n < count
        invariant n <= count
        invariant dataReadIdx == start + n * size
        invariant arrayList == Singletons(Chunks(rest, size, n))
      {
        var lo := dataReadIdx;
        ReadStep(data, start, size, count, n, lo);
        arrayList := arrayList + [[[data[lo..lo + size]]]];
        dataReadIdx := lo + size;
        n := n + 1;
      }
    }

    /** `__concat_arrays`: consecutive groups of `sectionNumber` grids, each
        concatenated along `axis`. */
    static method ConcatArrays(arrayList: seq<Grid<ReadUnit>>, sectionNumber: nat, axis: Axis)
      returns (newArrayList: seq<Grid<ReadUnit>>)
      requires sectionNumber > 0
      ensures newArrayList == ConcatGroups(arrayList, sectionNumber, axis)
    {
      newArrayList := [];
      ghost var groups := ConcatGroups(arrayList, sectionNumber, axis);
      var idx := 0;
      var n := 0;
      var count := |arrayList| / sectionNumber;
      while n < count
        invariant n <= count && idx == n * sectionNumber
        invariant newArrayList == groups[..n]
      {
        ConcatGroupsAt(arrayList, sectionNumber, axis, n);
        MulAddOne(n, sectionNumber);
        assert groups[..n + 1] == groups[..n] + [groups[n]];
        newArrayList := newArrayList + [Concat(arrayList[idx..idx + sectionNumber], axis)];
        idx := idx + sectionNumber;
        n := n + 1;
      }
      assert groups[..n] == groups;
    }

    /** `__deswizzle_tile`: reads one tile and merges it along the step list. */
    method DeswizzleTile() returns (tile: Grid<ReadUnit>)
      requires Positive(cfg.steps) && cfg.readPerTileCount == Product(cfg.steps)
      requires dataReadIdx + cfg.readPerTileCount * cfg.readSize <= |data|
      modifies this
      ensures dataReadIdx == old(dataReadIdx) + cfg.readPerTileCount * cfg.readSize
      ensures tile == DeswizzleTileSpec(Chunks(data[old(dataReadIdx)..], cfg.readSize, cfg.readPerTileCount), cfg.steps)
    {
      ghost var units := Chunks(data[dataReadIdx..], cfg.readSize, cfg.readPerTileCount);
      var arrayList := GetTileData();
      ghost var initial, after := arrayList, dataReadIdx;
      var steps := cfg.steps;
      var n := 0;
      while n < |steps|
        invariant dataReadIdx == after
        invariant n <= |steps| && Positive(steps[..n])
        invariant arrayList == Merge(initial, steps[..n])
      {
        var step := steps[n];
        assert steps[..n + 1] == steps[..n] + [step];
        PositivePrefix(steps, n + 1);
        MergeSnoc(initial, steps[..n], step);
        arrayList := ConcatArrays(arrayList, step.groupSize, step.axis);
        n := n + 1;
      }
      assert steps[..n] == steps;
      SingletonsShape(units);
      MergeShape(initial, steps, Shape(1, 1), 1);
      tile := arrayList[0];
    }

    /** The first loop of `deswizzle()`: `tile_count` tiles read and merged
        in turn, which consumes the whole buffer. */
    method DeswizzleTiles() returns (tileList: seq<Grid<ReadUnit>>)
      requires DeswizzleReady(cfg, |data|) && dataReadIdx == 0
      modifies this
      ensures dataReadIdx == |data|
      ensures tileList == Tiles(data, cfg)
    {
      var size := cfg.readPerTileCount * cfg.readSize;
      ghost var tiles := Tiles(data, cfg);
      tileList := [];
      var t := 0;
      while t < cfg.tileCount
        invariant t <= cfg.tileCount && dataReadIdx == t * size
        invariant tileList == tiles[..t]
      {
        MulStep(size, t, cfg.tileCount);
        MulAddOne(t, size);
        var tile := DeswizzleTile();
        assert tile == tiles[t];
        assert tiles[..t + 1] == tiles[..t] + [tile];
        tileList := tileList + [tile];
        t := t + 1;
      }
      assert tiles[..t] == tiles;
    }

    /** `deswizzle()` on a fresh engine: every tile read in turn, the tiles
        assembled row by row, the image's bytes returned. The final length
        check never fails. */
    method Deswizzle() returns (r: Result<seq<byte>>)
      requires DeswizzleReady(cfg, |data|) && dataReadIdx == 0
      modifies this
      ensures dataReadIdx == |data|
      ensures r == Ok(DeswizzleSpec(data, cfg))
    {
      var tileList := DeswizzleTiles();
      DeswizzleSpecBytes(data, cfg);
      var tileListWidthConcat := ConcatArrays(tileList, cfg.tilePerWidth, Horizontal);
      AssembleStages(tileList, cfg.tilePerWidth);
      var image := ConcatArrays(tileListWidthConcat, |tileListWidthConcat|, Vertical);
      var deswizzledData := ToBytes(image[0]);
      var expected: nat, actual: nat := |data|, |deswizzledData|;
      if actual != expected {
        r := Err(InvalidOutputDatasize(expected, actual));
      } else {
        r := Ok(deswizzledData);
      }
    }
  }

  /** `BytesDeswizzle(...)`: the engine, or the exception its constructor raises. */
  method NewBytesDeswizzle(p: Params, data: seq<byte>) returns (r: Result<BytesDeswizzle>)
    requires InDomain(p)
    ensures r.Err? <==> DeswizzlerInit(p, |data|).Err?
    ensures r.Err? ==> r.error == DeswizzlerInit(p, |data|).error
    ensures r.Ok? ==> fresh(r.value) && r.value.data == data && r.value.dataReadIdx == 0 &&
                      r.value.cfg == DeswizzlerInit(p, |data|).value
  {
    match DeswizzlerInit(p, |data|)
    case Err(e) =>
      r := Err(e);
    case Ok(_) =>
      var engine := new BytesDeswizzle(p, data);
      r := Ok(engine);
  }

  /** `BytesDeswizzle(...).deswizzle()` on arguments that do not crash it. */
  method DeswizzleBytes(p: Params, data: seq<byte>) returns (r: Result<seq<byte>>)
    requires Runs(p, |data|)
    ensures r == DeswizzleResult(p, data)
  {
    var engine := NewBytesDeswizzle(p, data);
    match engine
    case Err(e) =>
      r := Err(e);
    case Ok(d) =>
      InitsReady(p, |data|);
      r := d.Deswizzle();
  }
}
