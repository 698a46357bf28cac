# pyswizzle in Dafny

pyswizzle converts texture data between the linear layout of an image and
the tiled ("swizzled") layouts of two consoles: 'nsw' (Nintendo Switch, with
a swizzle mode `m` that makes tiles `2^m` times taller) and 'ps4'. The
library has two classes, each checked on construction:

- `BytesDeswizzle` cuts the swizzled buffer into read units of `read_size`
  bytes. For each tile it merges the tile's read units into one 2-D grid by
  repeated `numpy.concatenate` along a fixed list of `(group size, axis)`
  steps. It then joins the tiles side by side, `tile_per_width` to a row,
  stacks the rows, and returns the image's bytes.
- `BytesSwizzle` reads the linear buffer as a grid of read units and splits
  it into tile rows, then into tiles. It splits every tile down to single
  read units by repeated `numpy.split` along the reversed step list, and
  emits the read units tile after tile.

The model has these modules:

- `Grids`: 2-D grids as `seq<seq<X>>`, with `numpy.concatenate` and
  `numpy.split` on them, and their inverse laws.
- `Steps`: step lists, the merge and split folds over them, and the proof
  that splitting along the reversed list undoes merging, and the reverse.
- `Platform`: the constructor arguments, the exceptions, the profile tables
  and the validation. Each constructor is a function that returns either the
  stored configuration or the first exception raised.
- `Deswizzler`: class `BytesDeswizzle`, with a mutable read cursor.
- `Swizzler`: class `BytesSwizzle`.
- `RoundTrip`: both round trips.
- `Validation`: the order of checks and the 'ps4' worked example.
- `Layout`: where each read unit of a tile lands. The 'ps4' steps place
  them in Z-order (Morton order). The 'nsw' steps place them at the byte
  offsets of the block-linear GOB layout (a GOB is 8 rows of 64 bytes).
- `Arith`: arithmetic helper lemmas.

Each engine comes in two forms:

- Pure functions (`DeswizzleSpec`, `SwizzleSpec`) state what it computes.
- A class does the same work loop by loop, with the source's loops and
  cursor. Each of its methods is proved to compute its function.

The theorems are stated about the functions:

- row-major tile placement;
- output length equal to input length, so `InvalidOutputDatasize` is never
  raised;
- `swizzle(deswizzle(x)) == x` and `deswizzle(swizzle(x)) == x` for engines
  built from the same arguments.

In three places a whole loop of the source became a helper method with its
own contract:

- the tile loop of `deswizzle()` (`DeswizzleTiles`);
- the inner loop of `__split_arrays` (`AppendEach`);
- the block loop of `swizzle()` (`EmitBlocks`).

The statements and the order of effects are those of the source.

On both platforms the swizzle list is the exact reversal of the deswizzle
list (lines 39 and 118, 47 and 126); `Platform.NswTables` and
`Platform.Ps4Tables` prove it.

## Model

| member | source | states |
|---|---|---|
| Validation.DeswizzlerSizeFirst | src/pyswizzle/pyswizzle.py:28-31 | the deswizzler raises `InvalidInputDatasize(expected, actual)` if and only if the length differs from `(w*h)//(bw*bh)*bpb`, before any platform check |
| Validation.SwizzlerSizeFirst | src/pyswizzle/pyswizzle.py:107-110 | the same for the swizzler |
| Validation.PlatformErrors | src/pyswizzle/pyswizzle.py:33-52 | `MissingSwizzleMode` exactly for 'nsw' without a mode. An unknown platform gives `UnsupportedPlatform` in the deswizzler and a `NameError` in the swizzler. Each arises exactly when the size check passed. |
| Validation.DeswizzlerTileChecks | src/pyswizzle/pyswizzle.py:54-65 | the checks run in order: whole tiles in the buffer, then in the width, then in the height. Each raises its own error with the required and the actual value. Construction succeeds if and only if all three hold. |
| Validation.SwizzlerTileChecks | src/pyswizzle/pyswizzle.py:133-146 | the same checks, in the same order, in the swizzler |
| Validation.InitsNeverReportOutputSize | src/pyswizzle/pyswizzle.py:22-65 | validation never raises `InvalidOutputDatasize` |
| Validation.ProfileTables | src/pyswizzle/pyswizzle.py:36-49 | both constructors pick the same tile geometry. A tile is `read_per_tile_count * read_size` bytes. The steps multiply to `read_per_tile_count`, and the swizzle list (lines 118, 126) is the deswizzle list reversed. |
| Validation.NswProfile | src/pyswizzle/pyswizzle.py:36-41 | the 'nsw' row: tile size `512*2^m`, width `64//bpb*bw`, height `8*bh*2^m`, read size 16, `32*2^m` reads, both step lists |
| Validation.Ps4Profile | src/pyswizzle/pyswizzle.py:44-49 | the 'ps4' row: tile size `64*bpb`, width `8*bw`, height `8*bh`, read size `bpb`, 64 reads, both step lists |
| Validation.Ps4ExampleConfigs | src/pyswizzle/pyswizzle.py:28-65 | a 32x32 'ps4' image of 4x4 blocks of 8 bytes is 512 bytes: one tile of 64 units, 8 rows of 8 units. 511 bytes give `InvalidInputDatasize(512, 511)` in both constructors. |
| Validation.Ps4ExampleRuns | src/pyswizzle/pyswizzle.py:89-97 | for that example, any 512-byte buffer passes through both engines with 512 bytes out, and each direction undoes the other |
| Validation.UnknownPlatformNameError | src/pyswizzle/pyswizzle.py:130-131 | platform "xbox": the deswizzler raises `UnsupportedPlatform`, the swizzler as written a `NameError`, the corrected swizzler `UnsupportedPlatform` |
| Platform.NswTables | src/pyswizzle/pyswizzle.py:39-41 | the 'nsw' steps are positive and multiply to `32*2^m`. Merging gives tiles of `8*2^m` by 4 read units. The list on line 118 is their reverse. |
| Platform.Ps4Tables | src/pyswizzle/pyswizzle.py:47-49 | the 'ps4' steps multiply to 64 and build 8x8 tiles. The list on line 126 is their reverse. |
| Platform.GeometryPositive | src/pyswizzle/pyswizzle.py:36-46 | tile size, width, height and read size are positive, so the modulo checks never divide by zero |
| Platform.InitsAgree | src/pyswizzle/pyswizzle.py:101-146 | the two constructors accept the same arguments and fail with the same error, except on an unknown platform |
| Platform.SwizzlerInitFixedAgrees | src/pyswizzle/pyswizzle.py:130-131 | the corrected swizzler constructor fails exactly when the deswizzler's does, with the same error. On success it stores what the constructor as written stores. |
| Platform.Ps4Numbers | src/pyswizzle/pyswizzle.py:43-65 | after the checks, the 'ps4' buffer is `a*b` tiles of `64*bpb` bytes, and the image is `8b` rows of `8a` blocks |
| Platform.NswNumbers | src/pyswizzle/pyswizzle.py:112-146 | after the checks, the 'nsw' buffer is `a*b` tiles of `512*2^m` bytes, and `column_count` (line 120) is `4a` |
| Platform.NswConfigs | src/pyswizzle/pyswizzle.py:33-65 | the values a successful 'nsw' construction stores, for an image `a` tiles wide and `b` high |
| Platform.Ps4Configs | src/pyswizzle/pyswizzle.py:43-65 | the values a successful 'ps4' construction stores |
| Platform.NswReady | src/pyswizzle/pyswizzle.py:36-41 | those 'nsw' values meet every fact the engines rely on, and the two configurations agree |
| Platform.Ps4Ready | src/pyswizzle/pyswizzle.py:44-49 | the same for 'ps4' |
| Platform.InitsReady | src/pyswizzle/pyswizzle.py:54-65 | every successful validation of a non-empty image gives engine-ready, agreeing configurations |
| Grids.Chunks | src/pyswizzle/pyswizzle.py:70-72 | `k` consecutive slices of `n` items, each `n` long |
| Grids.Split | src/pyswizzle/pyswizzle.py:164 | `numpy.split` into `k` parts yields `k` grids |
| Grids.ConcatGroups | src/pyswizzle/pyswizzle.py:75-81 | one grid per whole group; a trailing partial group is dropped |
| Grids.ConcatGroupsAt | src/pyswizzle/pyswizzle.py:78-80 | result `j` is the concatenation of `array_list[j*k : j*k+k]` |
| Grids.SplitAll | src/pyswizzle/pyswizzle.py:161-166 | `k` parts per input grid |
| Grids.SplitAllAt | src/pyswizzle/pyswizzle.py:163-165 | element `j*k+c` of the result is part `c` of grid `j` |
| Grids.SplitConcat | src/pyswizzle/pyswizzle.py:164 | splitting a concatenation of `k` equal grids into `k` parts gives them back |
| Grids.ConcatSplit | src/pyswizzle/pyswizzle.py:79 | concatenating the `k` parts of a split gives the grid back |
| Grids.ConcatShape | src/pyswizzle/pyswizzle.py:79 | concatenating `k` grids of one shape scales that shape by `k` along the axis |
| Grids.SplitShape | src/pyswizzle/pyswizzle.py:164 | splitting into `k` parts divides the shape by `k` along the axis |
| Grids.SplitAllConcatGroups | src/pyswizzle/pyswizzle.py:75-81 | `__split_arrays` undoes `__concat_arrays` on a list of equal grids |
| Grids.ConcatGroupsSplitAll | src/pyswizzle/pyswizzle.py:161-166 | `__concat_arrays` undoes `__split_arrays` |
| Steps.Reverse | src/pyswizzle/pyswizzle.py:118 | element `i` of the reversed list is element `n-1-i` of the list |
| Steps.PositiveReverse | src/pyswizzle/pyswizzle.py:118 | reversing keeps group sizes positive |
| Steps.MergeSnoc | src/pyswizzle/pyswizzle.py:85-86 | one more step is one more `__concat_arrays` on the result so far |
| Steps.SplitStepsSnoc | src/pyswizzle/pyswizzle.py:169-171 | one more step is one more `__split_arrays` on the result so far |
| Steps.MergeShape | src/pyswizzle/pyswizzle.py:83-87 | merging `n*Product(steps)` grids of one shape leaves `n` grids of the merged shape |
| Steps.SplitStepsShape | src/pyswizzle/pyswizzle.py:168-172 | splitting grids of the expected shape multiplies their number by `Product(steps)` and leaves the target shape |
| Steps.MergeArea | src/pyswizzle/pyswizzle.py:85-86 | merging multiplies a grid's element count by the product of the steps |
| Steps.SplitArea | src/pyswizzle/pyswizzle.py:169-171 | a grid split into unit blocks holds the product of the steps in elements |
| Steps.ShapeBeforeSplitReverse | src/pyswizzle/pyswizzle.py:118 | the shape the reversed list splits from is the shape the list merges to |
| Steps.SplitUndoesMerge | src/pyswizzle/pyswizzle.py:168-172 | splitting along the reversed list undoes merging along the list |
| Steps.MergeUndoesSplit | src/pyswizzle/pyswizzle.py:83-87 | merging along the reversed list undoes splitting along the list |
| Deswizzler.Tiles | src/pyswizzle/pyswizzle.py:90-92 | exactly `tile_count` tiles |
| Deswizzler.TileInBounds | src/pyswizzle/pyswizzle.py:70-72 | every tile's reads stay inside the buffer |
| Deswizzler.ReadStep | src/pyswizzle/pyswizzle.py:71-72 | the next read unit is the `read_size` bytes at the cursor, and the cursor advances by `read_size` |
| Deswizzler.TileReadsItsBytes | src/pyswizzle/pyswizzle.py:68-73 | tile `t` is made of exactly bytes `[t*size, (t+1)*size)` |
| Deswizzler.TileUnitsSized | src/pyswizzle/pyswizzle.py:71 | a tile has `read_per_tile_count` units of `read_size` bytes |
| Deswizzler.TileShape | src/pyswizzle/pyswizzle.py:83-87 | a merged tile has the step list's shape and holds only the tile's read units |
| Deswizzler.TilesShape | src/pyswizzle/pyswizzle.py:89-92 | all tiles share that shape and hold `read_size`-byte units |
| Deswizzler.AssembleShape | src/pyswizzle/pyswizzle.py:93-94 | `tph` rows of `tpw` tiles make an image `tph*H` high and `tpw*W` wide |
| Deswizzler.AssembleStages | src/pyswizzle/pyswizzle.py:93-94 | bridge for the method: the two `__concat_arrays` calls leave exactly one grid, the assembled image |
| Deswizzler.ToBytesLength | src/pyswizzle/pyswizzle.py:94 | `.tobytes()` of an `R x C` grid of `n`-byte units is `R*C*n` bytes |
| Deswizzler.DeswizzleLength | src/pyswizzle/pyswizzle.py:95-96 | the deswizzled bytes are as many as the input, so the length check never fires |
| Deswizzler.DeswizzleSpecBytes | src/pyswizzle/pyswizzle.py:93-96 | bridge for the method: `DeswizzleSpec` is the bytes of the assembled tiles, and the image has at least one row of tiles |
| Deswizzler.TilePlacement | src/pyswizzle/pyswizzle.py:93-94 | row-major placement: row `i` of tile `r*tpw+k` is image row `r*H+i` from unit `k*W` to `k*W+W` |
| Deswizzler.BytesDeswizzle.constructor | src/pyswizzle/pyswizzle.py:22-66 | stores the data and the validated configuration, with the cursor at 0 |
| Deswizzler.BytesDeswizzle.GetTileData | src/pyswizzle/pyswizzle.py:68-73 | returns the next `read_per_tile_count` units as `[[unit]]` grids and advances the cursor past them |
| Deswizzler.BytesDeswizzle.ConcatArrays | src/pyswizzle/pyswizzle.py:75-81 | returns `ConcatGroups` of its input |
| Deswizzler.BytesDeswizzle.DeswizzleTile | src/pyswizzle/pyswizzle.py:83-87 | returns the merge of the next tile's units along the step list, cursor advanced one tile |
| Deswizzler.BytesDeswizzle.DeswizzleTiles | src/pyswizzle/pyswizzle.py:90-92 | returns all tiles in buffer order, cursor at the end |
| Deswizzler.BytesDeswizzle.Deswizzle | src/pyswizzle/pyswizzle.py:89-97 | returns `Ok(DeswizzleSpec)`; `InvalidOutputDatasize` is never raised |
| Deswizzler.NewBytesDeswizzle | src/pyswizzle/pyswizzle.py:22-65 | fails exactly when validation does, with its error; otherwise a fresh engine |
| Deswizzler.DeswizzleBytes | src/pyswizzle/pyswizzle.py:22-97 | constructing and calling `deswizzle()` yields `DeswizzleResult` |
| Swizzler.ToGridShape | src/pyswizzle/pyswizzle.py:148-159 | the buffer read as a grid has `row_count` rows of `column_count` units of `read_size` bytes |
| Swizzler.SwizzleTilesShape | src/pyswizzle/pyswizzle.py:176-178 | the image splits into `tpw*tph` tiles of the shape the steps reduce to unit blocks |
| Swizzler.SwizzleTileOrder | src/pyswizzle/pyswizzle.py:176-178 | tile `r*tpw+k` is part `k` of band `r`: row-major order |
| Swizzler.SplitTileUnits | src/pyswizzle/pyswizzle.py:168-172 | a tile splits into `Product(steps)` 1x1 blocks of `read_size`-byte units |
| Swizzler.SwizzleTileBlocks | src/pyswizzle/pyswizzle.py:180-182 | every block reached by `block[0][0]` is 1x1 |
| Swizzler.TileBytesLength | src/pyswizzle/pyswizzle.py:180-182 | one tile emits `read_size * Product(steps)` bytes |
| Swizzler.TileOutputsSized | src/pyswizzle/pyswizzle.py:179-182 | every tile's output has that size |
| Swizzler.SwizzleTileBytes | src/pyswizzle/pyswizzle.py:179-182 | tile `t` occupies bytes `[t*size, t*size+size)` of the output |
| Swizzler.SwizzleLength | src/pyswizzle/pyswizzle.py:183-184 | the swizzled bytes are as many as the input, so the length check never fires |
| Swizzler.BytesSwizzle.constructor | src/pyswizzle/pyswizzle.py:101-146 | stores the data and the validated configuration |
| Swizzler.BytesSwizzle.BytesToArray | src/pyswizzle/pyswizzle.py:148-159 | returns the buffer read row by row as `row_count` rows of `column_count` units |
| Swizzler.BytesSwizzle.AppendEach | src/pyswizzle/pyswizzle.py:164-165 | appends every part, in order |
| Swizzler.BytesSwizzle.SplitArrays | src/pyswizzle/pyswizzle.py:161-166 | returns `SplitAll` of its input |
| Swizzler.BytesSwizzle.SwizzleTile | src/pyswizzle/pyswizzle.py:168-172 | returns the split of its input along the step list |
| Swizzler.BytesSwizzle.EmitBlocks | src/pyswizzle/pyswizzle.py:181-182 | returns the read units of the blocks, concatenated in order |
| Swizzler.BytesSwizzle.Swizzle | src/pyswizzle/pyswizzle.py:174-185 | returns `Ok(SwizzleSpec)`; `InvalidOutputDatasize` is never raised |
| Swizzler.NewBytesSwizzle | src/pyswizzle/pyswizzle.py:101-146 | fails exactly when validation does, with its error; otherwise a fresh engine |
| Swizzler.SwizzleBytes | src/pyswizzle/pyswizzle.py:101-185 | constructing and calling `swizzle()` yields `SwizzleResult` |
| RoundTrip.ToGridToBytes | src/pyswizzle/pyswizzle.py:148-159 | reading a grid's bytes back as a grid of its shape gives the grid |
| RoundTrip.ToBytesToGrid | src/pyswizzle/pyswizzle.py:94 | `.tobytes()` of the grid read from a buffer is the buffer |
| RoundTrip.SplitAssembled | src/pyswizzle/pyswizzle.py:177-178 | splitting the assembled image by height, then width, gives the tiles back in order |
| RoundTrip.AssembleSplit | src/pyswizzle/pyswizzle.py:93-94 | assembling the tiles of a split image gives the image back |
| RoundTrip.ProductReverse | src/pyswizzle/pyswizzle.py:118 | the reversed list moves as many units per tile |
| RoundTrip.SwizzleUndoesTile | src/pyswizzle/pyswizzle.py:168-172 | swizzling a deswizzled tile along the reversed list emits the tile's original bytes |
| RoundTrip.SwizzledTileReads | src/pyswizzle/pyswizzle.py:68-73 | the deswizzler reads tile `t` of a swizzled buffer as the units of swizzled tile `t` |
| RoundTrip.TileFromItsBlocks | src/pyswizzle/pyswizzle.py:83-87 | merging a tile's unit blocks along the reversed list rebuilds the tile |
| RoundTrip.DeswizzleUndoesTile | src/pyswizzle/pyswizzle.py:83-87 | deswizzling tile `t` of a swizzled buffer gives swizzle's tile `t` |
| RoundTrip.DeswizzledTiles | src/pyswizzle/pyswizzle.py:176-178 | the swizzler reads a deswizzled image as the deswizzled tiles, in order |
| RoundTrip.TilesSwizzleBack | src/pyswizzle/pyswizzle.py:179-182 | swizzling every deswizzled tile gives back the buffer |
| RoundTrip.SwizzleDeswizzle | src/pyswizzle/pyswizzle.py:174-185 | `swizzle(deswizzle(data)) == data` for agreeing configurations |
| RoundTrip.DeswizzleSwizzle | src/pyswizzle/pyswizzle.py:89-97 | `deswizzle(swizzle(data)) == data` for agreeing configurations |
| RoundTrip.DeswizzleThenSwizzle | src/pyswizzle/pyswizzle.py:174-185 | from the same arguments, swizzling a successful deswizzle returns `Ok(data)` |
| RoundTrip.SwizzleThenDeswizzle | src/pyswizzle/pyswizzle.py:89-97 | from the same arguments, deswizzling a successful swizzle returns `Ok(data)` |
| Platform.ExpectedDatasize | src/pyswizzle/pyswizzle.py:28 | definition, no contract: `(w*h)//(bw*bh)*bpb`, the size both constructors test first. `Validation.DeswizzlerSizeFirst` states the test. |
| Platform.DeswizzlerProfile | src/pyswizzle/pyswizzle.py:33-52 | definition, no contract: the deswizzler's platform branch. It gives `MissingSwizzleMode`, `UnsupportedPlatform`, or the tile geometry with the step list and `read_per_tile_count`. `Validation.NswProfile` and `Validation.Ps4Profile` state the values. |
| Platform.SwizzlerProfile | src/pyswizzle/pyswizzle.py:112-131 | definition, no contract: the swizzler's platform branch. It gives `MissingSwizzleMode`, the `NameError` of line 131, or the tile geometry with the step list and `column_count`. |
| Platform.TileChecks | src/pyswizzle/pyswizzle.py:54-63 | definition, no contract: the three modulo checks, in order, with the first error they raise. `Validation.DeswizzlerTileChecks` states them. |
| Platform.DeswizzlerInit | src/pyswizzle/pyswizzle.py:22-65 | definition, no contract: the `BytesDeswizzle` constructor as a function returning the first exception or the stored configuration. The Validation lemmas and `Platform.InitsReady` state its behaviour. |
| Platform.SwizzlerInit | src/pyswizzle/pyswizzle.py:101-146 | definition, no contract: the `BytesSwizzle` constructor as written, with the unknown-platform branch giving `UndefinedErrorName`. The Validation lemmas and `Platform.InitsAgree` state its behaviour. |
| Platform.SwizzlerInitFixed | src/pyswizzle/pyswizzle.py:130-131 | definition, no contract: the corrected swizzler constructor, raising `UnsupportedPlatform` on an unknown platform. `Platform.SwizzlerInitFixedAgrees` states its behaviour. |
| Platform.Runs | src/pyswizzle/pyswizzle.py:89-94 | definition, no contract: the arguments that stop at a validation error or have a positive width and height. Exactly those avoid a run-time crash; `Validation.EmptyImageCases` shows both sides. |
| Validation.EmptyImageCases | src/pyswizzle/pyswizzle.py:28-31 | an empty image with data is refused with `InvalidInputDatasize(0, n)` by both engines. With no data it passes both constructors and falls outside `Runs`. |
| Steps.Merge | src/pyswizzle/pyswizzle.py:85-86 | definition, no contract: `__concat_arrays` applied once per step, in order. `Steps.MergeShape`, `Steps.MergeArea` and `Steps.SplitUndoesMerge` state its properties. |
| Steps.SplitSteps | src/pyswizzle/pyswizzle.py:169-171 | definition, no contract: `__split_arrays` applied once per step, in order. `Steps.SplitStepsShape` and `Steps.MergeUndoesSplit` state its properties. |
| Grids.Concat | src/pyswizzle/pyswizzle.py:79 | definition, no contract: `np.concatenate` along axis 0 (stacking) or 1 (side by side). `Grids.ConcatShape` and `Grids.SplitConcat` state its properties. |
| Grids.JoinColumns | src/pyswizzle/pyswizzle.py:79 | definition, no contract: `np.concatenate` along axis 1, joining row `i` of every grid into row `i`. `Deswizzler.TilePlacement` states where each tile lands. |
| Deswizzler.DeswizzleTileSpec | src/pyswizzle/pyswizzle.py:83-87 | definition, no contract: a tile is the single grid left after merging its read units along the step list. `Deswizzler.TileShape` states its shape. |
| Layout.UnitAtBound | src/pyswizzle/pyswizzle.py:83-87 | `UnitAt(st, r, c)`, the index that the last step's group offset and the earlier steps' index give, is below `Product(st)` for every cell of the merged shape |
| Layout.MergeUnitAt | src/pyswizzle/pyswizzle.py:83-87 | merging `q * Product(st)` read units along any step list gives `q` grids, and cell `(r, c)` of grid `j` holds unit `j * Product(st) + UnitAt(st, r, c)` |
| Layout.TileCell | src/pyswizzle/pyswizzle.py:83-87 | cell `(r, c)` of a merged tile holds read unit `UnitAt(st, r, c)` |
| Layout.Ps4UnitAt | src/pyswizzle/pyswizzle.py:47 | on the 'ps4' step list, `UnitAt` is the Z-order index: bit `i` of the column and bit `i` of the row become bits `2i` and `2i + 1` |
| Layout.Ps4TileLayout | src/pyswizzle/pyswizzle.py:43-49 | cell `(r, c)` of a 'ps4' tile of 64 read units holds unit `ZOrder(r, c, 3)` |
| Layout.NswUnitAt | src/pyswizzle/pyswizzle.py:39-40 | on the 'nsw' step list for mode `m`, 16 bytes times `UnitAt` is `512 * (r / 8)` plus the GOB offset of byte column `16 * c` in row `r % 8` |
| Layout.NswTileLayout | src/pyswizzle/pyswizzle.py:33-41 | cell `(r, c)` of an 'nsw' tile holds the read unit that starts at the block-linear GOB offset of that cell, for every swizzle mode |
| Deswizzler.Assemble | src/pyswizzle/pyswizzle.py:93-94 | definition, no contract: the two `__concat_arrays` calls of `deswizzle`. `Deswizzler.AssembleShape` and `Deswizzler.TilePlacement` state the result. |
| Deswizzler.DeswizzleImage | src/pyswizzle/pyswizzle.py:93-94 | definition, no contract: the assembled image of all tiles. `Deswizzler.TilePlacement` states its rows. |
| Deswizzler.ToBytes | src/pyswizzle/pyswizzle.py:94 | definition, no contract: `.tobytes()`, the units row by row. `Deswizzler.ToBytesLength` and `RoundTrip.ToGridToBytes` state its properties. |
| Deswizzler.DeswizzleSpec | src/pyswizzle/pyswizzle.py:89-97 | definition, no contract: what `deswizzle()` returns. `Deswizzler.DeswizzleLength` and `RoundTrip.SwizzleDeswizzle` state its properties. |
| Deswizzler.DeswizzleResult | src/pyswizzle/pyswizzle.py:22-97 | definition, no contract: construct then `deswizzle()`, giving the first exception or the bytes. `RoundTrip.ResultsAgree` and `RoundTrip.DeswizzleThenSwizzle` state its properties. |
| Swizzler.ToGrid | src/pyswizzle/pyswizzle.py:148-159 | definition, no contract: the buffer cut into `row_count` rows of `column_count` read units. `Swizzler.ToGridShape` and `RoundTrip.ToBytesToGrid` state its properties. |
| Swizzler.SwizzleTiles | src/pyswizzle/pyswizzle.py:176-178 | definition, no contract: the image split by height, then every band by width. `Swizzler.SwizzleTileOrder` and `Swizzler.SwizzleTilesShape` state the result. |
| Swizzler.TileBytes | src/pyswizzle/pyswizzle.py:179-182 | definition, no contract: the read units of a tile's 1x1 blocks after splitting along the step list. `Swizzler.TileBytesLength` and `RoundTrip.SwizzleUndoesTile` state its properties. |
| Swizzler.TileOutputs | src/pyswizzle/pyswizzle.py:179-182 | definition, no contract: the output of every tile, in tile order. `Swizzler.TileOutputsSized` states its sizes. |
| Swizzler.SwizzleSpec | src/pyswizzle/pyswizzle.py:174-185 | definition, no contract: what `swizzle()` returns. `Swizzler.SwizzleLength`, `Swizzler.SwizzleTileBytes` and `RoundTrip.DeswizzleSwizzle` state its properties. |
| Swizzler.SwizzleResult | src/pyswizzle/pyswizzle.py:101-185 | definition, no contract: construct then `swizzle()`, giving the first exception or the bytes. `RoundTrip.ResultsAgree` and `RoundTrip.SwizzleThenDeswizzle` state its properties. |
| RoundTrip.ResultsAgree | src/pyswizzle/pyswizzle.py:95-96 | both directions succeed on the same arguments and return as many bytes as given. `InvalidOutputDatasize` never occurs. They fail alike except on an unknown platform. |

## Left out

- numpy: `concatenate` and `split` are total functions on `seq<seq<X>>`. Where numpy raises (an empty list, unequal heights, an uneven split), the engines never call them; the shape lemmas prove this. The `np.void` element type is a run of bytes.
- Zero block sizes: a block width or block height of 0 makes line 28 divide by zero. `Platform.InDomain` excludes both.
- Zero `bytes_per_block`, excluded by `Platform.InDomain`, is not modelled. In Python the expected size is then 0, so any data raises `InvalidInputDatasize(0, n)`. With no data, 'nsw' without a mode raises `MissingSwizzleMode` and an unknown platform raises `UnsupportedPlatform` or the `NameError`. Only 'ps4' (line 54, `% 0`) and 'nsw' with a mode (line 37, `64 // 0`) divide by zero.
- Negative sizes: width, height, block sizes and bytes per block are `nat`. The constructors accept negative values. For example, 'ps4' with a -32x-32 image, 4x4 blocks, 8 bytes per block and 512 bytes passes every check, because Python's `//` and `%` floor, and stores `tile_per_width = -1`. Nothing about negative sizes is modelled.
- 'nsw' with `bytes_per_block` not dividing 64: `64 // bytes_per_block` truncates and the tile geometry no longer matches the data. This case is excluded (`Platform.InDomain`).
- A negative swizzle mode makes `2 ** swizzle_mode` a float in Python. The mode is a `nat`.
- Deswizzler.DeswizzleResult: requires `Platform.Runs`, which excludes only an image of width or height 0 with no data. Such an image passes validation, and `deswizzle()` then divides by zero in `__concat_arrays` (line 78). That crash is not modelled. With data, the size error is modelled (`Validation.EmptyImageCases`).
- Deswizzler.DeswizzleBytes: requires `Platform.Runs`, for the same reason.
- Swizzler.SwizzleResult: requires `Platform.Runs`. On the excluded arguments `swizzle()` crashes: with height 0, `__bytes_to_array` returns an unbound `array` (line 159); with width 0, `np.split` is asked for 0 sections (line 178). These crashes are not modelled.
- Swizzler.SwizzleBytes: requires `Platform.Runs`, for the same reason.
- Swizzler.BytesSwizzle.BytesToArray: requires at least one row; with none, line 159 reads an unbound `array`.
- Deswizzler.BytesDeswizzle.Deswizzle: requires a fresh engine (cursor at 0). A second `deswizzle()` call on the same object slices past the end of the buffer, gets empty reads and is not modelled.
- Deswizzler.BytesDeswizzle.GetTileData: requires the tile to lie inside the buffer. Python would clamp the slice; after validation that never happens.
- Swizzler.BlockUnit: returns an empty unit for a block that is not 1x1, only to be total. `Swizzler.SwizzleTileBlocks` proves every block is 1x1.
- Exception messages: only the exception kinds and the numbers they report are modelled.
- `tile_count` in `BytesSwizzle` is stored (lines 135, 143) but never read. It is in the configuration and unused, as in the source.
- `src/pyswizzle/__init__.py` is not part of this model. It only fixes the platform string and forwards arguments.
- Mutable `bytearray` input: the data is an immutable byte sequence, since neither engine writes to it.

## Findings

| source | as written | input that shows it | evidently intended | confidence | as-written member | corrected member |
|---|---|---|---|---|---|---|
| src/pyswizzle/pyswizzle.py:130-131 | the swizzler's unknown-platform branch raises `NotSupportedPlatform`, a name defined nowhere in the module, so Python raises `NameError` | platform "xbox", 8x8 image, 4x4 blocks, 8 bytes per block, 32 bytes of data | raise `UnsupportedPlatform`, as the deswizzler does on line 52 | high; not executed | Validation.UnknownPlatformNameError | Platform.SwizzlerInitFixed, Platform.SwizzlerInitFixedAgrees |

`Platform.SwizzlerInitFixed` differs from `Platform.SwizzlerInit` only on this branch. `Platform.SwizzlerInitFixedAgrees` proves that on success they store the same configuration, so every engine theorem above holds for the corrected constructor unchanged.
