/** Parameter validation and the two platform profiles ('nsw' and 'ps4'):
    the straight-line part of the `BytesDeswizzle` and `BytesSwizzle`
    constructors, as pure functions returning either the engine's
    configuration or the error the constructor raises. */
module Platform {
  import opened Arith
  import opened Grids
  import opened Steps

  newtype byte = x: int | 0 <= x < 256

  /** An opaque run of `read_size` bytes, moved as one element by the engines. */
  type ReadUnit = seq<byte>

  /** The exceptions of the source, with their numeric context. The swizzler's
      unknown-platform branch names `NotSupportedPlatform`, which is never
      defined, so Python raises a `NameError` there: `UndefinedErrorName`. */
  datatype Error =
    | InvalidInputDatasize(required: nat, actual: nat)
    | MissingSwizzleMode
    | UnsupportedPlatform
    | UndefinedErrorName
    | InvalidImageDimension(required: nat, actual: nat)
    | InvalidOutputDatasize(expected: nat, actual: nat)

  datatype Result<T> = Ok(value: T) | Err(error: Error)

  datatype Option<T> = None | Some(value: T)

  /** The constructor arguments other than the data; the data enters only
      through its length. */
  datatype Params = Params(
    platform: string,
    width: nat, height: nat,
    blockWidth: nat, blockHeight: nat,
    bytesPerBlock: nat,
    swizzleMode: Option<nat>)

  /** Arguments for which the constructors' arithmetic is defined: no division
      by zero, and on 'nsw' no truncation in `64 // bytes_per_block`. */
  predicate InDomain(p: Params) {
    p.blockWidth > 0 && p.blockHeight > 0 && p.bytesPerBlock > 0 &&
    (p.platform == "nsw" ==> 64 % p.bytesPerBlock == 0)
  }

  function Pow2(m: nat): (r: nat)
    ensures r >= 1
  {
    if m == 0 then 1 else 2 * Pow2(m - 1)
  }

  /** `(im_width * im_height) // (block_width * block_height) * bytes_per_block` */
  function ExpectedDatasize(p: Params): nat
    requires InDomain(p)
  {
    (p.width * p.height) / (p.blockWidth * p.blockHeight) * p.bytesPerBlock
  }

  /** Tile byte size, tile width and height in pixels, and read-unit size. */
  datatype TileGeometry = TileGeometry(tileDatasize: nat, tileWidth: nat, tileHeight: nat, readSize: nat)

  function NswGeometry(p: Params, mode: nat): TileGeometry
    requires InDomain(p)
  {
    TileGeometry(512 * Pow2(mode), 64 / p.bytesPerBlock * p.blockWidth, 8 * p.blockHeight * Pow2(mode), 16)
  }

  function Ps4Geometry(p: Params): TileGeometry {
    TileGeometry(64 * p.bytesPerBlock, 8 * p.blockWidth, 8 * p.blockHeight, p.bytesPerBlock)
  }

  function NswDeswizzleSteps(mode: nat): seq<Step> {
    [Step(2, Vertical), Step(2, Horizontal), Step(4, Vertical), Step(2, Horizontal), Step(Pow2(mode), Vertical)]
  }

  function NswSwizzleSteps(mode: nat): seq<Step> {
    [Step(Pow2(mode), Vertical), Step(2, Horizontal), Step(4, Vertical), Step(2, Horizontal), Step(2, Vertical)]
  }

  const Ps4DeswizzleSteps: seq<Step> :=
    [Step(2, Horizontal), Step(2, Vertical), Step(2, Horizontal), Step(2, Vertical), Step(2, Horizontal), Step(2, Vertical)]

  const Ps4SwizzleSteps: seq<Step> :=
    [Step(2, Vertical), Step(2, Horizontal), Step(2, Vertical), Step(2, Horizontal), Step(2, Vertical), Step(2, Horizontal)]

  /** What `BytesDeswizzle.__init__` stores for the engine. */
  datatype DeswizzleConfig = DeswizzleConfig(
    steps: seq<Step>, readSize: nat, readPerTileCount: nat,
    tileCount: nat, tilePerWidth: nat)

  /** What `BytesSwizzle.__init__` stores for the engine. */
  datatype SwizzleConfig = SwizzleConfig(
    steps: seq<Step>, readSize: nat, columnCount: nat,
    tileCount: nat, tilePerWidth: nat, tilePerHeight: nat, rowCount: nat)

  datatype DeswizzleProfile = DeswizzleProfile(geometry: TileGeometry, steps: seq<Step>, readPerTileCount: nat)

  datatype SwizzleProfile = SwizzleProfile(geometry: TileGeometry, steps: seq<Step>, columnCount: nat)

  /** The platform branch of `BytesDeswizzle.__init__`. */
  function DeswizzlerProfile(p: Params): Result<DeswizzleProfile>
    requires InDomain(p)
  {
    if p.platform == "nsw" then
      match p.swizzleMode
      case None => Err(MissingSwizzleMode)
      case Some(m) => Ok(DeswizzleProfile(NswGeometry(p, m), NswDeswizzleSteps(m), 32 * Pow2(m)))
    else if p.platform == "ps4" then
      Ok(DeswizzleProfile(Ps4Geometry(p), Ps4DeswizzleSteps, 64))
    else
      Err(UnsupportedPlatform)
  }

  /** `(bytes_per_block * im_width) // (block_width * 16)`: read units per
      image row on 'nsw'. */
  function NswColumnCount(p: Params): nat
    requires InDomain(p)
  {
    var rowBytes: nat := p.bytesPerBlock * p.width;
    var divisor := p.blockWidth * 16;
    DivNat(rowBytes, divisor);
    rowBytes / divisor
  }

  /** The platform branch of `BytesSwizzle.__init__`. */
  function SwizzlerProfile(p: Params): Result<SwizzleProfile>
    requires InDomain(p)
  {
    if p.platform == "nsw" then
      match p.swizzleMode
      case None => Err(MissingSwizzleMode)
      case Some(m) =>
        Ok(SwizzleProfile(NswGeometry(p, m), NswSwizzleSteps(m), NswColumnCount(p)))
    else if p.platform == "ps4" then
      Ok(SwizzleProfile(Ps4Geometry(p), Ps4SwizzleSteps, p.width / p.blockWidth))
    else
      Err(UndefinedErrorName)
  }

  /** The checks both constructors run after the profile is chosen, in order. */
  function TileChecks(p: Params, datasize: nat, g: TileGeometry): Option<Error>
    requires g.tileDatasize > 0 && g.tileWidth > 0 && g.tileHeight > 0
  {
    if datasize % g.tileDatasize != 0 then Some(InvalidInputDatasize(g.tileDatasize, datasize))
    else if p.width % g.tileWidth != 0 then Some(InvalidImageDimension(g.tileWidth, p.width))
    else if p.height % g.tileHeight != 0 then Some(InvalidImageDimension(g.tileHeight, p.height))
    else None
  }

  lemma GeometryPositive(p: Params, g: TileGeometry)
    requires InDomain(p)
    requires (p.swizzleMode.Some? && g == NswGeometry(p, p.swizzleMode.value) && p.platform == "nsw") || g == Ps4Geometry(p)
    ensures g.tileDatasize > 0 && g.tileWidth > 0 && g.tileHeight > 0 && g.readSize > 0
  {
    if g != Ps4Geometry(p) {
      assert 64 / p.bytesPerBlock > 0;
    }
  }

  /** `BytesDeswizzle.__init__`: the configuration, or the first error raised. */
  function DeswizzlerInit(p: Params, datasize: nat): Result<DeswizzleConfig>
    requires InDomain(p)
  {
    if ExpectedDatasize(p) != datasize then Err(InvalidInputDatasize(ExpectedDatasize(p), datasize))
    else match DeswizzlerProfile(p)
      case Err(e) => Err(e)
      case Ok(prof) =>
        var g := prof.geometry;
        GeometryPositive(p, g);
        DivNat(datasize, g.tileDatasize);
        DivNat(p.width, g.tileWidth);
        match TileChecks(p, datasize, g)
        case Some(e) => Err(e)
        case None =>
          Ok(DeswizzleConfig(prof.steps, g.readSize, prof.readPerTileCount,
                             datasize / g.tileDatasize, p.width / g.tileWidth))
  }

  /** `BytesSwizzle.__init__`: the configuration, or the first error raised. */
  function SwizzlerInit(p: Params, datasize: nat): Result<SwizzleConfig>
    requires InDomain(p)
  {
    if ExpectedDatasize(p) != datasize then Err(InvalidInputDatasize(ExpectedDatasize(p), datasize))
    else match SwizzlerProfile(p)
      case Err(e) => Err(e)
      case Ok(prof) =>
        var g := prof.geometry;
        GeometryPositive(p, g);
        DivNat(datasize, g.tileDatasize);
        DivNat(p.width, g.tileWidth);
        DivNat(p.height, g.tileHeight);
        DivNat(p.height, p.blockHeight);
        match TileChecks(p, datasize, g)
        case Some(e) => Err(e)
        case None =>
          Ok(SwizzleConfig(prof.steps, g.readSize, prof.columnCount,
                           datasize / g.tileDatasize, p.width / g.tileWidth,
                           p.height / g.tileHeight, p.height / p.blockHeight))
  }

  // ---------------------------------------------------------------------------
  // What a successful validation guarantees the engines

  /** The facts `BytesDeswizzle`'s engine relies on: the data is exactly
      `tileCount` tiles of `readPerTileCount` read units, the step list merges
      one tile's read units into one grid, and the tiles fill whole rows of
      `tilePerWidth`. */
  predicate DeswizzleReady(c: DeswizzleConfig, datasize: nat) {
    c.readSize > 0 && c.tilePerWidth > 0 && c.tileCount > 0 &&
    c.tileCount % c.tilePerWidth == 0 &&
    Positive(c.steps) && c.readPerTileCount == Product(c.steps) &&
    datasize == c.tileCount * (c.readPerTileCount * c.readSize)
  }

  /** The shape, in read units, of one tile for a swizzle step list. */
  function SwizzleTileShape(steps: seq<Step>): Shape {
    ShapeBeforeSplit(Shape(1, 1), steps)
  }

  /** The facts `BytesSwizzle`'s engine relies on: the image is a grid of
      `rowCount` by `columnCount` read units that divides into
      `tilePerHeight` by `tilePerWidth` tiles, each of which the step list
      splits down to single read units. */
  predicate SwizzleReady(c: SwizzleConfig, datasize: nat) {
    c.readSize > 0 && c.tilePerWidth > 0 && c.tilePerHeight > 0 && c.rowCount > 0 && Positive(c.steps) &&
    c.rowCount == c.tilePerHeight * SwizzleTileShape(c.steps).rows &&
    c.columnCount == c.tilePerWidth * SwizzleTileShape(c.steps).cols &&
    datasize == c.rowCount * c.columnCount * c.readSize
  }

  /** A deswizzler and a swizzler built from the same arguments agree. */
  predicate Paired(d: DeswizzleConfig, s: SwizzleConfig) {
    s.steps == Reverse(d.steps) && s.readSize == d.readSize &&
    s.tilePerWidth == d.tilePerWidth && d.tileCount == s.tilePerHeight * s.tilePerWidth
  }

  /** The 'nsw' step lists: the swizzle list is the deswizzle list reversed,
      the merges turn `32 * 2^mode` read units into one tile of `8 * 2^mode`
      rows of 4 read units. */
  lemma NswTables(mode: nat)
    ensures Positive(NswDeswizzleSteps(mode))
    ensures Product(NswDeswizzleSteps(mode)) == 32 * Pow2(mode)
    ensures ShapeAfterMerge(Shape(1, 1), NswDeswizzleSteps(mode)) == Shape(8 * Pow2(mode), 4)
    ensures Reverse(NswDeswizzleSteps(mode)) == NswSwizzleSteps(mode)
  {
    var st := NswDeswizzleSteps(mode);
    var P := Pow2(mode);
    assert st[1..] == [Step(2, Horizontal), Step(4, Vertical), Step(2, Horizontal), Step(P, Vertical)];
    assert st[2..] == [Step(4, Vertical), Step(2, Horizontal), Step(P, Vertical)];
    assert st[3..] == [Step(2, Horizontal), Step(P, Vertical)];
    assert st[4..] == [Step(P, Vertical)];
    assert st[5..] == [];
    assert Product(st[4..]) == P;
    assert Product(st[3..]) == 2 * P;
    assert Product(st[2..]) == 4 * (2 * P);
    assert ShapeAfterMerge(Shape(1, 1), st) == ShapeAfterMerge(Shape(2, 1), st[1..]);
    assert ShapeAfterMerge(Shape(2, 1), st[1..]) == ShapeAfterMerge(Shape(2, 2), st[2..]);
    assert ShapeAfterMerge(Shape(2, 2), st[2..]) == ShapeAfterMerge(Shape(8, 2), st[3..]);
    assert ShapeAfterMerge(Shape(8, 2), st[3..]) == ShapeAfterMerge(Shape(8, 4), st[4..]);
    assert ShapeAfterMerge(Shape(8, 4), st[4..]) == Shape(P * 8, 4);
  }

  /** The 'ps4' step lists: the swizzle list is the deswizzle list reversed,
      the merges turn 64 read units into one tile of 8 rows of 8. */
  lemma Ps4Tables()
    ensures Positive(Ps4DeswizzleSteps)
    ensures Product(Ps4DeswizzleSteps) == 64
    ensures ShapeAfterMerge(Shape(1, 1), Ps4DeswizzleSteps) == Shape(8, 8)
    ensures Reverse(Ps4DeswizzleSteps) == Ps4SwizzleSteps
  {
    var st := Ps4DeswizzleSteps;
    assert st[1..] == [Step(2, Vertical), Step(2, Horizontal), Step(2, Vertical), Step(2, Horizontal), Step(2, Vertical)];
    assert st[2..] == [Step(2, Horizontal), Step(2, Vertical), Step(2, Horizontal), Step(2, Vertical)];
    assert st[3..] == [Step(2, Vertical), Step(2, Horizontal), Step(2, Vertical)];
    assert st[4..] == [Step(2, Horizontal), Step(2, Vertical)];
    assert st[5..] == [Step(2, Vertical)];
    assert st[6..] == [];
  }

  /** On 'ps4', once the size and dimension checks pass, the data is
      `a * b` tiles of `64 * bytes_per_block` bytes and the image is `8 * b`
      rows of `8 * a` blocks, where the image is `a` tiles wide and `b` tiles
      high. */
  lemma Ps4Numbers(w: nat, h: nat, bw: nat, bh: nat, bpb: nat, n: nat)
    requires bw > 0 && bh > 0 && bpb > 0
    requires n == (w * h) / (bw * bh) * bpb
    requires w % (8 * bw) == 0 && h % (8 * bh) == 0
    ensures var a, b := w / (8 * bw), h / (8 * bh);
      n == (64 * bpb) * (a * b) && n / (64 * bpb) == a * b &&
      w / bw == 8 * a && h / bh == 8 * b &&
      n == (8 * b) * (8 * a) * bpb
  {
    var a, b := w / (8 * bw), h / (8 * bh);
    ModExact(w, 8 * bw);
    ModExact(h, 8 * bh);
    var ab := a * b;
    assert w * h == (bw * bh) * (64 * ab) by {
      MulRearrange4(8 * bw, a, 8 * bh, b);
      assert (8 * bw) * (8 * bh) == (bw * bh) * 64;
    }
    DivCancel(64 * ab, bw * bh);
    assert n == (64 * ab) * bpb;
    assert n == (64 * bpb) * ab;
    DivCancel(ab, 64 * bpb);
    assert w == bw * (8 * a);
    DivCancel(8 * a, bw);
    assert h == bh * (8 * b);
    DivCancel(8 * b, bh);
    assert n == (8 * b) * (8 * a) * bpb;
  }

  lemma NswRing1(q: nat, bw: nat, a: nat, bh: nat, P: nat, b: nat)
    ensures ((q * bw) * a) * ((8 * bh * P) * b) == (bw * bh) * ((8 * P * q) * (a * b))
  {
    MulRearrange4(q * bw, a, 8 * bh * P, b);
  }

  lemma NswRing2(e: nat, bpb: nat, q: nat, P: nat, ab: nat)
    requires bpb * q == 64 && e == (8 * P * q) * ab
    ensures e * bpb == (512 * P) * ab
  {
    assert e * bpb == (8 * P * ab) * (q * bpb);
  }

  lemma NswRing3(bpb: nat, q: nat, bw: nat, a: nat)
    requires bpb * q == 64
    ensures bpb * ((q * bw) * a) == (bw * 16) * (4 * a)
  {
    assert bpb * ((q * bw) * a) == (bpb * q) * (bw * a);
  }

  lemma NswRing4(P: nat, a: nat, b: nat)
    ensures (512 * P) * (a * b) == (8 * P * b) * (4 * a) * 16 == (a * b) * ((32 * P) * 16)
  {
    MulRearrange4(8 * P, b, 4, a);
  }

  lemma NswRing5(bh: nat, P: nat, b: nat)
    ensures (8 * bh * P) * b == bh * (8 * P * b)
  {
  }

  /** On 'nsw' with `P = 2^mode`, once the size and dimension checks pass, the
      data is `a * b` tiles of `512 * P` bytes and the image is `8 * P * b`
      rows of `4 * a` read units of 16 bytes, where the image is `a` tiles
      wide and `b` tiles high. */
  lemma NswNumbers(w: nat, h: nat, bw: nat, bh: nat, bpb: nat, P: nat, n: nat)
    requires bw > 0 && bh > 0 && bpb > 0 && P > 0 && 64 % bpb == 0
    requires n == (w * h) / (bw * bh) * bpb
    requires w % (64 / bpb * bw) == 0 && h % (8 * bh * P) == 0
    ensures var a, b := w / (64 / bpb * bw), h / (8 * bh * P);
      n == (512 * P) * (a * b) && n / (512 * P) == a * b &&
      (bpb * w) / (bw * 16) == 4 * a && h / bh == 8 * P * b &&
      n == (8 * P * b) * (4 * a) * 16 && n == (a * b) * ((32 * P) * 16)
  {
    var q := 64 / bpb;
    ModExact(64, bpb);
    var a, b := w / (q * bw), h / (8 * bh * P);
    ModExact(w, q * bw);
    ModExact(h, 8 * bh * P);
    var ab := a * b;
    var e := (8 * P * q) * ab;
    NswRing1(q, bw, a, bh, P, b);
    DivCancel(e, bw * bh);
    NswRing2(e, bpb, q, P, ab);
    DivCancel(ab, 512 * P);
    NswRing3(bpb, q, bw, a);
    DivCancel(4 * a, bw * 16);
    NswRing5(bh, P, b);
    DivCancel(8 * P * b, bh);
    NswRing4(P, a, b);
  }

  /** Both constructors accept exactly the same arguments; where they fail,
      they fail with the same error, except that an unknown platform gives
      `UnsupportedPlatform` in the deswizzler and a `NameError` in the
      swizzler. */
  lemma InitsAgree(p: Params, n: nat)
    requires InDomain(p)
    ensures DeswizzlerInit(p, n).Ok? <==> SwizzlerInit(p, n).Ok?
    ensures DeswizzlerInit(p, n).Err? && DeswizzlerInit(p, n).error != UnsupportedPlatform ==>
              SwizzlerInit(p, n) == Err(DeswizzlerInit(p, n).error)
    ensures DeswizzlerInit(p, n) == Err(UnsupportedPlatform) <==> SwizzlerInit(p, n) == Err(UndefinedErrorName)
  {
  }

  /** `BytesSwizzle.__init__` as evidently intended: an unknown platform
      raises `UnsupportedPlatform`, as in the deswizzler; everything else is
      as written. */
  function SwizzlerInitFixed(p: Params, datasize: nat): Result<SwizzleConfig>
    requires InDomain(p)
  {
    if ExpectedDatasize(p) == datasize && p.platform != "nsw" && p.platform != "ps4" then Err(UnsupportedPlatform)
    else SwizzlerInit(p, datasize)
  }

  /** The corrected swizzler constructor fails exactly when the deswizzler
      constructor fails, always with the same error, and on success stores
      the configuration the constructor as written stores, so everything
      proved about the engine holds for it unchanged. */
  lemma SwizzlerInitFixedAgrees(p: Params, n: nat)
    requires InDomain(p)
    ensures SwizzlerInitFixed(p, n).Ok? <==> DeswizzlerInit(p, n).Ok?
    ensures DeswizzlerInit(p, n).Err? ==> SwizzlerInitFixed(p, n) == Err(DeswizzlerInit(p, n).error)
    ensures SwizzlerInitFixed(p, n).Ok? ==> SwizzlerInitFixed(p, n) == SwizzlerInit(p, n)
  {
    InitsAgree(p, n);
  }

  /** Arguments with which constructing an engine and running it either
      stops at a validation error or completes. An empty image (width or
      height 0) that passes validation crashes at run time instead:
      `deswizzle` divides by a zero section count in `__concat_arrays`, and
      `swizzle` either reads an unbound `array` in `__bytes_to_array`
      (height 0) or asks `np.split` for 0 sections (width 0). */
  predicate Runs(p: Params, datasize: nat) {
    InDomain(p) && (DeswizzlerInit(p, datasize).Err? || (p.width > 0 && p.height > 0))
  }

  /** A successful validation of a non-empty image yields configurations the
      engines can run on, and the deswizzler's and swizzler's agree. */
  lemma InitsReady(p: Params, n: nat)
    requires InDomain(p) && p.width > 0 && p.height > 0 && DeswizzlerInit(p, n).Ok?
    ensures SwizzlerInit(p, n).Ok?
    ensures DeswizzleReady(DeswizzlerInit(p, n).value, n)
    ensures SwizzleReady(SwizzlerInit(p, n).value, n)
    ensures Paired(DeswizzlerInit(p, n).value, SwizzlerInit(p, n).value)
  {
    InitsAgree(p, n);
    if p.platform == "nsw" {
      NswInitsReady(p, n);
    } else {
      Ps4InitsReady(p, n);
    }
  }

  /** On 'nsw', a successful validation stores these values, where the
      image is `a` tiles wide and `b` tiles high. */
  lemma NswConfigs(p: Params, n: nat)
    requires InDomain(p) && p.width > 0 && p.height > 0 && p.platform == "nsw"
    requires DeswizzlerInit(p, n).Ok? && SwizzlerInit(p, n).Ok?
    ensures var m := p.swizzleMode.value;
      var P := Pow2(m);
      var a, b := p.width / (64 / p.bytesPerBlock * p.blockWidth), p.height / (8 * p.blockHeight * P);
      a > 0 && b > 0 &&
      DeswizzlerInit(p, n).value == DeswizzleConfig(NswDeswizzleSteps(m), 16, 32 * P, a * b, a) &&
      SwizzlerInit(p, n).value == SwizzleConfig(NswSwizzleSteps(m), 16, 4 * a, a * b, a, b, 8 * P * b) &&
      n == (a * b) * ((32 * P) * 16) && n == (8 * P * b) * (4 * a) * 16
  {
    var bw, bh, bpb := p.blockWidth, p.blockHeight, p.bytesPerBlock;
    var m := p.swizzleMode.value;
    var P := Pow2(m);
    var g := NswGeometry(p, m);
    assert n == ExpectedDatasize(p) && TileChecks(p, n, g).None?;
    NswNumbers(p.width, p.height, bw, bh, bpb, P, n);
    PositiveQuotient(p.width, 64 / bpb * bw);
    PositiveQuotient(p.height, 8 * bh * P);
  }

  /** The 'nsw' configurations for an image `a` tiles wide and `b` tiles high
      meet the engines' needs. */
  lemma NswReady(m: nat, a: nat, b: nat, n: nat)
    requires a > 0 && b > 0
    requires n == (a * b) * ((32 * Pow2(m)) * 16) && n == (8 * Pow2(m) * b) * (4 * a) * 16
    ensures var P := Pow2(m);
      var d := DeswizzleConfig(NswDeswizzleSteps(m), 16, 32 * P, a * b, a);
      var s := SwizzleConfig(NswSwizzleSteps(m), 16, 4 * a, a * b, a, b, 8 * P * b);
      DeswizzleReady(d, n) && SwizzleReady(s, n) && Paired(d, s)
  {
    var P := Pow2(m);
    var d := DeswizzleConfig(NswDeswizzleSteps(m), 16, 32 * P, a * b, a);
    var s := SwizzleConfig(NswSwizzleSteps(m), 16, 4 * a, a * b, a, b, 8 * P * b);
    NswTables(m);
    assert DeswizzleReady(d, n) by {
      MulPositive(a, b);
      ModCancel(b, a);
    }
    assert SwizzleReady(s, n) by {
      ShapeBeforeSplitReverse(Shape(1, 1), NswDeswizzleSteps(m));
      assert SwizzleTileShape(NswSwizzleSteps(m)) == Shape(8 * P, 4);
      PositiveReverse(NswDeswizzleSteps(m));
      MulPositive(8 * P, b);
      MulComm(b, 8 * P);
    }
    assert Paired(d, s) by {
      MulComm(a, b);
    }
  }

  lemma NswInitsReady(p: Params, n: nat)
    requires InDomain(p) && p.width > 0 && p.height > 0 && p.platform == "nsw"
    requires DeswizzlerInit(p, n).Ok? && SwizzlerInit(p, n).Ok?
    ensures DeswizzleReady(DeswizzlerInit(p, n).value, n)
    ensures SwizzleReady(SwizzlerInit(p, n).value, n)
    ensures Paired(DeswizzlerInit(p, n).value, SwizzlerInit(p, n).value)
  {
    var m := p.swizzleMode.value;
    var a, b := p.width / (64 / p.bytesPerBlock * p.blockWidth), p.height / (8 * p.blockHeight * Pow2(m));
    NswConfigs(p, n);
    NswReady(m, a, b, n);
  }

  lemma Ps4InitsReady(p: Params, n: nat)
    requires InDomain(p) && p.width > 0 && p.height > 0 && p.platform != "nsw"
    requires DeswizzlerInit(p, n).Ok? && SwizzlerInit(p, n).Ok?
    ensures DeswizzleReady(DeswizzlerInit(p, n).value, n)
    ensures SwizzleReady(SwizzlerInit(p, n).value, n)
    ensures Paired(DeswizzlerInit(p, n).value, SwizzlerInit(p, n).value)
  {
    var a, b := p.width / (8 * p.blockWidth), p.height / (8 * p.blockHeight);
    Ps4Configs(p, n);
    Ps4Ready(p.bytesPerBlock, a, b, n);
  }

  /** On 'ps4', a successful validation stores these values, where the
      image is `a` tiles wide and `b` tiles high. */
  lemma Ps4Configs(p: Params, n: nat)
    requires InDomain(p) && p.width > 0 && p.height > 0 && p.platform != "nsw"
    requires DeswizzlerInit(p, n).Ok? && SwizzlerInit(p, n).Ok?
    ensures var bpb := p.bytesPerBlock;
      var a, b := p.width / (8 * p.blockWidth), p.height / (8 * p.blockHeight);
      a > 0 && b > 0 && bpb > 0 &&
      DeswizzlerInit(p, n).value == DeswizzleConfig(Ps4DeswizzleSteps, bpb, 64, a * b, a) &&
      SwizzlerInit(p, n).value == SwizzleConfig(Ps4SwizzleSteps, bpb, 8 * a, a * b, a, b, 8 * b) &&
      n == (a * b) * (64 * bpb) && n == (8 * b) * (8 * a) * bpb
  {
    var bw, bh, bpb := p.blockWidth, p.blockHeight, p.bytesPerBlock;
    var g := Ps4Geometry(p);
    assert n == ExpectedDatasize(p) && TileChecks(p, n, g).None?;
    Ps4Numbers(p.width, p.height, bw, bh, bpb, n);
    PositiveQuotient(p.width, 8 * bw);
    PositiveQuotient(p.height, 8 * bh);
  }

  /** The 'ps4' configurations for an image `a` tiles wide and `b` tiles
      high, of `bpb`-byte blocks, meet the engines' needs. */
  lemma Ps4Ready(bpb: nat, a: nat, b: nat, n: nat)
    requires a > 0 && b > 0 && bpb > 0
    requires n == (a * b) * (64 * bpb) && n == (8 * b) * (8 * a) * bpb
    ensures var d := DeswizzleConfig(Ps4DeswizzleSteps, bpb, 64, a * b, a);
      var s := SwizzleConfig(Ps4SwizzleSteps, bpb, 8 * a, a * b, a, b, 8 * b);
      DeswizzleReady(d, n) && SwizzleReady(s, n) && Paired(d, s)
  {
    Ps4Tables();
    ShapeBeforeSplitReverse(Shape(1, 1), Ps4DeswizzleSteps);
    assert SwizzleTileShape(Ps4SwizzleSteps) == Shape(8, 8);
    PositiveReverse(Ps4DeswizzleSteps);
    MulPositive(a, b);
    ModCancel(b, a);
    MulComm(b, 8);
    MulComm(a, b);
  }
}
