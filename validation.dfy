/** What the constructors' validation promises: which check runs first,
    which error each check raises, the profile tables, and the worked 'ps4'
    example of a 32x32 image of 4x4 blocks of 8 bytes. */
module Validation {
  import opened Arith
  import opened Grids
  import opened Steps
  import opened Platform
  import opened Deswizzler
  import opened Swizzler
  import opened RoundTrip

  /** The size check runs before the platform is looked at: the deswizzler
      refuses a buffer of the wrong length with the expected and the actual
      size, whatever the platform and the swizzle mode, and reports that error
      for no other reason. */
  lemma DeswizzlerSizeFirst(p: Params, n: nat)
    requires InDomain(p)
    ensures ExpectedDatasize(p) != n <==> DeswizzlerInit(p, n) == Err(InvalidInputDatasize(ExpectedDatasize(p), n))
  {
    if ExpectedDatasize(p) == n && DeswizzlerProfile(p).Ok? {
      DeswizzlerTileChecks(p, n);
      if DeswizzlerProfile(p).value.geometry.tileDatasize == n {
        ModCancel(1, n);
      }
    }
  }

  /** The same for the swizzler. */
  lemma SwizzlerSizeFirst(p: Params, n: nat)
    requires InDomain(p)
    ensures ExpectedDatasize(p) != n <==> SwizzlerInit(p, n) == Err(InvalidInputDatasize(ExpectedDatasize(p), n))
  {
    if ExpectedDatasize(p) == n && SwizzlerProfile(p).Ok? {
      SwizzlerTileChecks(p, n);
      if SwizzlerProfile(p).value.geometry.tileDatasize == n {
        ModCancel(1, n);
      }
    }
  }

  /** The platform errors: 'nsw' without a swizzle mode, and an unknown
      platform, which the deswizzler reports as `UnsupportedPlatform` and the
      swizzler as a `NameError`. Each is raised exactly when the size check
      has passed and the platform branch is reached. */
  lemma PlatformErrors(p: Params, n: nat)
    requires InDomain(p)
    ensures DeswizzlerInit(p, n) == Err(MissingSwizzleMode) <==>
              ExpectedDatasize(p) == n && p.platform == "nsw" && p.swizzleMode.None?
    ensures SwizzlerInit(p, n) == Err(MissingSwizzleMode) <==>
              ExpectedDatasize(p) == n && p.platform == "nsw" && p.swizzleMode.None?
    ensures DeswizzlerInit(p, n) == Err(UnsupportedPlatform) <==>
              ExpectedDatasize(p) == n && p.platform != "nsw" && p.platform != "ps4"
    ensures SwizzlerInit(p, n) == Err(UndefinedErrorName) <==>
              ExpectedDatasize(p) == n && p.platform != "nsw" && p.platform != "ps4"
  {
  }

  /** The profile tables: both constructors pick the same tile geometry; a
      tile is `read_per_tile_count` read units; the deswizzle steps merge
      exactly that many units into one grid; and the swizzle list is the
      deswizzle list reversed. */
  lemma ProfileTables(p: Params)
    requires InDomain(p) && DeswizzlerProfile(p).Ok?
    ensures SwizzlerProfile(p).Ok?
    ensures var d, s := DeswizzlerProfile(p).value, SwizzlerProfile(p).value;
      d.geometry == s.geometry &&
      d.readPerTileCount * d.geometry.readSize == d.geometry.tileDatasize &&
      Positive(d.steps) && Product(d.steps) == d.readPerTileCount &&
      Reverse(d.steps) == s.steps
  {
    if p.platform == "nsw" {
      NswTables(p.swizzleMode.value);
    } else {
      Ps4Tables();
    }
  }

  /** The 'nsw' row of the table, for swizzle mode `m`. */
  lemma NswProfile(p: Params, m: nat)
    requires InDomain(p) && p.platform == "nsw" && p.swizzleMode == Some(m)
    ensures DeswizzlerProfile(p).Ok? && SwizzlerProfile(p).Ok?
    ensures var g := DeswizzlerProfile(p).value.geometry;
      g.tileDatasize == 512 * Pow2(m) && g.tileWidth == 64 / p.bytesPerBlock * p.blockWidth &&
      g.tileHeight == 8 * p.blockHeight * Pow2(m) && g.readSize == 16 &&
      DeswizzlerProfile(p).value.readPerTileCount == 32 * Pow2(m)
    ensures DeswizzlerProfile(p).value.steps ==
      [Step(2, Vertical), Step(2, Horizontal), Step(4, Vertical), Step(2, Horizontal), Step(Pow2(m), Vertical)]
    ensures SwizzlerProfile(p).value.steps ==
      [Step(Pow2(m), Vertical), Step(2, Horizontal), Step(4, Vertical), Step(2, Horizontal), Step(2, Vertical)]
  {
  }

  /** The 'ps4' row of the table. */
  lemma Ps4Profile(p: Params)
    requires InDomain(p) && p.platform == "ps4"
    ensures DeswizzlerProfile(p).Ok? && SwizzlerProfile(p).Ok?
    ensures var g := DeswizzlerProfile(p).value.geometry;
      g.tileDatasize == 64 * p.bytesPerBlock && g.tileWidth == 8 * p.blockWidth &&
      g.tileHeight == 8 * p.blockHeight && g.readSize == p.bytesPerBlock &&
      DeswizzlerProfile(p).value.readPerTileCount == 64
    ensures DeswizzlerProfile(p).value.steps ==
      [Step(2, Horizontal), Step(2, Vertical), Step(2, Horizontal), Step(2, Vertical), Step(2, Horizontal), Step(2, Vertical)]
    ensures SwizzlerProfile(p).value.steps ==
      [Step(2, Vertical), Step(2, Horizontal), Step(2, Vertical), Step(2, Horizontal), Step(2, Vertical), Step(2, Horizontal)]
  {
  }

  /** After the size and platform checks pass, the remaining checks run in
      order and each raises its own error: the buffer must hold whole tiles,
      then the width must hold whole tiles, then the height; the deswizzler
      succeeds exactly when all three hold. */
  lemma DeswizzlerTileChecks(p: Params, n: nat)
    requires InDomain(p) && ExpectedDatasize(p) == n && DeswizzlerProfile(p).Ok?
    ensures var g := DeswizzlerProfile(p).value.geometry;
      g.tileDatasize > 0 && g.tileWidth > 0 && g.tileHeight > 0 &&
      (n % g.tileDatasize != 0 ==>
         DeswizzlerInit(p, n) == Err(InvalidInputDatasize(g.tileDatasize, n))) &&
      (n % g.tileDatasize == 0 && p.width % g.tileWidth != 0 ==>
         DeswizzlerInit(p, n) == Err(InvalidImageDimension(g.tileWidth, p.width))) &&
      (n % g.tileDatasize == 0 && p.width % g.tileWidth == 0 && p.height % g.tileHeight != 0 ==>
         DeswizzlerInit(p, n) == Err(InvalidImageDimension(g.tileHeight, p.height))) &&
      (DeswizzlerInit(p, n).Ok? <==>
         n % g.tileDatasize == 0 && p.width % g.tileWidth == 0 && p.height % g.tileHeight == 0)
  {
    GeometryPositive(p, DeswizzlerProfile(p).value.geometry);
  }

  /** The same checks, in the same order, in the swizzler. */
  lemma SwizzlerTileChecks(p: Params, n: nat)
    requires InDomain(p) && ExpectedDatasize(p) == n && SwizzlerProfile(p).Ok?
    ensures var g := SwizzlerProfile(p).value.geometry;
      g.tileDatasize > 0 && g.tileWidth > 0 && g.tileHeight > 0 &&
      (n % g.tileDatasize != 0 ==>
         SwizzlerInit(p, n) == Err(InvalidInputDatasize(g.tileDatasize, n))) &&
      (n % g.tileDatasize == 0 && p.width % g.tileWidth != 0 ==>
         SwizzlerInit(p, n) == Err(InvalidImageDimension(g.tileWidth, p.width))) &&
      (n % g.tileDatasize == 0 && p.width % g.tileWidth == 0 && p.height % g.tileHeight != 0 ==>
         SwizzlerInit(p, n) == Err(InvalidImageDimension(g.tileHeight, p.height))) &&
      (SwizzlerInit(p, n).Ok? <==>
         n % g.tileDatasize == 0 && p.width % g.tileWidth == 0 && p.height % g.tileHeight == 0)
  {
    GeometryPositive(p, SwizzlerProfile(p).value.geometry);
  }

  /** Validation never reports `InvalidOutputDatasize`: that error belongs
      to the engines. */
  lemma InitsNeverReportOutputSize(p: Params, n: nat)
    requires InDomain(p)
    ensures DeswizzlerInit(p, n).Err? ==> !DeswizzlerInit(p, n).error.InvalidOutputDatasize?
    ensures SwizzlerInit(p, n).Err? ==> !SwizzlerInit(p, n).error.InvalidOutputDatasize?
  {
  }

  /** An unknown platform: the deswizzler raises `UnsupportedPlatform`, while
      the swizzler as written names an undefined exception and so raises a
      `NameError`; the corrected swizzler raises `UnsupportedPlatform`. */
  lemma UnknownPlatformNameError()
    ensures var q := Params("xbox", 8, 8, 4, 4, 8, None);
      InDomain(q) && ExpectedDatasize(q) == 32 &&
      DeswizzlerInit(q, 32) == Err(UnsupportedPlatform) &&
      SwizzlerInit(q, 32) == Err(UndefinedErrorName) &&
      SwizzlerInitFixed(q, 32) == Err(UnsupportedPlatform)
  {
    var q := Params("xbox", 8, 8, 4, 4, 8, None);
    assert ExpectedDatasize(q) == (8 * 8) / (4 * 4) * 8 == 32;
  }

  /** An empty image is refused by the size check as soon as any data is
      given, so both engines report it; with no data at all it passes every
      check, and it is only then that running an engine would crash. */
  lemma EmptyImageCases(data: seq<byte>)
    requires |data| > 0
    ensures var q := Params("ps4", 0, 32, 4, 4, 8, None);
      Runs(q, |data|) &&
      DeswizzleResult(q, data) == Err(InvalidInputDatasize(0, |data|)) &&
      SwizzleResult(q, data) == Err(InvalidInputDatasize(0, |data|)) &&
      DeswizzlerInit(q, 0).Ok? && SwizzlerInit(q, 0).Ok? && !Runs(q, 0)
  {
  }

  // ---------------------------------------------------------------------------
  // The worked 'ps4' example

  const Ps4Example := Params("ps4", 32, 32, 4, 4, 8, None)

  /** A 32x32 'ps4' image of 4x4 blocks of 8 bytes is 512 bytes, one tile
      of 64 read units of 8 bytes; the swizzler sees it as 8 rows of 8 read
      units. A 511-byte buffer is refused by both constructors. */
  lemma Ps4ExampleConfigs()
    ensures InDomain(Ps4Example) && ExpectedDatasize(Ps4Example) == 512
    ensures DeswizzlerInit(Ps4Example, 512) == Ok(DeswizzleConfig(Ps4DeswizzleSteps, 8, 64, 1, 1))
    ensures SwizzlerInit(Ps4Example, 512) == Ok(SwizzleConfig(Ps4SwizzleSteps, 8, 8, 1, 1, 1, 8))
    ensures DeswizzlerInit(Ps4Example, 511) == Err(InvalidInputDatasize(512, 511))
    ensures SwizzlerInit(Ps4Example, 511) == Err(InvalidInputDatasize(512, 511))
  {
    assert ExpectedDatasize(Ps4Example) == (32 * 32) / (4 * 4) * 8 == 512;
  }

  /** Any 512-byte buffer goes through both engines for the example and
      comes back unchanged after the other engine. */
  lemma Ps4ExampleRuns(data: seq<byte>)
    requires |data| == 512
    ensures DeswizzleResult(Ps4Example, data).Ok? && |DeswizzleResult(Ps4Example, data).value| == 512
    ensures SwizzleResult(Ps4Example, data).Ok? && |SwizzleResult(Ps4Example, data).value| == 512
    ensures SwizzleResult(Ps4Example, DeswizzleResult(Ps4Example, data).value) == Ok(data)
    ensures DeswizzleResult(Ps4Example, SwizzleResult(Ps4Example, data).value) == Ok(data)
  {
    Ps4ExampleConfigs();
    ResultsAgree(Ps4Example, data);
    DeswizzleThenSwizzle(Ps4Example, data);
    SwizzleThenDeswizzle(Ps4Example, data);
  }
}
