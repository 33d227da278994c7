/**
 The images computed from one frame (image_data.h), as functions of the frame alone: a
 pyramid with a factor of sqrt(2) between levels, spatial derivatives and region sums.
 */
module Pyramids {
  import opened Arithmetic
  import opened Downsampling
  import opened IntegralImages
  import opened Pixels

  const PYRAMID_LEVELS: nat := 4

  /** Pixel operations that stay uninterpreted: linear interpolation and the derivatives. */
  datatype Operations = Operations(
    shrink: nat -> nat,
    linear: (Source, nat, nat, nat, nat) -> Byte,
    derivativeX: (Source, nat, nat) -> int,
    derivativeY: (Source, nat, nat) -> int)

  // ---------------------------------------------------------------------------------------
  // What each image is, as a function of the frame alone.

  /** Rows without gaps between them. */
  predicate Packed(s: Source) {
    s.stride == s.width && |s.data| == s.width * s.height
  }

  lemma PackedIsValid(s: Source)
    requires Packed(s)
    ensures s.Valid()
  {
    if s.height > 0 {
      Distribute(s.height - 1, 1, s.width);
    }
  }

  /** Row-major pixels of a width by height image. */
  function Raster<T>(width: nat, height: nat, pixel: (nat, nat) --> T): (r: seq<T>)
    requires forall x: nat, y: nat :: x < width && y < height ==> pixel.requires(x, y)
    ensures |r| == width * height
    ensures forall k :: 0 <= k < width * height ==>
              var p := Position(k, width, height); p.0 < width && p.1 < height && r[k] == pixel(p.0, p.1)
  {
    NonNegativeProduct(width, height);
    seq(width * height, k requires 0 <= k < width * height =>
      var p := Position(k, width, height); pixel(p.0, p.1))
  }

  /** Column and row of the k-th pixel. */
  function Position(k: nat, width: nat, height: nat): (p: (nat, nat))
    requires k < width * height
    ensures p.0 < width && p.1 < height && k == p.1 * width + p.0
  {
    DivMod(k, width);
    QuotientBelow(k, width, height);
    (k % width, k / width)
  }

  function Averages(s: Source, width: nat, height: nat, factor: nat): (r: Source)
    requires Covers(s, width, height, factor)
    ensures Packed(r) && r.width == width && r.height == height
  {
    var average :=
      (x: nat, y: nat) requires x < width && y < height => BlockAverage(s, width, height, factor, x, y);
    Source(Raster(width, height, average), width, width, height)
  }

  /** The part of an image that blocks of two cover. */
  function EvenPart(s: Source): (r: Source)
    requires Packed(s)
    ensures Covers(r, s.width / 2, s.height / 2, 2)
  {
    EvenPartFits(s.width, s.height);
    Source(s.data, s.stride, s.width / 2 * 2, s.height / 2 * 2)
  }

  lemma EvenPartFits(width: nat, height: nat)
    ensures height / 2 > 0 ==> (height / 2 * 2 - 1) * width + width / 2 * 2 <= width * height
  {
    if height / 2 > 0 {
      ProductMonotone(height / 2 * 2 - 1, height - 1, width);
      Distribute(height - 1, 1, width);
    }
  }

  /** Width or height of a pyramid level. */
  function Scaled(ops: Operations, size: nat, level: nat): nat {
    if level == 0 then size else if level == 1 then ops.shrink(size) else Scaled(ops, size, level - 2) / 2
  }

  /** Pyramid level of a frame. */
  function Level(ops: Operations, base: Source, level: nat): (r: Source)
    requires Packed(base)
    ensures Packed(r) && r.width == Scaled(ops, base.width, level) && r.height == Scaled(ops, base.height, level)
  {
    if level == 0 then base
    else if level == 1 then
      var width, height := ops.shrink(base.width), ops.shrink(base.height);
      Source(Raster(width, height, (x: nat, y: nat) => ops.linear(base, width, height, x, y)), width, width, height)
    else
      var upper := Level(ops, base, level - 2);
      Averages(EvenPart(upper), upper.width / 2, upper.height / 2, 2)
  }

  lemma LevelStep(ops: Operations, base: Source, level: nat)
    requires Packed(base) && level >= 2
    ensures Scaled(ops, base.width, level) == Scaled(ops, base.width, level - 2) / 2
    ensures Scaled(ops, base.height, level) == Scaled(ops, base.height, level - 2) / 2
    ensures var upper := Level(ops, base, level - 2);
      Level(ops, base, level) == Averages(EvenPart(upper), upper.width / 2, upper.height / 2, 2)
  {
  }

  /** Derivative of an image along its rows or its columns. */
  function Gradient(ops: Operations, s: Source, alongX: bool): seq<int> {
    Raster(s.width, s.height, (x: nat, y: nat) => if alongX then ops.derivativeX(s, x, y) else ops.derivativeY(s, x, y))
  }

  lemma RasterAt<T>(width: nat, height: nat, pixel: (nat, nat) --> T, x: nat, y: nat)
    requires forall x: nat, y: nat :: x < width && y < height ==> pixel.requires(x, y)
    requires x < width && y < height
    ensures 0 <= y * width + x < width * height
    ensures Raster(width, height, pixel)[y * width + x] == pixel(x, y)
  {
    NonNegativeProduct(y, width);
    NextMultiple(y, height, width);
    var p := Position(y * width + x, width, height);
    QuotientUnique(y, p.1, width, x, p.0);
  }

  /** The x derivative comes from derivativeX and the y derivative from derivativeY. */
  lemma GradientSpelledOut(ops: Operations, s: Source, x: nat, y: nat)
    requires x < s.width && y < s.height
    ensures 0 <= y * s.width + x < s.width * s.height
    ensures Gradient(ops, s, true)[y * s.width + x] == ops.derivativeX(s, x, y)
    ensures Gradient(ops, s, false)[y * s.width + x] == ops.derivativeY(s, x, y)
  {
    RasterAt(s.width, s.height, (x: nat, y: nat) => ops.derivativeX(s, x, y), x, y);
    RasterAt(s.width, s.height, (x: nat, y: nat) => ops.derivativeY(s, x, y), x, y);
    assert Gradient(ops, s, true) == Raster(s.width, s.height, (x: nat, y: nat) => ops.derivativeX(s, x, y));
    assert Gradient(ops, s, false) == Raster(s.width, s.height, (x: nat, y: nat) => ops.derivativeY(s, x, y));
    hide Raster;
  }

  lemma AveragesAt(s: Source, width: nat, height: nat, factor: nat, x: nat, y: nat)
    requires Covers(s, width, height, factor) && x < width && y < height
    ensures Averages(s, width, height, factor).Valid()
    ensures Averages(s, width, height, factor).Pixel(x, y) == BlockAverage(s, width, height, factor, x, y)
  {
    hide BlockAverage, Covers;
    PackedIsValid(Averages(s, width, height, factor));
    var average :=
      (x: nat, y: nat) requires x < width && y < height => BlockAverage(s, width, height, factor, x, y);
    RasterAt(width, height, average, x, y);
    Averages(s, width, height, factor).InBuffer(x, y, 1);
  }

  /** Four pixels of a 2 by 2 block. */
  lemma BlockOfFour(s: Source, width: nat, height: nat, x: nat, y: nat)
    requires Covers(s, width, height, 2) && x < width && y < height
    ensures BlockAverage(s, width, height, 2, x, y)
         == (s.Pixel(2 * x, 2 * y) + s.Pixel(2 * x + 1, 2 * y)
             + s.Pixel(2 * x, 2 * y + 1) + s.Pixel(2 * x + 1, 2 * y + 1)) / 4
  {
    BlockInside(x, width, 2);
    BlockInside(y, height, 2);
    assert RectSum(s, x * 2, y * 2, 2, 2) == RectSum(s, x * 2, y * 2, 2, 1) + RowSum(s, x * 2, y * 2 + 1, 2);
    assert RectSum(s, x * 2, y * 2, 2, 1) == RowSum(s, x * 2, y * 2, 2);
    PairSum(s, x * 2, y * 2);
    PairSum(s, x * 2, y * 2 + 1);
  }

  lemma PairSum(s: Source, x: nat, y: nat)
    requires s.Valid() && s.InRow(x, y, 2)
    ensures RowSum(s, x, y, 2) == s.Pixel(x, y) as int + s.Pixel(x + 1, y)
  {
    assert RowSum(s, x, y, 1) == s.Pixel(x, y);
  }

  /** Levels 0 and 1, and each other level from the one two levels up, pixel by pixel. */
  lemma LevelSpelledOut(ops: Operations, base: Source, level: nat, x: nat, y: nat)
    requires Packed(base) && x < Scaled(ops, base.width, level) && y < Scaled(ops, base.height, level)
    ensures base.Valid() && Level(ops, base, level).Valid()
    ensures level == 0 ==> Level(ops, base, level) == base
    ensures level == 1 ==>
              Level(ops, base, level).Pixel(x, y)
              == ops.linear(base, ops.shrink(base.width), ops.shrink(base.height), x, y)
    ensures level >= 2 ==>
              var upper := Level(ops, base, level - 2);
              && upper.Valid() && upper.InRow(2 * x, 2 * y, 2) && upper.InRow(2 * x, 2 * y + 1, 2)
              && Level(ops, base, level).Pixel(x, y)
                 == (upper.Pixel(2 * x, 2 * y) + upper.Pixel(2 * x + 1, 2 * y)
                     + upper.Pixel(2 * x, 2 * y + 1) + upper.Pixel(2 * x + 1, 2 * y + 1)) / 4
  {
    PackedIsValid(base);
    PackedIsValid(Level(ops, base, level));
    if level == 1 {
      LinearAt(ops, base, x, y);
    } else if level >= 2 {
      AveragedLevelAt(ops, base, level, x, y);
    }
  }

  lemma LinearAt(ops: Operations, base: Source, x: nat, y: nat)
    requires Packed(base) && x < ops.shrink(base.width) && y < ops.shrink(base.height)
    ensures Level(ops, base, 1).Valid() && Level(ops, base, 1).InRow(x, y, 1)
    ensures Level(ops, base, 1).Pixel(x, y)
         == ops.linear(base, ops.shrink(base.width), ops.shrink(base.height), x, y)
  {
    var width, height := ops.shrink(base.width), ops.shrink(base.height);
    PackedIsValid(Level(ops, base, 1));
    RasterAt(width, height, (x: nat, y: nat) => ops.linear(base, width, height, x, y), x, y);
    Level(ops, base, 1).InBuffer(x, y, 1);
  }

  lemma AveragedLevelAt(ops: Operations, base: Source, level: nat, x: nat, y: nat)
    requires Packed(base) && level >= 2
    requires x < Scaled(ops, base.width, level) && y < Scaled(ops, base.height, level)
    ensures var upper := Level(ops, base, level - 2);
      && upper.Valid() && upper.InRow(2 * x, 2 * y, 2) && upper.InRow(2 * x, 2 * y + 1, 2)
      && Level(ops, base, level).Valid()
      && Level(ops, base, level).Pixel(x, y)
         == (upper.Pixel(2 * x, 2 * y) + upper.Pixel(2 * x + 1, 2 * y)
             + upper.Pixel(2 * x, 2 * y + 1) + upper.Pixel(2 * x + 1, 2 * y + 1)) / 4
  {
    hide BlockAverage, Averages, Level;
    LevelStep(ops, base, level);
    var upper := Level(ops, base, level - 2);
    PackedIsValid(upper);
    AveragesAt(EvenPart(upper), upper.width / 2, upper.height / 2, 2, x, y);
    BlockOfFour(EvenPart(upper), upper.width / 2, upper.height / 2, x, y);
  }

  /** Copying an unscaled frame is the same as averaging blocks of one pixel. */
  lemma CopyIsAverage(s: Source, width: nat, height: nat)
    requires Covers(s, width, height, 1) && s.stride == width
    ensures width * height <= |s.data| && Averages(s, width, height, 1).data == s.data[..width * height]
  {
    if height > 0 {
      Distribute(height - 1, 1, width);
    }
    forall k | 0 <= k < width * height ensures Averages(s, width, height, 1).data[k] == s.data[k] {
      var p := Position(k, width, height);
      assert RectSum(s, p.0, p.1, 1, 1) == RowSum(s, p.0, p.1, 1) == s.Pixel(p.0, p.1);
    }
  }

  // ---------------------------------------------------------------------------------------
  // Images in memory.

  function View(m: Memory, width: nat, height: nat): (r: Source)
    ensures Packed(r) && r.width == width && r.height == height
  {
    Source(Raster(width, height, (x: nat, y: nat) => At(m, width, x, y)), width, width, height)
  }

  lemma ViewBacks(m: Memory, width: nat, height: nat)
    ensures Backs(m, View(m, width, height))
  {
    forall k | 0 <= k < width * height ensures m(k) == View(m, width, height).data[k] {
      var p := Position(k, width, height);
    }
  }

  lemma ViewOfAverages(m: Memory, s: Source, width: nat, height: nat, factor: nat)
    requires Covers(s, width, height, factor) && Averaged(m, s, width, height, factor, 0, width)
    ensures View(m, width, height) == Averages(s, width, height, factor)
  {
    hide BlockAverage, At;
    forall k | 0 <= k < width * height
      ensures View(m, width, height).data[k] == Averages(s, width, height, factor).data[k]
    {
      var p := Position(k, width, height);
      assert At(m, width, p.0, p.1) == BlockAverage(s, width, height, factor, p.0, p.1);
    }
  }

  lemma ViewOfCopy(m: Memory, s: Source)
    requires Packed(s)
    ensures View(Downsampling.Stored(m, 0, s.data), s.width, s.height) == s
  {
    var copy := Downsampling.Stored(m, 0, s.data);
    forall k | 0 <= k < s.width * s.height ensures View(copy, s.width, s.height).data[k] == s.data[k] {
      var p := Position(k, s.width, s.height);
    }
  }

  // ---------------------------------------------------------------------------------------
  // Builds with NEON.

  /** In a build with NEON, every level on the way to this one is one that the NEON version fills correctly. */
  predicate LevelFits(neon: bool, ops: Operations, width: nat, height: nat, level: nat) {
    level >= 2 ==>
      && LevelFits(neon, ops, width, height, level - 2)
      && (neon ==> NeonFits(Scaled(ops, width, level), Scaled(ops, height, level), 2))
  }

  /** The rows of a level have no source columns or at least 32. */
  predicate WideEnough(ops: Operations, width: nat, height: nat, level: nat)
    requires level >= 2
  {
    || Scaled(ops, height, level) == 0
    || Scaled(ops, width, level - 2) / 2 * 2 == 0
    || Scaled(ops, width, level - 2) / 2 * 2 >= 32
  }

  ghost predicate LevelAgrees(ops: Operations, width: nat, height: nat, level: nat) {
    NeonAgrees(Scaled(ops, width, level), Scaled(ops, height, level), 2)
  }

  lemma LevelAgreesExactly(ops: Operations, width: nat, height: nat, level: nat)
    requires level >= 2
    ensures LevelAgrees(ops, width, height, level) <==> WideEnough(ops, width, height, level)
  {
    hide NeonAgrees;
    NeonAgreesExactly(Scaled(ops, width, level), Scaled(ops, height, level), 2);
  }

  /** A NEON build fills all averaged levels like a scalar build exactly if they are wide enough. */
  lemma NeonLevelsAgreeExactly(ops: Operations, width: nat, height: nat)
    ensures (forall level :: 2 <= level < 2 * PYRAMID_LEVELS ==> LevelAgrees(ops, width, height, level))
       <==> (forall level :: 2 <= level < 2 * PYRAMID_LEVELS ==> WideEnough(ops, width, height, level))
  {
    hide LevelAgrees, WideEnough;
    forall level | 2 <= level < 2 * PYRAMID_LEVELS
      ensures LevelAgrees(ops, width, height, level) <==> WideEnough(ops, width, height, level)
    {
      LevelAgreesExactly(ops, width, height, level);
    }
  }

  /** Frames of 64 by 64 pixels are too narrow: level 6 has 16 source columns. */
  lemma SmallFrameDisagrees(ops: Operations)
    ensures Scaled(ops, 64, 4) == 16 && !LevelAgrees(ops, 64, 64, 6)
  {
    hide LevelAgrees;
    assert Scaled(ops, 64, 2) == 32;
    LevelAgreesExactly(ops, 64, 64, 6);
  }

  // ---------------------------------------------------------------------------------------
  // What a client may ask for, and the answers without any cache.

  datatype Request =
    | NewFrame(frame: Source, source: Memory, timestamp: int, downsampleFactor: nat)
    | PyramidLevel(level: nat)
    | SpatialX(level: nat)
    | SpatialY(level: nat)
    | Region(x1: int, y1: int, x2: int, y2: int)

  datatype Answer = Done | Pixels(image: Source) | Slopes(data: seq<int>) | Sum(sum: Uint32)

  /** Requests within the image that the build fills correctly. */
  ghost predicate Answerable(request: Request, neon: bool, ops: Operations, width: nat, height: nat) {
    match request
    case NewFrame(frame, source, _, factor) =>
      && Covers(frame, width, height, factor) && Backs(source, frame)
      && (UsesNeon(neon, factor) ==> NeonFits(width, height, factor))
    case PyramidLevel(level) => level < 2 * PYRAMID_LEVELS && LevelFits(neon, ops, width, height, level)
    case SpatialX(level) => level < PYRAMID_LEVELS && LevelFits(neon, ops, width, height, 2 * level)
    case SpatialY(level) => level < PYRAMID_LEVELS && LevelFits(neon, ops, width, height, 2 * level)
    case Region(x1, y1, x2, y2) => InRegion(x1, y1, x2, y2, width, height)
  }

  /** The base image after a request. */
  ghost function NextBase(neon: bool, ops: Operations, base: Source, request: Request): (r: Source)
    requires Packed(base) && Answerable(request, neon, ops, base.width, base.height)
    ensures Packed(r) && r.width == base.width && r.height == base.height
  {
    if request.NewFrame? then Averages(request.frame, base.width, base.height, request.downsampleFactor) else base
  }

  ghost function Uncached(neon: bool, ops: Operations, base: Source, request: Request): Answer
    requires Packed(base) && Answerable(request, neon, ops, base.width, base.height)
  {
    match request
    case NewFrame(_, _, _, _) => Done
    case PyramidLevel(level) => Pixels(Level(ops, base, level))
    case SpatialX(level) => Slopes(Gradient(ops, Level(ops, base, 2 * level), true))
    case SpatialY(level) => Slopes(Gradient(ops, Level(ops, base, 2 * level), false))
    case Region(x1, y1, x2, y2) => PackedIsValid(base); Sum(Wrap(RegionSum(base, x1, y1, x2, y2)))
  }

  ghost predicate AllAnswerable(requests: seq<Request>, neon: bool, ops: Operations, width: nat, height: nat) {
    forall q :: q in requests ==> Answerable(q, neon, ops, width, height)
  }

  /** Answers to a whole list of requests, each computed afresh from the latest frame. */
  ghost function UncachedAll(neon: bool, ops: Operations, base: Source, requests: seq<Request>): (r: seq<Answer>)
    requires Packed(base) && AllAnswerable(requests, neon, ops, base.width, base.height)
    ensures |r| == |requests|
    decreases |requests|
  {
    if requests == [] then []
    else
      [Uncached(neon, ops, base, requests[0])]
      + UncachedAll(neon, ops, NextBase(neon, ops, base, requests[0]), requests[1..])
  }

  /** Until the next frame, answers are those of the base image. */
  lemma {:induction false} AnswersFromBase(neon: bool, ops: Operations, base: Source, requests: seq<Request>, j: nat)
    requires Packed(base) && AllAnswerable(requests, neon, ops, base.width, base.height) && j < |requests|
    requires forall i :: 0 <= i <= j ==> !requests[i].NewFrame?
    ensures base.Valid() && Answerable(requests[j], neon, ops, base.width, base.height)
    ensures UncachedAll(neon, ops, base, requests)[j]
         == match requests[j]
            case NewFrame(_, _, _, _) => Done
            case PyramidLevel(level) => Pixels(Level(ops, base, level))
            case SpatialX(level) => Slopes(Gradient(ops, Level(ops, base, 2 * level), true))
            case SpatialY(level) => Slopes(Gradient(ops, Level(ops, base, 2 * level), false))
            case Region(x1, y1, x2, y2) => Sum(RegionSum(base, x1, y1, x2, y2) % 0x1_0000_0000)
  {
    hide Level, Gradient, RegionSum, Averages;
    PackedIsValid(base);
    assert requests[j] in requests && requests[0] in requests;
    if j > 0 {
      AnswersFromBase(neon, ops, base, requests[1..], j - 1);
    }
  }

  /** Every answer is that of the latest frame before it, averaged down to the base image. */
  lemma {:induction false} AnswersFromLatestFrame(
    neon: bool, ops: Operations, base: Source, requests: seq<Request>, k: nat, j: nat)
    requires Packed(base) && AllAnswerable(requests, neon, ops, base.width, base.height) && k < j < |requests|
    requires requests[k].NewFrame? && forall i :: k < i <= j ==> !requests[i].NewFrame?
    ensures Covers(requests[k].frame, base.width, base.height, requests[k].downsampleFactor)
    ensures var image := Averages(requests[k].frame, base.width, base.height, requests[k].downsampleFactor);
      && AllAnswerable(requests[k + 1..], neon, ops, image.width, image.height)
      && UncachedAll(neon, ops, base, requests)[j] == UncachedAll(neon, ops, image, requests[k + 1..])[j - k - 1]
    decreases k
  {
    hide Level, Gradient, RegionSum, Averages, Uncached, Answerable;
    assert requests[k] in requests;
    assert Answerable(requests[k], neon, ops, base.width, base.height);
    FrameIsCovered(requests[k], neon, ops, base.width, base.height);
    if k > 0 {
      var next := NextBase(neon, ops, base, requests[0]);
      AnswersFromLatestFrame(neon, ops, next, requests[1..], k - 1, j - 1);
      assert requests[1..][k..] == requests[k + 1..];
    }
  }

  lemma FrameIsCovered(request: Request, neon: bool, ops: Operations, width: nat, height: nat)
    requires request.NewFrame? && Answerable(request, neon, ops, width, height)
    ensures Covers(request.frame, width, height, request.downsampleFactor)
  {
  }
}
