/**
 The cache of a frame's images (image_data.h): each is computed on first request and reused
 until the next frame arrives.
 */
module ImageDataCache {
  import opened Downsampling
  import opened IntegralImages
  import opened Pixels
  import opened Pyramids

  function Picture(image: Image): (r: Source)
    reads image
    ensures Packed(r) && r.width == image.width && r.height == image.height
  {
    View(image.memory, image.width, image.height)
  }

  method CopyInto(image: Image, s: Source)
    requires Packed(s) && s.width == image.width && s.height == image.height
    modifies image
    ensures Picture(image) == s
  {
    hide View;
    ViewOfCopy(image.memory, s);
    image.memory := Stored(image.memory, 0, s.data);
  }

  method AverageInto(neon: bool, image: Image, upper: Image)
    requires image != upper && image.width == upper.width / 2 && image.height == upper.height / 2
    requires neon ==> NeonFits(image.width, image.height, 2)
    modifies image
    ensures Picture(image) == Averages(EvenPart(Picture(upper)), image.width, image.height, 2)
  {
    hide View, Averaged, Averages, NeonFits, Covers, Neon, OutsideKept;
    var s := EvenPart(Picture(upper));
    ViewBacks(upper.memory, upper.width, upper.height);
    image.DownsampleAveraged(neon, s, upper.memory, 2);
    ViewOfAverages(image.memory, s, image.width, image.height, 2);
  }

  class Derivative {
    var data: seq<int>

    constructor ()
    {
      data := [];
    }
  }

  class ImageData {
    const neon: bool
    const ops: Operations
    const image: Image
    var timestamp: int
    var pyramid: seq<Image?>
    var pyramidComputed: seq<bool>
    var spatialX: seq<Derivative?>
    var spatialXComputed: seq<bool>
    var spatialY: seq<Derivative?>
    var spatialYComputed: seq<bool>
    var integralImage: IntegralImage?
    var integralImageComputed: bool

    /** Level 0 is the base image itself, no other image is shared, and allocated levels have their size. */
    ghost predicate Shaped()
      reads this`pyramid, this`pyramidComputed, this`spatialX, this`spatialXComputed
      reads this`spatialY, this`spatialYComputed
    {
      && |pyramid| == |pyramidComputed| == 2 * PYRAMID_LEVELS && pyramid[0] == image
      && |spatialX| == |spatialXComputed| == |spatialY| == |spatialYComputed| == PYRAMID_LEVELS
      && (forall i, j :: 0 <= i < j < |pyramid| && pyramid[i] != null ==> pyramid[i] != pyramid[j])
      && (forall i, j :: 0 <= i < j < |spatialX| && spatialX[i] != null ==> spatialX[i] != spatialX[j])
      && (forall i, j :: 0 <= i < j < |spatialY| && spatialY[i] != null ==> spatialY[i] != spatialY[j])
      && (forall i, j :: 0 <= i < |spatialX| && 0 <= j < |spatialY| && spatialX[i] != null ==>
            spatialX[i] != spatialY[j])
      && (forall i :: 0 <= i < |pyramid| && pyramid[i] != null ==>
            pyramid[i].width == Scaled(ops, image.width, i) && pyramid[i].height == Scaled(ops, image.height, i))
    }

    ghost predicate IntegralShaped()
      reads this`integralImage
    {
      integralImage != null ==>
        integralImage.Valid() && integralImage.width == image.width && integralImage.height == image.height
    }

    /** Levels marked as computed are those of the current base image. */
    ghost predicate PyramidValid()
      requires |pyramid| == |pyramidComputed|
      reads this`pyramid, this`pyramidComputed, image, pyramid
    {
      forall i :: 1 <= i < |pyramid| && pyramidComputed[i] ==>
        pyramid[i] != null && Picture(pyramid[i]) == Level(ops, Picture(image), i)
    }

    ghost predicate GradientsValid(stored: seq<Derivative?>, computed: seq<bool>, alongX: bool)
      requires |stored| == |computed|
      reads image, stored
    {
      forall i :: 0 <= i < |stored| && computed[i] ==>
        stored[i] != null && stored[i].data == Gradient(ops, Level(ops, Picture(image), 2 * i), alongX)
    }

    ghost predicate IntegralValid()
      requires IntegralShaped()
      reads this`integralImage, this`integralImageComputed, image
      reads if integralImage == null then {} else {integralImage.table}
    {
      PackedIsValid(Picture(image));
      integralImageComputed ==> integralImage != null && integralImage.Holds(Picture(image))
    }

    ghost predicate Valid()
      reads this, image, pyramid, spatialX, spatialY,
        if integralImage == null then {} else {integralImage, integralImage.table}
    {
      && (image.width > 0 ==> image.height > 0)
      && Shaped() && PyramidValid()
      && GradientsValid(spatialX, spatialXComputed, true) && GradientsValid(spatialY, spatialYComputed, false)
      && IntegralShaped() && IntegralValid()
    }

    constructor (neon: bool, ops: Operations, width: nat, height: nat)
      requires width > 0 ==> height > 0
      ensures Valid() && this.neon == neon && this.ops == ops && image.width == width && image.height == height
      ensures fresh(image) && pyramid == [image] + seq(7, _ => null) && integralImage == null
      ensures spatialX == spatialY == seq(4, _ => null)
    {
      this.neon, this.ops, timestamp := neon, ops, 0;
      var base := new Image(width, height);
      image := base;
      pyramid := [base] + seq(7, _ => null);
      spatialX, spatialY := seq(4, _ => null), seq(4, _ => null);
      integralImage, integralImageComputed := null, false;
      pyramidComputed := seq(8, _ => false);
      spatialXComputed, spatialYComputed := seq(4, _ => false), seq(4, _ => false);
    }

    method ResetComputationCache()
      requires Shaped()
      modifies this`pyramidComputed, this`spatialXComputed, this`spatialYComputed, this`integralImageComputed
      ensures pyramidComputed == seq(8, _ => false) && !integralImageComputed
      ensures spatialXComputed == spatialYComputed == seq(4, _ => false)
    {
      integralImageComputed := false;
      for i := 0 to PYRAMID_LEVELS
        invariant !integralImageComputed
        invariant |spatialXComputed| == |spatialYComputed| == PYRAMID_LEVELS && |pyramidComputed| == 2 * PYRAMID_LEVELS
        invariant forall k :: 0 <= k < i ==> !spatialXComputed[k] && !spatialYComputed[k]
        invariant forall k :: 0 <= k < 2 * i ==> !pyramidComputed[k]
      {
        spatialXComputed := spatialXComputed[i := false];
        spatialYComputed := spatialYComputed[i := false];
        pyramidComputed := pyramidComputed[2 * i := false][2 * i + 1 := false];
      }
    }

    /** A new frame: everything computed for the last one is marked as out of date. */
    method SetData(frame: Source, source: Memory, timestamp: int, downsampleFactor: nat)
      requires Valid() && Covers(frame, image.width, image.height, downsampleFactor) && Backs(source, frame)
      requires UsesNeon(neon, downsampleFactor) ==> NeonFits(image.width, image.height, downsampleFactor)
      modifies this`timestamp, this`pyramidComputed, this`spatialXComputed, this`spatialYComputed
      modifies this`integralImageComputed, image
      ensures Ready() && this.timestamp == timestamp
      ensures Picture(image) == Averages(frame, image.width, image.height, downsampleFactor)
    {
      hide Level, Averages, Scaled, View, PyramidValid, GradientsValid, IntegralValid;
      ResetComputationCache();
      this.timestamp := timestamp;
      FromArray(frame, source, downsampleFactor);
      pyramidComputed := pyramidComputed[0 := true];
      NothingComputed();
    }

    lemma NothingComputed()
      requires Shaped() && IntegralShaped()
      requires forall i :: 1 <= i < |pyramidComputed| ==> !pyramidComputed[i]
      requires forall i :: 0 <= i < PYRAMID_LEVELS ==> !spatialXComputed[i] && !spatialYComputed[i]
      requires !integralImageComputed
      ensures PyramidValid() && IntegralValid()
      ensures GradientsValid(spatialX, spatialXComputed, true) && GradientsValid(spatialY, spatialYComputed, false)
    {
    }

    /** Fills the base image: a plain copy if nothing is scaled, else block averages. */
    method FromArray(frame: Source, source: Memory, factor: nat)
      requires Covers(frame, image.width, image.height, factor) && Backs(source, frame)
      requires UsesNeon(neon, factor) ==> NeonFits(image.width, image.height, factor)
      modifies image
      ensures Picture(image) == Averages(frame, image.width, image.height, factor)
    {
      hide Covers, Averages, Averaged, View, NeonFits;
      if factor == 1 && frame.stride == image.width {
        CopyIsAverage(frame, image.width, image.height);
        ViewOfCopy(image.memory, Averages(frame, image.width, image.height, 1));
        image.memory := Stored(image.memory, 0, frame.data[..image.width * image.height]);
      } else {
        image.DownsampleAveraged(neon, frame, source, factor);
        ViewOfAverages(image.memory, frame, image.width, image.height, factor);
      }
    }

    /** The objects that hold the cache. */
    ghost function Owned(): set<object>
      reads this
    {
      {this, image}
      + (set i | 0 <= i < |pyramid| && pyramid[i] != null :: pyramid[i])
      + (set i | 0 <= i < |spatialX| && spatialX[i] != null :: spatialX[i])
      + (set i | 0 <= i < |spatialY| && spatialY[i] != null :: spatialY[i])
      + (if integralImage == null then {} else {integralImage, integralImage.table})
    }

    /** The base image has been set. */
    ghost predicate Ready()
      reads this, image, pyramid, spatialX, spatialY,
        if integralImage == null then {} else {integralImage, integralImage.table}
    {
      Valid() && pyramidComputed[0]
    }

    /** Images are only ever allocated, never replaced. */
    twostate predicate OnlyAllocates()
      reads this
    {
      && |pyramid| == old(|pyramid|) && |spatialX| == old(|spatialX|) && |spatialY| == old(|spatialY|)
      && (forall i :: 0 <= i < |pyramid| ==>
            pyramid[i] == old(pyramid[i]) || (old(pyramid[i]) == null && fresh(pyramid[i])))
      && (forall i :: 0 <= i < |spatialX| ==> spatialX[i] == old(spatialX[i]) || fresh(spatialX[i]))
      && (forall i :: 0 <= i < |spatialY| ==> spatialY[i] == old(spatialY[i]) || fresh(spatialY[i]))
    }

    twostate lemma OwnedGrows()
      requires OnlyAllocates() && integralImage == old(integralImage)
      ensures fresh(Owned() - old(Owned()))
    {
    }

    method GetPyramidSqrt2Level(level: nat) returns (r: Image)
      requires Ready() && level < 2 * PYRAMID_LEVELS && LevelFits(neon, ops, image.width, image.height, level)
      modifies this`pyramid, this`pyramidComputed, set i | 1 <= i < |pyramid| :: pyramid[i]
      ensures Ready() && OnlyAllocates()
      ensures r == pyramid[level] && (level == 0 ==> r == image) && Picture(r) == Level(ops, Picture(image), level)
      decreases level
    {
      hide Averages, Gradient, Packed, View, NeonFits, IntegralValid, GradientsValid;
      if !pyramidComputed[level] {
        if level == 1 {
          var upper := GetPyramidSqrt2Level(0);
          AllocateLevel(level, ops.shrink(upper.width), ops.shrink(upper.height));
          InterpolateLevel();
        } else {
          var upper := GetPyramidSqrt2Level(level - 2);
          AllocateLevel(level, upper.width / 2, upper.height / 2);
          AverageLevel(level, upper);
        }
      }
      r := pyramid[level];
    }

    method AllocateLevel(level: nat, width: nat, height: nat)
      requires Valid() && 1 <= level < 2 * PYRAMID_LEVELS
      requires width == Scaled(ops, image.width, level) && height == Scaled(ops, image.height, level)
      modifies this`pyramid
      ensures Valid() && OnlyAllocates() && pyramid[level] != null
    {
      hide Gradient, Packed, Scaled, Level;
      if pyramid[level] == null {
        var created := new Image(width, height);
        pyramid := pyramid[level := created];
      }
    }

    /** Level 1, from the base image. */
    method InterpolateLevel()
      requires Valid() && pyramid[1] != null
      modifies this`pyramidComputed, pyramid[1]
      ensures Valid() && pyramidComputed == old(pyramidComputed)[1 := true]
    {
      hide Gradient, Scaled, Level, Picture, Packed, IntegralValid, GradientsValid;
      CopyInto(pyramid[1], Level(ops, Picture(image), 1));
      pyramidComputed := pyramidComputed[1 := true];
    }

    /** Averages the image two levels up. */
    method AverageLevel(level: nat, upper: Image)
      requires Valid() && 2 <= level < 2 * PYRAMID_LEVELS && pyramid[level] != null
      requires upper == pyramid[level - 2] && Picture(upper) == Level(ops, Picture(image), level - 2)
      requires LevelFits(neon, ops, image.width, image.height, level)
      modifies this`pyramidComputed, pyramid[level]
      ensures Valid() && pyramidComputed == old(pyramidComputed)[level := true]
    {
      hide Gradient, Averages, NeonFits, Picture, EvenPart, Level, Scaled, Packed, IntegralValid, GradientsValid;
      LevelStep(ops, Picture(image), level);
      AverageInto(neon, pyramid[level], upper);
      pyramidComputed := pyramidComputed[level := true];
    }

    method StoreSpatialX(level: nat, data: seq<int>)
      requires Valid() && level < PYRAMID_LEVELS
      requires data == Gradient(ops, Level(ops, Picture(image), 2 * level), true)
      modifies this`spatialX, this`spatialXComputed, spatialX
      ensures Valid() && OnlyAllocates() && spatialXComputed == old(spatialXComputed)[level := true]
    {
      hide Gradient, Packed, Level, Scaled, PyramidValid, IntegralValid;
      if spatialX[level] == null {
        var created := new Derivative();
        spatialX := spatialX[level := created];
      }
      spatialX[level].data := data;
      spatialXComputed := spatialXComputed[level := true];
    }

    method GetSpatialX(level: nat) returns (r: Derivative)
      requires Ready() && level < PYRAMID_LEVELS && LevelFits(neon, ops, image.width, image.height, 2 * level)
      modifies this`pyramid, this`pyramidComputed, set i | 1 <= i < |pyramid| :: pyramid[i]
      modifies this`spatialX, this`spatialXComputed, spatialX
      ensures Ready() && OnlyAllocates()
      ensures r == spatialX[level] && r.data == Gradient(ops, Level(ops, Picture(image), 2 * level), true)
    {
      hide Gradient, Packed, Level, Scaled, PyramidValid, IntegralValid;
      if !spatialXComputed[level] {
        var src := GetPyramidSqrt2Level(2 * level);
        StoreSpatialX(level, Gradient(ops, Picture(src), true));
      }
      r := spatialX[level];
    }

    method StoreSpatialY(level: nat, data: seq<int>)
      requires Valid() && level < PYRAMID_LEVELS
      requires data == Gradient(ops, Level(ops, Picture(image), 2 * level), false)
      modifies this`spatialY, this`spatialYComputed, spatialY
      ensures Valid() && OnlyAllocates() && spatialYComputed == old(spatialYComputed)[level := true]
    {
      hide Gradient, Packed, Level, Scaled, PyramidValid, IntegralValid;
      if spatialY[level] == null {
        var created := new Derivative();
        spatialY := spatialY[level := created];
      }
      spatialY[level].data := data;
      spatialYComputed := spatialYComputed[level := true];
    }

    method GetSpatialY(level: nat) returns (r: Derivative)
      requires Ready() && level < PYRAMID_LEVELS && LevelFits(neon, ops, image.width, image.height, 2 * level)
      modifies this`pyramid, this`pyramidComputed, set i | 1 <= i < |pyramid| :: pyramid[i]
      modifies this`spatialY, this`spatialYComputed, spatialY
      ensures Ready() && OnlyAllocates()
      ensures r == spatialY[level] && r.data == Gradient(ops, Level(ops, Picture(image), 2 * level), false)
    {
      hide Gradient, Packed, Level, Scaled, PyramidValid, IntegralValid;
      if !spatialYComputed[level] {
        var src := GetPyramidSqrt2Level(2 * level);
        StoreSpatialY(level, Gradient(ops, Picture(src), false));
      }
      r := spatialY[level];
    }

    /** Created on first use; recomputed in place if it is out of date. */
    method GetIntegralImage() returns (r: IntegralImage)
      requires Valid()
      modifies this`integralImage, this`integralImageComputed
      modifies if integralImage == null then {} else {integralImage.table}
      ensures fresh(Owned() - old(Owned()))
      ensures Valid() && r == integralImage
      ensures (PackedIsValid(Picture(image)); r.Valid() && r.SameSize(Picture(image)) && r.Holds(Picture(image)))
    {
      hide Gradient, Packed, Level, Scaled, Picture, Shaped, PyramidValid, GradientsValid;
      PackedIsValid(Picture(image));
      if integralImage == null {
        var created := new IntegralImage(image.width, image.height);
        created.Recompute(Picture(image));
        integralImage := created;
      } else if !integralImageComputed {
        integralImage.Recompute(Picture(image));
      }
      integralImageComputed := true;
      r := integralImage;
    }

    method ServeFrame(request: Request)
      requires Ready() && request.NewFrame? && Answerable(request, neon, ops, image.width, image.height)
      modifies Owned()
      ensures Ready() && fresh(Owned() - old(Owned()))
      ensures Picture(image) == NextBase(neon, ops, old(Picture(image)), request)
    {
      hide Shaped, PyramidValid, GradientsValid, IntegralValid, IntegralShaped, Averages, Picture;
      SetData(request.frame, request.source, request.timestamp, request.downsampleFactor);
    }

    method ServeImage(request: Request) returns (answer: Answer)
      requires Ready() && !request.NewFrame? && !request.Region?
      requires Answerable(request, neon, ops, image.width, image.height)
      modifies Owned()
      ensures Ready() && fresh(Owned() - old(Owned())) && Picture(image) == old(Picture(image))
      ensures answer == Uncached(neon, ops, old(Picture(image)), request)
    {
      hide Gradient, Level, Averages, Picture, PyramidValid, GradientsValid, IntegralValid, IntegralShaped, LevelFits;
      match request {
        case PyramidLevel(level) =>
          var r := GetPyramidSqrt2Level(level);
          answer := Pixels(Picture(r));
        case SpatialX(level) =>
          var r := GetSpatialX(level);
          answer := Slopes(r.data);
        case SpatialY(level) =>
          var r := GetSpatialY(level);
          answer := Slopes(r.data);
      }
      OwnedGrows();
    }

    method ServeRegion(request: Request) returns (answer: Answer)
      requires Ready() && request.Region? && Answerable(request, neon, ops, image.width, image.height)
      modifies Owned()
      ensures Ready() && fresh(Owned() - old(Owned())) && Picture(image) == old(Picture(image))
      ensures answer == Uncached(neon, ops, old(Picture(image)), request)
    {
      hide Shaped, PyramidValid, GradientsValid, Picture, Wrap, RegionSum;
      var r := GetIntegralImage();
      PackedIsValid(Picture(image));
      r.RegionSumIsTrueSum(Picture(image), request.x1, request.y1, request.x2, request.y2);
      answer := Sum(r.GetRegionSum(request.x1, request.y1, request.x2, request.y2));
    }

    /** One request, answered as if nothing were cached. */
    method Serve(request: Request) returns (answer: Answer)
      requires Ready() && Answerable(request, neon, ops, image.width, image.height)
      modifies Owned()
      ensures Ready() && fresh(Owned() - old(Owned()))
      ensures Picture(image) == NextBase(neon, ops, old(Picture(image)), request)
      ensures answer == Uncached(neon, ops, old(Picture(image)), request)
    {
      hide Ready, Answerable, Owned, Picture, Level, Gradient, Averages;
      match request {
        case NewFrame(_, _, _, _) =>
          ServeFrame(request);
          answer := Done;
        case Region(_, _, _, _) => answer := ServeRegion(request);
        case _ => answer := ServeImage(request);
      }
    }

    /** Whatever the order of frames and requests, the cache answers as if there were none. */
    method ServeAll(requests: seq<Request>) returns (answers: seq<Answer>)
      requires Ready() && AllAnswerable(requests, neon, ops, image.width, image.height)
      modifies Owned()
      ensures Ready() && answers == UncachedAll(neon, ops, old(Picture(image)), requests)
      decreases |requests|
    {
      hide Ready, Picture, Answerable, Uncached, NextBase;
      if requests == [] {
        return [];
      }
      var answer := Serve(requests[0]);
      var rest := ServeAll(requests[1..]);
      return [answer] + rest;
    }
  }
}
