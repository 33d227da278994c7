/**
 The FAST corner test and the score map it scatters into (TestCircle and the first pass of
 FindFastKeypoints in keypoint_detector.cc).
 */
module FastDetector {
  import opened Arithmetic
  import opened Pixels

  const FAST_DIFF_AMOUNT: int := 10
  const FAST_BORDER_BUFFER: int := 10
  const MIN_NUM_CONNECTED: int := 8

  // ---------------------------------------------------------------------------------------
  // The circle test.

  /** Positions past the end wrap around to the start of the circle. */
  function Wrapped(diffs: seq<int>, i: nat): int
    requires |diffs| > 0
  {
    diffs[i % |diffs|]
  }

  /** Clearly brighter, or clearly darker, than the centre. */
  predicate Passes(diff: int, above: bool) {
    if above then diff > FAST_DIFF_AMOUNT else diff < -FAST_DIFF_AMOUNT
  }

  /** n consecutive positions from `start` on are all above or all below. */
  predicate IsRun(diffs: seq<int>, start: nat, n: nat, above: bool)
    requires |diffs| > 0
  {
    forall k :: start <= k < start + n ==> Passes(Wrapped(diffs, k), above)
  }

  predicate Completes(diffs: seq<int>, start: nat, n: nat)
    requires |diffs| > 0
  {
    IsRun(diffs, start, n, true) || IsRun(diffs, start, n, false)
  }

  function SumFrom(diffs: seq<int>, start: nat, n: nat): int
    requires |diffs| > 0
  {
    if n == 0 then 0 else SumFrom(diffs, start, n - 1) + Wrapped(diffs, start + n - 1)
  }

  /** The sum is over n positions from `start` on, around the end of the circle if need be. */
  lemma SumTells(diffs: seq<int>, start: nat, n: nat)
    requires |diffs| > 0 && n > 0
    ensures SumFrom(diffs, start, 1) == diffs[start % |diffs|]
    ensures SumFrom(diffs, start, n + 1) == SumFrom(diffs, start, n) + diffs[(start + n) % |diffs|]
  {
    assert SumFrom(diffs, start, 0) == 0;
  }

  /** Some circular window of n consecutive pixels is all above or all below. */
  ghost predicate HasWindow(diffs: seq<int>, n: nat)
    requires |diffs| > 0
  {
    exists start: nat :: start < |diffs| && Completes(diffs, start, n)
  }

  /** r is the signed sum over the first window from the start on, or 0 if there is none. */
  ghost predicate IsScore(diffs: seq<int>, n: nat, r: int)
    requires |diffs| > 0
  {
    if HasWindow(diffs, n)
    then exists start: nat :: start < |diffs| && Completes(diffs, start, n) && r == SumFrom(diffs, start, n)
           && forall earlier: nat :: earlier < start ==> !Completes(diffs, earlier, n)
    else r == 0
  }

  lemma {:induction false} RunSum(diffs: seq<int>, start: nat, n: nat, above: bool)
    requires |diffs| > 0 && n > 0 && IsRun(diffs, start, n, above)
    ensures if above then SumFrom(diffs, start, n) > 0 else SumFrom(diffs, start, n) < 0
  {
    if n > 1 {
      RunSum(diffs, start, n - 1, above);
    }
  }

  /** Nonzero exactly when a window exists; the sign tells which kind it is. */
  lemma ScoreTells(diffs: seq<int>, n: nat, r: int)
    requires |diffs| > 0 && n > 0 && IsScore(diffs, n, r)
    ensures r != 0 <==> HasWindow(diffs, n)
    ensures r > 0 ==> exists start: nat :: start < |diffs| && IsRun(diffs, start, n, true)
    ensures r < 0 ==> exists start: nat :: start < |diffs| && IsRun(diffs, start, n, false)
  {
    if HasWindow(diffs, n) {
      var start: nat :| start < |diffs| && Completes(diffs, start, n) && r == SumFrom(diffs, start, n);
      if IsRun(diffs, start, n, true) {
        RunSum(diffs, start, n, true);
      } else {
        RunSum(diffs, start, n, false);
      }
    }
  }

  /** Length of the run that ends just before position i. */
  function RunBefore(diffs: seq<int>, i: nat, above: bool): (n: nat)
    requires |diffs| > 0
    ensures n <= i
  {
    if i > 0 && Passes(Wrapped(diffs, i - 1), above) then RunBefore(diffs, i - 1, above) + 1 else 0
  }

  lemma {:induction false} RunBeforeIsRun(diffs: seq<int>, i: nat, above: bool)
    requires |diffs| > 0
    ensures IsRun(diffs, i - RunBefore(diffs, i, above), RunBefore(diffs, i, above), above)
    ensures RunBefore(diffs, i, above) < i ==> !Passes(Wrapped(diffs, i - RunBefore(diffs, i, above) - 1), above)
  {
    hide Passes, Wrapped;
    if RunBefore(diffs, i, above) > 0 {
      RunBeforeIsRun(diffs, i - 1, above);
    }
  }

  /** A run that reaches up to i is no longer than the one counted there. */
  lemma RunBeforeIsLongest(diffs: seq<int>, i: nat, start: nat, n: nat, above: bool)
    requires |diffs| > 0 && start <= i <= start + n && IsRun(diffs, start, n, above)
    ensures i - start <= RunBefore(diffs, i, above)
  {
    RunBeforeIsRun(diffs, i, above);
  }

  function Max(a: int, b: int): int {
    if a > b then a else b
  }

  /** What the test reads: differences of the circle's pixels to the centre. */
  function Differences(pixels: seq<Byte>, center: nat, offsets: seq<int>): (r: seq<int>)
    requires center < |pixels|
    requires forall k :: 0 <= k < |offsets| ==> 0 <= center + offsets[k] < |pixels|
    ensures |r| == |offsets|
  {
    seq(|offsets|, k requires 0 <= k < |offsets| =>
      pixels[center + offsets[k]] as int - pixels[center] as int)
  }

  /** One running count: the length and sum of the run that ends at the current position. */
  ghost predicate Counts(diffs: seq<int>, i: nat, above: bool, num: int, sum: int)
    requires |diffs| > 0
  {
    num == RunBefore(diffs, i, above) && sum == SumFrom(diffs, i - num, num)
  }

  /** What the two counters do at one position. */
  lemma CountStep(diffs: seq<int>, i: nat, above: bool, num: int, sum: int)
    requires |diffs| > 0 && Counts(diffs, i, above, num, sum)
    ensures if Passes(Wrapped(diffs, i), above) then Counts(diffs, i + 1, above, num + 1, sum + Wrapped(diffs, i))
            else Counts(diffs, i + 1, above, 0, 0)
  {
  }

  /** No window of n pixels ends before position i. */
  ghost predicate NoneBefore(diffs: seq<int>, n: nat, i: nat)
    requires |diffs| > 0
  {
    forall start: nat :: start + n <= i ==> !Completes(diffs, start, n)
  }

  method TestCircle(pixels: seq<Byte>, center: nat, offsets: seq<int>, threshold: nat) returns (score: int)
    requires 1 <= threshold <= |offsets| && center < |pixels|
    requires forall k :: 0 <= k < |offsets| ==> 0 <= center + offsets[k] < |pixels|
    ensures IsScore(Differences(pixels, center, offsets), threshold, score)
  {
    hide IsScore, Counts, NoneBefore, Wrapped, Differences;
    var circlePerimeter := |offsets|;
    var centerValue := pixels[center];
    var numTotal := circlePerimeter + threshold - 1;
    var numAbove, aboveDiff, numBelow, belowDiff := 0, 0, 0, 0;
    var minimumByNow := threshold - numTotal + 1;
    ghost var diffs := Differences(pixels, center, offsets);
    Start(diffs, threshold);
    for i := 0 to numTotal
      invariant Counts(diffs, i, true, numAbove, aboveDiff) && Counts(diffs, i, false, numBelow, belowDiff)
      invariant numAbove < threshold && numBelow < threshold
      invariant minimumByNow == i + 2 - circlePerimeter
      invariant NoneBefore(diffs, threshold, i)
    {
      var perimIndex := if i < circlePerimeter then i else i - circlePerimeter;
      var difference := pixels[center + offsets[perimIndex]] as int - centerValue as int;
      ReadsWrapped(pixels, center, offsets, i, perimIndex);
      CountStep(diffs, i, true, numAbove, aboveDiff);
      CountStep(diffs, i, false, numBelow, belowDiff);
      if difference > FAST_DIFF_AMOUNT {
        aboveDiff, numAbove := aboveDiff + difference, numAbove + 1;
        numBelow, belowDiff := 0, 0;
        if numAbove >= threshold {
          FirstWindow(diffs, threshold, i, true, aboveDiff);
          return aboveDiff;
        }
      } else if difference < -FAST_DIFF_AMOUNT {
        belowDiff, numBelow := belowDiff + difference, numBelow + 1;
        numAbove, aboveDiff := 0, 0;
        if numBelow >= threshold {
          FirstWindow(diffs, threshold, i, false, belowDiff);
          return belowDiff;
        }
      } else {
        numAbove, numBelow, aboveDiff, belowDiff := 0, 0, 0, 0;
      }
      NoWindowYet(diffs, threshold, i, numAbove, aboveDiff, numBelow, belowDiff);
      if Max(numAbove, numBelow) < minimumByNow {
        AbortIsSafe(diffs, threshold, i, numAbove, aboveDiff, numBelow, belowDiff);
        return 0;
      }
      minimumByNow := minimumByNow + 1;
    }
    NothingFound(diffs, threshold);
    return 0;
  }

  lemma ReadsWrapped(pixels: seq<Byte>, center: nat, offsets: seq<int>, i: nat, perimIndex: nat)
    requires center < |pixels| && forall k :: 0 <= k < |offsets| ==> 0 <= center + offsets[k] < |pixels|
    requires perimIndex < |offsets| && (i == perimIndex || i == perimIndex + |offsets|)
    ensures Wrapped(Differences(pixels, center, offsets), i)
         == pixels[center + offsets[perimIndex]] as int - pixels[center] as int
  {
    DivideIs(i, |offsets|, if i == perimIndex then 0 else 1);
  }

  lemma Start(diffs: seq<int>, n: nat)
    requires |diffs| > 0 && n > 0
    ensures Counts(diffs, 0, true, 0, 0) && Counts(diffs, 0, false, 0, 0) && NoneBefore(diffs, n, 0)
  {
  }

  /** A run that reaches the threshold at position i is the first completed window. */
  lemma FirstWindow(diffs: seq<int>, n: nat, i: nat, above: bool, sum: int)
    requires |diffs| >= n >= 1 && i < |diffs| + n - 1
    requires Counts(diffs, i + 1, above, n, sum) && NoneBefore(diffs, n, i)
    ensures IsScore(diffs, n, sum)
  {
    RunBeforeIsRun(diffs, i + 1, above);
    assert Completes(diffs, i + 1 - n, n);
  }

  lemma NoWindowYet(diffs: seq<int>, n: nat, i: nat, numAbove: int, aboveDiff: int, numBelow: int, belowDiff: int)
    requires |diffs| > 0 && n >= 1 && NoneBefore(diffs, n, i)
    requires Counts(diffs, i + 1, true, numAbove, aboveDiff) && Counts(diffs, i + 1, false, numBelow, belowDiff)
    requires numAbove < n && numBelow < n
    ensures NoneBefore(diffs, n, i + 1)
  {
    forall start: nat | start + n == i + 1 ensures !Completes(diffs, start, n) {
      if IsRun(diffs, start, n, true) {
        RunBeforeIsLongest(diffs, i + 1, start, n, true);
      } else if IsRun(diffs, start, n, false) {
        RunBeforeIsLongest(diffs, i + 1, start, n, false);
      }
    }
  }

  /** If the current run is too short for what is left of the walk, there is no window at all. */
  lemma AbortIsSafe(diffs: seq<int>, n: nat, i: nat, numAbove: int, aboveDiff: int, numBelow: int, belowDiff: int)
    requires 1 <= n <= |diffs| && NoneBefore(diffs, n, i + 1)
    requires Counts(diffs, i + 1, true, numAbove, aboveDiff) && Counts(diffs, i + 1, false, numBelow, belowDiff)
    requires Max(numAbove, numBelow) < i + 2 - |diffs|
    ensures IsScore(diffs, n, 0)
  {
    hide Passes, Wrapped, RunBefore, IsRun, SumFrom;
    forall start: nat, above: bool | start < |diffs| && i + 1 < start + n ensures !IsRun(diffs, start, n, above) {
      if IsRun(diffs, start, n, above) {
        RunBeforeIsLongest(diffs, i + 1, start, n, above);
      }
    }
  }

  lemma NothingFound(diffs: seq<int>, n: nat)
    requires 1 <= n <= |diffs| && NoneBefore(diffs, n, |diffs| + n - 1)
    ensures IsScore(diffs, n, 0)
  {
  }

  // ---------------------------------------------------------------------------------------
  // The two circles around a pixel.

  datatype Frame = Frame(width: nat, height: nat, pixels: seq<Byte>) {
    predicate Valid() {
      |pixels| == width * height
    }

    predicate Inside(x: int, y: int) {
      0 <= x < width && 0 <= y < height
    }

    lemma IndexInRange(x: int, y: int)
      requires Valid() && Inside(x, y)
      ensures 0 <= y * width + x < |pixels|
    {
      NextMultiple(y, height, width);
      NonNegativeProduct(y, width);
    }

    function At(x: int, y: int): Byte
      requires Valid() && Inside(x, y)
    {
      IndexInRange(x, y);
      pixels[y * width + x]
    }
  }

  const SHORT_CIRCLE: seq<(int, int)> := [(-3, 0), (0, -3), (3, 0), (0, 3)]
  const SHORT_THRESHOLD: nat := 3
  const FULL_CIRCLE: seq<(int, int)> :=
    [(-1, -3), (0, -3), (1, -3), (2, -2), (3, -1), (3, 0), (3, 1), (2, 2),
     (1, 3), (0, 3), (-1, 3), (-2, 2), (-3, 1), (-3, 0), (-3, -1), (-2, -2)]
  const FULL_THRESHOLD: nat := 12

  predicate FarFromEdge(f: Frame, x: int, y: int) {
    3 <= x < f.width - 3 && 3 <= y < f.height - 3
  }

  predicate IsCircle(circle: seq<(int, int)>) {
    circle == SHORT_CIRCLE || circle == FULL_CIRCLE
  }

  lemma CircleWithinThree(circle: seq<(int, int)>, k: nat)
    requires IsCircle(circle) && k < |circle|
    ensures -3 <= circle[k].0 <= 3 && -3 <= circle[k].1 <= 3
  {
  }

  function SquaredLength(offset: (int, int)): int {
    offset.0 * offset.0 + offset.1 * offset.1
  }

  /** Each pixel of the circle is at a squared distance of 8 to 10 ... */
  lemma FullCircleIs(k: nat)
    requires k < 16
    ensures |FULL_CIRCLE| == 16 && 8 <= SquaredLength(FULL_CIRCLE[k]) <= 10
  {
    var (dx, dy) := FULL_CIRCLE[k];
    CircleWithinThree(FULL_CIRCLE, k);
    SmallSquare(dx);
    SmallSquare(dy);
  }

  /** ... and a neighbour of the one before. */
  lemma FullCircleIsConnected(k: nat)
    requires k < 16
    ensures var (here, before) := (FULL_CIRCLE[k], FULL_CIRCLE[if k == 0 then 15 else k - 1]);
      here != before && -1 <= here.0 - before.0 <= 1 && -1 <= here.1 - before.1 <= 1
  {
  }

  lemma SmallSquare(a: int)
    requires -3 <= a <= 3
    ensures a * a == if a == 0 then 0 else if -1 <= a <= 1 then 1 else if -2 <= a <= 2 then 4 else 9
  {
  }

  lemma LargeSquare(a: int)
    ensures a * a >= 0 && (a < -3 || a > 3 ==> a * a > 10)
  {
    if a > 3 {
      ProductMonotone(4, a, a);
    } else if a < -3 {
      ProductMonotone(4, -a, -a);
      assert (-a) * (-a) == a * a;
    }
  }

  /** Every pixel at such a distance is on the circle. */
  lemma FullCircleHasAll(dx: int, dy: int) returns (k: nat)
    requires 8 <= SquaredLength((dx, dy)) <= 10
    ensures k < 16 && FULL_CIRCLE[k] == (dx, dy)
  {
    LargeSquare(dx);
    LargeSquare(dy);
    SmallSquare(dx);
    SmallSquare(dy);
    k := if dx == 3 then 5 + dy
         else if dx == -3 then 13 - dy
         else if dy == -3 then 1 + dx
         else if dy == 3 then 9 - dx
         else if dx == 2 then (if dy == -2 then 3 else 7)
         else (if dy == 2 then 11 else 15);
  }

  /** The compass points at distance 3, each a quarter turn after the one before. */
  lemma ShortCircleIs(k: nat)
    requires k < 4
    ensures |SHORT_CIRCLE| == 4 && SquaredLength(SHORT_CIRCLE[k]) == 9
    ensures var (here, before) := (SHORT_CIRCLE[k], SHORT_CIRCLE[(k + 3) % 4]); here == (-before.1, before.0)
  {
  }

  /** Differences on a circle, by coordinates. */
  function Around(f: Frame, x: int, y: int, circle: seq<(int, int)>): (r: seq<int>)
    requires f.Valid() && FarFromEdge(f, x, y) && IsCircle(circle)
    ensures |r| == |circle|
  {
    seq(|circle|, k requires 0 <= k < |circle| =>
      CircleWithinThree(circle, k); f.At(x + circle[k].0, y + circle[k].1) as int - f.At(x, y) as int)
  }

  /** A corner: 12 consecutive of the 16 circle pixels stand out the same way. */
  ghost predicate Fired(f: Frame, x: int, y: int)
    requires f.Valid() && FarFromEdge(f, x, y)
  {
    HasWindow(Around(f, x, y, FULL_CIRCLE), FULL_THRESHOLD)
  }

  /** How much brighter the k-th circle pixel is than the centre. */
  function Brighter(f: Frame, x: int, y: int, k: nat): int
    requires f.Valid() && FarFromEdge(f, x, y)
  {
    var (dx, dy) := FULL_CIRCLE[k % 16];
    CircleWithinThree(FULL_CIRCLE, k % 16);
    f.At(x + dx, y + dy) as int - f.At(x, y) as int
  }

  /** Twelve circle pixels from `start` on are all more than 10 brighter, or all more than 10 darker. */
  predicate StandsOut(f: Frame, x: int, y: int, start: nat, brighter: bool)
    requires f.Valid() && FarFromEdge(f, x, y)
  {
    forall k :: start <= k < start + 12 ==>
      if brighter then Brighter(f, x, y, k) > 10 else Brighter(f, x, y, k) < -10
  }

  /** A corner, written out. */
  lemma FiredTells(f: Frame, x: int, y: int)
    requires f.Valid() && FarFromEdge(f, x, y)
    ensures Fired(f, x, y) <==> exists start: nat, brighter: bool :: start < 16 && StandsOut(f, x, y, start, brighter)
  {
    var diffs := Around(f, x, y, FULL_CIRCLE);
    hide StandsOut, IsRun, Around;
    forall start: nat, brighter: bool
      ensures StandsOut(f, x, y, start, brighter) <==> IsRun(diffs, start, 12, brighter)
    {
      RunTells(f, x, y, start, brighter);
    }
    FiredMeans(f, x, y);
    hide Fired;
    if start: nat, brighter: bool :| start < 16 && StandsOut(f, x, y, start, brighter) {
      assert IsRun(diffs, start, 12, brighter);
    }
    if start: nat, brighter: bool :| start < 16 && IsRun(diffs, start, 12, brighter) {
      assert StandsOut(f, x, y, start, brighter);
    }
  }

  lemma FiredMeans(f: Frame, x: int, y: int)
    requires f.Valid() && FarFromEdge(f, x, y)
    ensures var diffs := Around(f, x, y, FULL_CIRCLE);
      Fired(f, x, y) <==> exists start: nat, brighter: bool :: start < 16 && IsRun(diffs, start, 12, brighter)
  {
    hide IsRun, Around;
    var diffs := Around(f, x, y, FULL_CIRCLE);
    if start: nat, brighter: bool :| start < 16 && IsRun(diffs, start, 12, brighter) {
      assert Completes(diffs, start, 12);
    }
    if HasWindow(diffs, 12) {
      var start: nat :| start < |diffs| && Completes(diffs, start, 12);
      assert IsRun(diffs, start, 12, true) || IsRun(diffs, start, 12, false);
    }
  }

  lemma RunTells(f: Frame, x: int, y: int, start: nat, brighter: bool)
    requires f.Valid() && FarFromEdge(f, x, y)
    ensures StandsOut(f, x, y, start, brighter) <==> IsRun(Around(f, x, y, FULL_CIRCLE), start, 12, brighter)
  {
    var diffs := Around(f, x, y, FULL_CIRCLE);
    forall k: nat ensures Wrapped(diffs, k) == Brighter(f, x, y, k) {
      WrappedIs(f, x, y, k);
    }
    hide Around, Wrapped, Brighter;
  }

  lemma WrappedIs(f: Frame, x: int, y: int, k: nat)
    requires f.Valid() && FarFromEdge(f, x, y)
    ensures Wrapped(Around(f, x, y, FULL_CIRCLE), k) == Brighter(f, x, y, k)
  {
    CircleWithinThree(FULL_CIRCLE, k % 16);
  }

  /** The compass pixels are every fourth pixel of the full circle. */
  lemma CompassPixels(f: Frame, x: int, y: int, k: nat)
    requires f.Valid() && FarFromEdge(f, x, y) && k < 4
    ensures Around(f, x, y, SHORT_CIRCLE)[k] == Around(f, x, y, FULL_CIRCLE)[(13 + 4 * k) % 16]
  {
    assert SHORT_CIRCLE[k] == FULL_CIRCLE[(13 + 4 * k) % 16];
  }

  /** The quick test on the four compass pixels never rejects a corner. */
  lemma PrefilterIsLossless(f: Frame, x: int, y: int)
    requires f.Valid() && FarFromEdge(f, x, y) && Fired(f, x, y)
    ensures HasWindow(Around(f, x, y, SHORT_CIRCLE), SHORT_THRESHOLD)
  {
    hide Around;
    var full, short := Around(f, x, y, FULL_CIRCLE), Around(f, x, y, SHORT_CIRCLE);
    var start: nat :| start < 16 && Completes(full, start, 12);
    forall k | 0 <= k < 4 ensures short[k] == full[(13 + 4 * k) % 16] {
      CompassPixels(f, x, y, k);
    }
    CompassRun(full, short, start, IsRun(full, start, 12, true));
  }

  /** Twelve of sixteen pixels in a row cover three compass pixels in a row. */
  lemma CompassRun(full: seq<int>, short: seq<int>, start: nat, above: bool)
    requires |full| == 16 && |short| == 4 && start < 16 && IsRun(full, start, 12, above)
    requires forall k :: 0 <= k < 4 ==> short[k] == full[(13 + 4 * k) % 16]
    ensures HasWindow(short, SHORT_THRESHOLD)
  {
    hide Passes;
    var first := start + (17 - start) % 4;
    var k := (first + 3) / 4 % 4;
    forall j | k <= j < k + 3 ensures Passes(Wrapped(short, j), above) {
      CompassPosition(start, first, k, j);
      assert Passes(Wrapped(full, first + 4 * (j - k)), above);
    }
    assert IsRun(short, k, SHORT_THRESHOLD, above);
    assert Completes(short, k, SHORT_THRESHOLD);
  }

  lemma CompassPosition(start: nat, first: nat, k: nat, j: nat)
    requires start < 16 && first == start + (17 - start) % 4 && k == (first + 3) / 4 % 4 && k <= j < k + 3
    ensures start <= first + 4 * (j - k) < start + 12
    ensures (first + 4 * (j - k)) % 16 == (13 + 4 * (j % 4)) % 16
  {
  }

  // ---------------------------------------------------------------------------------------
  // Quadrants.

  datatype Region = Region(startX: int, startY: int, endX: int, endY: int) {
    predicate Contains(x: int, y: int) {
      startX <= x < endX && startY <= y < endY
    }
  }

  function Quadrant(f: Frame, quadrant: nat): Region {
    var w := f.width / 2 - FAST_BORDER_BUFFER;
    var h := f.height / 2 - FAST_BORDER_BUFFER;
    var startX := FAST_BORDER_BUFFER + (if quadrant % 2 == 0 then 0 else w);
    var startY := FAST_BORDER_BUFFER + (if quadrant < 2 then 0 else h);
    Region(startX, startY, startX + w, startY + h)
  }

  /** Left or right half and upper or lower half of the frame, 10 pixels in from its edge. */
  lemma QuadrantIs(f: Frame, quadrant: nat, x: int, y: int)
    requires quadrant < 4
    ensures Quadrant(f, quadrant).Contains(x, y) <==>
              && (if quadrant == 0 || quadrant == 2 then 10 <= x < f.width / 2
                  else f.width / 2 <= x < f.width / 2 * 2 - 10)
              && (if quadrant == 0 || quadrant == 1 then 10 <= y < f.height / 2
                  else f.height / 2 <= y < f.height / 2 * 2 - 10)
  {
  }

  /** The part of the frame that is ever tested. */
  function Bordered(f: Frame): Region {
    var w := f.width / 2 - FAST_BORDER_BUFFER;
    var h := f.height / 2 - FAST_BORDER_BUFFER;
    Region(FAST_BORDER_BUFFER, FAST_BORDER_BUFFER, FAST_BORDER_BUFFER + 2 * w, FAST_BORDER_BUFFER + 2 * h)
  }

  /** The i-th call after one that starts with quadrant `first` tests pixel (x, y). */
  predicate TestedBy(f: Frame, first: nat, i: nat, x: int, y: int) {
    Quadrant(f, (first + i) % 4).Contains(x, y)
  }

  /** Any four consecutive calls test each pixel of the bordered region exactly once, and no other. */
  lemma FourCallsCoverOnce(f: Frame, first: nat, x: int, y: int)
    requires first < 4
    ensures Bordered(f).Contains(x, y) <==> exists i :: 0 <= i < 4 && TestedBy(f, first, i, x, y)
    ensures forall i, j :: 0 <= i < j < 4 ==> !(TestedBy(f, first, i, x, y) && TestedBy(f, first, j, x, y))
  {
    if Bordered(f).Contains(x, y) {
      var q := (if x < f.width / 2 then 0 else 1) + (if y < f.height / 2 then 0 else 2);
      var i := (q + 4 - first) % 4;
      assert (first + i) % 4 == q;
      assert TestedBy(f, first, i, x, y);
    }
    forall i, j | 0 <= i < j < 4 ensures !(TestedBy(f, first, i, x, y) && TestedBy(f, first, j, x, y)) {
      QuadrantsDisjoint(f, (first + i) % 4, (first + j) % 4, x, y);
    }
  }

  lemma QuadrantsDisjoint(f: Frame, p: nat, q: nat, x: int, y: int)
    requires p < 4 && q < 4 && p != q
    ensures !(Quadrant(f, p).Contains(x, y) && Quadrant(f, q).Contains(x, y))
  {
  }

  lemma QuadrantFarFromEdge(f: Frame, quadrant: nat, x: int, y: int)
    requires quadrant < 4 && Quadrant(f, quadrant).Contains(x, y)
    ensures FarFromEdge(f, x, y) && 10 <= x < f.width - 10 && 10 <= y < f.height - 10
  {
  }

  // ---------------------------------------------------------------------------------------
  // The score map.

  /** 1 if (x, y) is a corner of the region, else 0. */
  ghost function Corner(f: Frame, r: Region, x: int, y: int): nat
    requires f.Valid()
  {
    if r.Contains(x, y) && FarFromEdge(f, x, y) && Fired(f, x, y) then 1 else 0
  }

  ghost function Score(f: Frame, r: Region, x: int, y: int): nat
    requires f.Valid()
  {
    5 * Corner(f, r, x, y)
    + Corner(f, r, x - 1, y) + Corner(f, r, x + 1, y) + Corner(f, r, x, y - 1) + Corner(f, r, x, y + 1)
  }

  /** A pixel reaches the threshold exactly when it and at least three neighbours are corners. */
  lemma ScoreThreshold(f: Frame, r: Region, x: int, y: int)
    requires f.Valid()
    ensures Score(f, r, x, y) < 256
    ensures Score(f, r, x, y) >= MIN_NUM_CONNECTED <==>
              Corner(f, r, x, y) == 1
              && Corner(f, r, x - 1, y) + Corner(f, r, x + 1, y) + Corner(f, r, x, y - 1) + Corner(f, r, x, y + 1) >= 3
  {
  }

  /** The part of a region scanned before pixel (x, y) is reached. */
  ghost function ScannedCorner(f: Frame, r: Region, atX: int, atY: int, x: int, y: int): nat
    requires f.Valid()
  {
    if y < atY || (y == atY && x < atX) then Corner(f, r, x, y) else 0
  }

  ghost function ScannedScore(f: Frame, r: Region, atX: int, atY: int, x: int, y: int): (score: nat)
    requires f.Valid()
    ensures score <= 9
  {
    5 * ScannedCorner(f, r, atX, atY, x, y)
    + ScannedCorner(f, r, atX, atY, x - 1, y) + ScannedCorner(f, r, atX, atY, x + 1, y)
    + ScannedCorner(f, r, atX, atY, x, y - 1) + ScannedCorner(f, r, atX, atY, x, y + 1)
  }

  ghost predicate Scanned(f: Frame, r: Region, atX: int, atY: int, scratch: array2<Byte>)
    requires f.Valid() && scratch.Length0 == f.height && scratch.Length1 == f.width
    reads scratch
  {
    forall x, y :: f.Inside(x, y) ==> scratch[y, x] == ScannedScore(f, r, atX, atY, x, y)
  }

  function OffsetsFor(f: Frame, circle: seq<(int, int)>): (r: seq<int>)
    ensures |r| == |circle|
  {
    seq(|circle|, k requires 0 <= k < |circle| => circle[k].0 + circle[k].1 * f.width)
  }

  /** Flat offsets from the centre reach the circle's pixels. */
  lemma OffsetsReachCircle(f: Frame, x: int, y: int, circle: seq<(int, int)>)
    requires f.Valid() && FarFromEdge(f, x, y) && IsCircle(circle)
    ensures var center := y * f.width + x; var offsets := OffsetsFor(f, circle);
      && 0 <= center < |f.pixels|
      && (forall k :: 0 <= k < |offsets| ==> 0 <= center + offsets[k] < |f.pixels|)
      && Differences(f.pixels, center, offsets) == Around(f, x, y, circle)
  {
    var center, offsets := y * f.width + x, OffsetsFor(f, circle);
    OffsetReaches(f, x, y, 0, 0);
    forall k | 0 <= k < |offsets|
      ensures 0 <= center + offsets[k] < |f.pixels|
      ensures center + offsets[k] == (y + circle[k].1) * f.width + (x + circle[k].0)
    {
      CircleWithinThree(circle, k);
      OffsetReaches(f, x, y, circle[k].0, circle[k].1);
    }
  }

  lemma OffsetReaches(f: Frame, x: int, y: int, dx: int, dy: int)
    requires f.Valid() && FarFromEdge(f, x, y) && -3 <= dx <= 3 && -3 <= dy <= 3
    ensures var index := y * f.width + x + (dx + dy * f.width);
      0 <= index < |f.pixels| && index == (y + dy) * f.width + (x + dx)
  {
    Distribute(y, dy, f.width);
    f.IndexInRange(x + dx, y + dy);
  }

  /** Both tests on one pixel: the short one first, the full one only if it passes. */
  method TestPixel(f: Frame, x: int, y: int, shortOffsets: seq<int>, fullOffsets: seq<int>) returns (fired: bool)
    requires f.Valid() && FarFromEdge(f, x, y)
    requires shortOffsets == OffsetsFor(f, SHORT_CIRCLE) && fullOffsets == OffsetsFor(f, FULL_CIRCLE)
    ensures fired <==> Fired(f, x, y)
  {
    hide Around, Differences, OffsetsFor, Fired, IsScore, FarFromEdge;
    OffsetsReachCircle(f, x, y, SHORT_CIRCLE);
    OffsetsReachCircle(f, x, y, FULL_CIRCLE);
    var shortScore := TestCircle(f.pixels, y * f.width + x, shortOffsets, SHORT_THRESHOLD);
    if shortScore != 0 {
      var fastScore := TestCircle(f.pixels, y * f.width + x, fullOffsets, FULL_THRESHOLD);
      FullScoreTells(f, x, y, fastScore);
      fired := fastScore != 0;
    } else {
      ShortScoreTells(f, x, y);
      fired := false;
    }
  }

  lemma FullScoreTells(f: Frame, x: int, y: int, score: int)
    requires f.Valid() && FarFromEdge(f, x, y)
    requires IsScore(Around(f, x, y, FULL_CIRCLE), FULL_THRESHOLD, score)
    ensures score != 0 <==> Fired(f, x, y)
  {
    hide Around, IsScore, HasWindow;
    ScoreTells(Around(f, x, y, FULL_CIRCLE), FULL_THRESHOLD, score);
  }

  lemma ShortScoreTells(f: Frame, x: int, y: int)
    requires f.Valid() && FarFromEdge(f, x, y)
    requires IsScore(Around(f, x, y, SHORT_CIRCLE), SHORT_THRESHOLD, 0)
    ensures !Fired(f, x, y)
  {
    hide Around, IsScore, HasWindow;
    ScoreTells(Around(f, x, y, SHORT_CIRCLE), SHORT_THRESHOLD, 0);
    if Fired(f, x, y) {
      PrefilterIsLossless(f, x, y);
    }
  }

  function Add(b: Byte, n: nat): Byte {
    (b + n) % 256
  }

  /** Raises the scores around a corner, wrapping like 8-bit counters. */
  method Scatter(scratch: array2<Byte>, x: nat, y: nat)
    requires 1 <= y < scratch.Length0 - 1 && 1 <= x < scratch.Length1 - 1
    modifies scratch
    ensures forall i, j :: 0 <= i < scratch.Length1 && 0 <= j < scratch.Length0 ==>
              scratch[j, i] == Add(old(scratch[j, i]), Share(i - x, j - y))
  {
    scratch[y, x] := Add(scratch[y, x], 5);
    scratch[y, x - 1] := Add(scratch[y, x - 1], 1);
    scratch[y, x + 1] := Add(scratch[y, x + 1], 1);
    scratch[y - 1, x] := Add(scratch[y - 1, x], 1);
    scratch[y + 1, x] := Add(scratch[y + 1, x], 1);
  }

  /** What a corner adds to a pixel at the given displacement. */
  function Share(dx: int, dy: int): nat {
    if dx == 0 && dy == 0 then 5
    else if (dy == 0 && (dx == 1 || dx == -1)) || (dx == 0 && (dy == 1 || dy == -1)) then 1
    else 0
  }

  lemma ScanStep(f: Frame, r: Region, atX: int, atY: int, x: int, y: int)
    requires f.Valid()
    ensures ScannedScore(f, r, atX + 1, atY, x, y)
         == ScannedScore(f, r, atX, atY, x, y) + Share(x - atX, y - atY) * Corner(f, r, atX, atY)
  {
    hide Corner;
  }

  /** The first pass: clears the map, then scans one quadrant. */
  method FirstPass(f: Frame, quadrant: nat, scratch: array2<Byte>)
    requires f.Valid() && quadrant < 4
    requires scratch.Length0 == f.height && scratch.Length1 == f.width
    modifies scratch
    ensures forall x, y :: f.Inside(x, y) ==> scratch[y, x] == Score(f, Quadrant(f, quadrant), x, y)
  {
    hide Fired, OffsetsFor, ScannedScore, Score, Quadrant;
    var shortOffsets, fullOffsets := OffsetsFor(f, SHORT_CIRCLE), OffsetsFor(f, FULL_CIRCLE);
    forall x, y | 0 <= x < f.width && 0 <= y < f.height {
      scratch[y, x] := 0;
    }
    var r := Quadrant(f, quadrant);
    forall x, y | f.Inside(x, y) ensures ScannedScore(f, r, r.startX, r.startY, x, y) == 0 {
      NothingScanned(f, r, x, y);
    }
    var y := r.startY;
    while y < r.endY
      invariant r.startY <= y && (r.startY <= r.endY ==> y <= r.endY)
      invariant Scanned(f, r, r.startX, y, scratch)
    {
      ScanRow(f, quadrant, r, y, shortOffsets, fullOffsets, scratch);
      y := y + 1;
    }
    forall i, j | f.Inside(i, j) ensures scratch[j, i] == Score(f, r, i, j) {
      EverythingScanned(f, r, y, i, j);
    }
  }

  method ScanRow(f: Frame, quadrant: nat, r: Region, y: int,
                 shortOffsets: seq<int>, fullOffsets: seq<int>, scratch: array2<Byte>)
    requires f.Valid() && quadrant < 4 && r == Quadrant(f, quadrant) && r.startY <= y < r.endY
    requires scratch.Length0 == f.height && scratch.Length1 == f.width
    requires shortOffsets == OffsetsFor(f, SHORT_CIRCLE) && fullOffsets == OffsetsFor(f, FULL_CIRCLE)
    requires Scanned(f, r, r.startX, y, scratch)
    modifies scratch
    ensures Scanned(f, r, r.startX, y + 1, scratch)
  {
    hide Fired, OffsetsFor, ScannedScore, Share, Quadrant;
    var x := r.startX;
    while x < r.endX
      invariant r.startX <= x && (r.startX <= r.endX ==> x <= r.endX)
      invariant Scanned(f, r, x, y, scratch)
    {
      QuadrantFarFromEdge(f, quadrant, x, y);
      var fired := TestPixel(f, x, y, shortOffsets, fullOffsets);
      if fired {
        Scatter(scratch, x, y);
      }
      forall i, j | f.Inside(i, j) ensures scratch[j, i] == ScannedScore(f, r, x + 1, y, i, j) {
        ScanStep(f, r, x, y, i, j);
      }
      x := x + 1;
    }
    forall i, j | f.Inside(i, j) ensures scratch[j, i] == ScannedScore(f, r, r.startX, y + 1, i, j) {
      RowScanned(f, r, x, y, i, j);
    }
  }

  lemma NothingScanned(f: Frame, r: Region, x: int, y: int)
    requires f.Valid()
    ensures ScannedScore(f, r, r.startX, r.startY, x, y) == 0
  {
    hide Fired;
  }

  lemma RowScanned(f: Frame, r: Region, atX: int, atY: int, x: int, y: int)
    requires f.Valid() && atX >= r.endX && atX >= r.startX
    ensures ScannedScore(f, r, atX, atY, x, y) == ScannedScore(f, r, r.startX, atY + 1, x, y)
  {
    hide Fired;
  }

  lemma EverythingScanned(f: Frame, r: Region, atY: int, x: int, y: int)
    requires f.Valid() && atY >= r.endY
    ensures ScannedScore(f, r, r.startX, atY, x, y) == Score(f, r, x, y)
  {
    hide Fired;
  }
}
