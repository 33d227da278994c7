/**
 The motion a box undergoes between two frames, estimated from keypoint correspondences
 (frame_pair.cc).  The methods work on the two buffers AdjustBox keeps between calls; their
 specifications do not mention what those buffers held before.
 */
module FramePairs {
  import opened Geometry
  import opened WeightedMedian

  const MAX_KEYPOINTS: nat := 76
  const FLT_MAX: real := 340282346638528859811704183484516925440.0
  const OUT_OF_BOX_MULTIPLIER: real := 0.5
  const BASE_SCORE: real := 0.5
  const MIN_NUM_IN_RANGE: nat := 5

  datatype Keypoint = Keypoint(pos: Point, score: real, kind: nat)

  datatype FramePair = FramePair(
    startTime: int,
    endTime: int,
    keypoints1: seq<Keypoint>,
    keypoints2: seq<Keypoint>,
    found: seq<bool>)
  {
    /** The arrays have their fixed size. */
    predicate Shaped() {
      |keypoints1| == |keypoints2| == |found| == MAX_KEYPOINTS
    }

    /** Reuse for another pair of frames: keypoints stay behind, but none is found. */
    function Init(start: int, end: int): FramePair {
      this.(startTime := start, endTime := end, found := seq(MAX_KEYPOINTS, _ => false))
    }

    predicate NothingFound()
      requires Shaped()
    {
      forall i :: 0 <= i < MAX_KEYPOINTS ==> !found[i]
    }
  }

  // ---------------------------------------------------------------------------------------
  // Weights.

  function Max(a: real, b: real): real {
    if a > b then a else b
  }

  function Min(a: real, b: real): real {
    if a > b then b else a
  }

  /** Largest and smallest score of the found keypoints among the first n. */
  function ScoreRange(pair: FramePair, n: nat): (r: (real, real))
    requires pair.Shaped() && n <= MAX_KEYPOINTS
    ensures forall i :: 0 <= i < n && pair.found[i] ==> r.1 <= pair.keypoints1[i].score <= r.0
  {
    if n == 0 then (-FLT_MAX, FLT_MAX)
    else
      var r := ScoreRange(pair, n - 1);
      if pair.found[n - 1]
      then (Max(r.0, pair.keypoints1[n - 1].score), Min(r.1, pair.keypoints1[n - 1].score))
      else r
  }

  /** The position's share; a zero distance along one axis leaves the other axis to decide. */
  function DistanceScore(box: Box, p: Point): real
    requires box.Valid()
  {
    if box.Contains(p) then 1.0
    else
      var sqX := Square(box.Center().x - p.x);
      var sqY := Square(box.Center().y - p.y);
      var sqHalfWidth := Square(box.Width() / 2.0);
      var sqHalfHeight := Square(box.Height() / 2.0);
      OutsideIsAway(box, p);
      OUT_OF_BOX_MULTIPLIER *
      (if sqY == 0.0 then sqHalfWidth / sqX
       else if sqX == 0.0 then sqHalfHeight / sqY
       else Min(sqHalfHeight / sqY, sqHalfWidth / sqX))
  }

  lemma ProductPositive(a: real, b: real)
    requires a > 0.0 && b > 0.0
    ensures a * b > 0.0
  {
  }

  lemma SquareMonotone(a: real, b: real)
    requires 0.0 <= a < b
    ensures Square(a) < Square(b)
  {
    ProductPositive(b - a, b + a);
    assert (b - a) * (b + a) == b * b - a * a;
  }

  lemma SquareOfAbs(a: real, b: real)
    requires b > 0.0 && (a > b || a < -b)
    ensures Square(a) > Square(b) > 0.0
  {
    SquareMonotone(0.0, b);
    SquareMonotone(b, if a > 0.0 then a else -a);
    assert (-a) * (-a) == a * a;
  }

  lemma OutsideIsAway(box: Box, p: Point)
    requires box.Valid() && !box.Contains(p)
    ensures Square(box.Center().x - p.x) > Square(box.Width() / 2.0) > 0.0
         || Square(box.Center().y - p.y) > Square(box.Height() / 2.0) > 0.0
  {
    if p.x < box.left || p.x > box.right {
      SquareOfAbs(box.Center().x - p.x, box.Width() / 2.0);
    } else {
      SquareOfAbs(box.Center().y - p.y, box.Height() / 2.0);
    }
  }

  lemma MultipleOf(q: real, den: real)
    requires den > 0.0
    ensures q <= 0.0 ==> q * den <= 0.0
    ensures q < 0.0 ==> q * den < 0.0
    ensures q >= 1.0 ==> q * den >= den
    ensures q > 1.0 ==> q * den > den
  {
    assert (q - 1.0) * den == q * den - den;
  }

  lemma RatioInside(num: real, den: real)
    requires num > 0.0 && den > 0.0
    ensures num / den > 0.0
    ensures num < den ==> num / den < 1.0
  {
    var q := num / den;
    QuotientTimes(num, den, q);
    MultipleOf(q, den);
    if num < den && q >= 1.0 {
      assert false;
    }
  }

  lemma QuotientTimes(num: real, den: real, q: real)
    requires den > 0.0 && q == num / den
    ensures q * den == num
  {
  }

  lemma FractionOfRange(score: real, lo: real, hi: real) returns (q: real)
    requires lo <= score <= hi && lo < hi
    ensures q == (score - lo) / (hi - lo) && 0.0 <= q <= 1.0
  {
    q := (score - lo) / (hi - lo);
    QuotientTimes(score - lo, hi - lo, q);
    MultipleOf(q, hi - lo);
  }

  lemma SquarePositive(a: real)
    ensures Square(a) >= 0.0
    ensures a != 0.0 ==> Square(a) > 0.0
  {
    if a > 0.0 {
      SquareMonotone(0.0, a);
    } else if a < 0.0 {
      SquareMonotone(0.0, -a);
    }
  }

  /** Inside the box the share is 1; outside it lies strictly between 0 and one half. */
  lemma DistanceScoreRange(box: Box, p: Point)
    requires box.Valid()
    ensures box.Contains(p) ==> DistanceScore(box, p) == 1.0
    ensures !box.Contains(p) ==> 0.0 < DistanceScore(box, p) < OUT_OF_BOX_MULTIPLIER
  {
    if !box.Contains(p) {
      var sqX := Square(box.Center().x - p.x);
      var sqY := Square(box.Center().y - p.y);
      var sqHalfWidth := Square(box.Width() / 2.0);
      var sqHalfHeight := Square(box.Height() / 2.0);
      OutsideIsAway(box, p);
      SquarePositive(box.Center().x - p.x);
      SquarePositive(box.Center().y - p.y);
      SquarePositive(box.Width() / 2.0);
      SquarePositive(box.Height() / 2.0);
      if sqX != 0.0 {
        RatioInside(sqHalfWidth, sqX);
      }
      if sqY != 0.0 {
        RatioInside(sqHalfHeight, sqY);
      }
    }
  }

  function IntrinsicScore(score: real, range: (real, real)): real {
    if range.0 > range.1
    then ((score - range.1) / (range.0 - range.1)) * (1.0 - BASE_SCORE) + BASE_SCORE
    else 1.0
  }

  function Weight(pair: FramePair, box: Box, i: nat): real
    requires pair.Shaped() && box.Valid() && i < MAX_KEYPOINTS
  {
    if !pair.found[i] then 0.0
    else
      DistanceScore(box, pair.keypoints1[i].pos)
      * IntrinsicScore(pair.keypoints1[i].score, ScoreRange(pair, MAX_KEYPOINTS))
  }

  lemma ProductInUnit(d: real, s: real)
    requires 0.0 < d && BASE_SCORE <= s <= 1.0
    ensures d * BASE_SCORE <= d * s <= d && d * s > 0.0
  {
    ProductPositive(d, s);
    MultipleOf(2.0 * s, d);
    if s < 1.0 {
      ProductPositive(d, 1.0 - s);
      assert d * (1.0 - s) == d - d * s;
    }
  }

  lemma WeightOfKeypoint(box: Box, key: Keypoint, range: (real, real))
    requires box.Valid() && range.1 <= key.score <= range.0
    ensures var w := DistanceScore(box, key.pos) * IntrinsicScore(key.score, range);
      if box.Contains(key.pos) then BASE_SCORE <= w <= 1.0 else 0.0 < w < OUT_OF_BOX_MULTIPLIER
  {
    var d := DistanceScore(box, key.pos);
    var s := IntrinsicScore(key.score, range);
    assert BASE_SCORE <= s <= 1.0 by {
      IntrinsicScoreRange(key.score, range);
    }
    assert (if box.Contains(key.pos) then d == 1.0 else 0.0 < d < OUT_OF_BOX_MULTIPLIER) by {
      DistanceScoreRange(box, key.pos);
    }
    ProductInUnit(d, s);
  }

  /** Exactly the found keypoints count, with a weight of at most 1; at least 1/2 in the box. */
  lemma WeightRange(pair: FramePair, box: Box, i: nat)
    requires pair.Shaped() && box.Valid() && i < MAX_KEYPOINTS
    ensures 0.0 <= Weight(pair, box, i) <= 1.0
    ensures Weight(pair, box, i) > 0.0 <==> pair.found[i]
    ensures pair.found[i] && box.Contains(pair.keypoints1[i].pos) ==> Weight(pair, box, i) >= BASE_SCORE
    ensures pair.found[i] && !box.Contains(pair.keypoints1[i].pos)
            ==> Weight(pair, box, i) < OUT_OF_BOX_MULTIPLIER
  {
    if pair.found[i] {
      var key := pair.keypoints1[i];
      WeightOfKeypoint(box, key, ScoreRange(pair, MAX_KEYPOINTS));
    }
  }

  lemma IntrinsicScoreRange(score: real, range: (real, real))
    requires range.1 <= score <= range.0
    ensures BASE_SCORE <= IntrinsicScore(score, range) <= 1.0
  {
    if range.0 > range.1 {
      var q := FractionOfRange(score, range.1, range.0);
      assert IntrinsicScore(score, range) == q * (1.0 - BASE_SCORE) + BASE_SCORE;
    }
  }

  lemma AtMostQuotient(q: real, num: real, den: real)
    requires den > 0.0
    ensures q <= num / den <==> q * den <= num
  {
    var r := num / den;
    QuotientTimes(num, den, r);
    MultipleOf(r - q, den);
    MultipleOf(q - r, den);
    assert (r - q) * den == num - q * den;
    if r > q {
      ProductPositive(r - q, den);
    }
  }

  /**
   Outside the box twice the share is the largest q for which q times the squared distance
   stays within the squared half side, along both axes.
   */
  lemma DistanceScoreTells(box: Box, p: Point, q: real)
    requires box.Valid()
    ensures var dx, dy := p.x - (box.left + box.right) / 2.0, p.y - (box.top + box.bottom) / 2.0;
      var hw, hh := (box.right - box.left) / 2.0, (box.bottom - box.top) / 2.0;
      if box.left <= p.x <= box.right && box.top <= p.y <= box.bottom then DistanceScore(box, p) == 1.0
      else q <= 2.0 * DistanceScore(box, p) <==> q * (dx * dx) <= hw * hw && q * (dy * dy) <= hh * hh
  {
    var sqX, sqY := Square(box.Center().x - p.x), Square(box.Center().y - p.y);
    var sqHalfWidth, sqHalfHeight := Square(box.Width() / 2.0), Square(box.Height() / 2.0);
    var dx, dy := p.x - (box.left + box.right) / 2.0, p.y - (box.top + box.bottom) / 2.0;
    assert sqX == dx * dx && sqY == dy * dy by {
      Mirrored(dx);
      Mirrored(dy);
    }
    if !box.Contains(p) {
      OutsideIsAway(box, p);
      SquarePositive(dx);
      SquarePositive(dy);
      SquarePositive(box.Width() / 2.0);
      SquarePositive(box.Height() / 2.0);
      ShareOf(sqX, sqY, sqHalfWidth, sqHalfHeight, q);
    }
  }

  lemma Mirrored(a: real)
    ensures (-a) * (-a) == a * a
  {
  }

  lemma ShareOf(sqX: real, sqY: real, sqHalfWidth: real, sqHalfHeight: real, q: real)
    requires sqX >= 0.0 && sqY >= 0.0 && sqHalfWidth > 0.0 && sqHalfHeight > 0.0 && (sqX > 0.0 || sqY > 0.0)
    ensures var share := if sqY == 0.0 then sqHalfWidth / sqX
                         else if sqX == 0.0 then sqHalfHeight / sqY
                         else Min(sqHalfHeight / sqY, sqHalfWidth / sqX);
      q <= share <==> q * sqX <= sqHalfWidth && q * sqY <= sqHalfHeight
  {
    if sqX > 0.0 {
      AtMostQuotient(q, sqHalfWidth, sqX);
    }
    if sqY > 0.0 {
      AtMostQuotient(q, sqHalfHeight, sqY);
    }
  }

  /** Between two keypoints of the same distance share the one with the higher score counts more. */
  lemma HigherScoreWeighsMore(pair: FramePair, box: Box, i: nat, j: nat)
    requires pair.Shaped() && box.Valid() && i < MAX_KEYPOINTS && j < MAX_KEYPOINTS && pair.found[i] && pair.found[j]
    requires DistanceScore(box, pair.keypoints1[i].pos) == DistanceScore(box, pair.keypoints1[j].pos)
    requires pair.keypoints1[i].score > pair.keypoints1[j].score
    ensures Weight(pair, box, i) > Weight(pair, box, j)
  {
    hide DistanceScore, ScoreRange, IntrinsicScore;
    var range := ScoreRange(pair, MAX_KEYPOINTS);
    var a, b := pair.keypoints1[i].score, pair.keypoints1[j].score;
    HigherIntrinsicScore(a, b, range);
    DistanceScoreRange(box, pair.keypoints1[i].pos);
    MoreOf(DistanceScore(box, pair.keypoints1[i].pos), DistanceScore(box, pair.keypoints1[j].pos),
           IntrinsicScore(a, range), IntrinsicScore(b, range));
  }

  lemma MoreOf(d: real, e: real, s: real, t: real)
    requires d == e > 0.0 && s > t
    ensures d * s > e * t
  {
    ProductPositive(d, s - t);
    assert d * (s - t) == d * s - d * t;
  }

  lemma HigherIntrinsicScore(a: real, b: real, range: (real, real))
    requires range.1 <= b < a <= range.0
    ensures IntrinsicScore(a, range) > IntrinsicScore(b, range)
  {
    var den := range.0 - range.1;
    var p, q := (a - range.1) / den, (b - range.1) / den;
    QuotientTimes(a - range.1, den, p);
    QuotientTimes(b - range.1, den, q);
    if p <= q {
      MultipleOf(p - q, den);
      assert (p - q) * den == a - b;
    }
  }

  lemma {:induction false} ScoreRangeWithin(pair: FramePair, n: nat, lo: real, hi: real)
    requires pair.Shaped() && n <= MAX_KEYPOINTS && -FLT_MAX <= hi && lo <= FLT_MAX
    requires forall i :: 0 <= i < n && pair.found[i] ==> lo <= pair.keypoints1[i].score <= hi
    ensures ScoreRange(pair, n).0 <= hi && ScoreRange(pair, n).1 >= lo
  {
    if n > 0 {
      ScoreRangeWithin(pair, n - 1, lo, hi);
    }
  }

  /**
   The weight grows linearly with the score, from half of the distance share for the worst
   found keypoint to all of it for the best; if all scores agree it is all of it.
   */
  lemma WeightTells(pair: FramePair, box: Box, i: nat, best: nat, worst: nat)
    requires pair.Shaped() && box.Valid() && i < MAX_KEYPOINTS && best < MAX_KEYPOINTS && worst < MAX_KEYPOINTS
    requires pair.found[i] && pair.found[best] && pair.found[worst]
    requires -FLT_MAX <= pair.keypoints1[worst].score && pair.keypoints1[best].score <= FLT_MAX
    requires forall k :: 0 <= k < MAX_KEYPOINTS && pair.found[k] ==>
               pair.keypoints1[worst].score <= pair.keypoints1[k].score <= pair.keypoints1[best].score
    ensures var (s, lo, hi) := (pair.keypoints1[i].score, pair.keypoints1[worst].score, pair.keypoints1[best].score);
      var share := DistanceScore(box, pair.keypoints1[i].pos);
      && (hi == lo ==> Weight(pair, box, i) == share)
      && (s == hi ==> Weight(pair, box, i) == share)
      && (s == lo < hi ==> Weight(pair, box, i) == share / 2.0)
      && 2.0 * (hi - lo) * Weight(pair, box, i) == share * ((hi - lo) + (s - lo))
  {
    hide DistanceScore, ScoreRange;
    var (s, lo, hi) := (pair.keypoints1[i].score, pair.keypoints1[worst].score, pair.keypoints1[best].score);
    ScoreRangeWithin(pair, MAX_KEYPOINTS, lo, hi);
    assert ScoreRange(pair, MAX_KEYPOINTS) == (hi, lo);
    var d := DistanceScore(box, pair.keypoints1[i].pos);
    IntrinsicScoreTells(s, lo, hi, d);
  }

  lemma IntrinsicScoreTells(s: real, lo: real, hi: real, d: real)
    requires lo <= s <= hi
    ensures var w := d * IntrinsicScore(s, (hi, lo));
      && (hi == lo ==> w == d)
      && (s == hi ==> w == d)
      && (s == lo < hi ==> w == d / 2.0)
      && 2.0 * (hi - lo) * w == d * ((hi - lo) + (s - lo))
  {
    if hi > lo {
      var q := (s - lo) / (hi - lo);
      QuotientTimes(s - lo, hi - lo, q);
      if s == hi {
        MultipleOf(q - 1.0, hi - lo);
      }
      Linear(d, q, hi - lo, s - lo);
    }
  }

  lemma Linear(d: real, q: real, den: real, num: real)
    requires q * den == num
    ensures 2.0 * den * (d * (q * 0.5 + 0.5)) == d * (den + num)
  {
    assert 2.0 * den * (d * (q * 0.5 + 0.5)) == d * (q * den + den);
  }

  /** The found keypoints in the box among the first n. */
  ghost function InRange(pair: FramePair, box: Box, n: nat): set<int>
    requires pair.Shaped() && n <= MAX_KEYPOINTS
  {
    set i | 0 <= i < n && pair.found[i] && box.Contains(pair.keypoints1[i].pos)
  }

  lemma NoneInRange(pair: FramePair, box: Box)
    requires pair.Shaped()
    ensures InRange(pair, box, 0) == {}
  {
  }

  lemma InRangeStep(pair: FramePair, box: Box, n: nat)
    requires pair.Shaped() && n < MAX_KEYPOINTS
    ensures |InRange(pair, box, n + 1)|
         == |InRange(pair, box, n)| + if pair.found[n] && box.Contains(pair.keypoints1[n].pos) then 1 else 0
  {
    hide Box.Contains;
    var before, after := InRange(pair, box, n), InRange(pair, box, n + 1);
    assert after == if pair.found[n] && box.Contains(pair.keypoints1[n].pos) then before + {n} else before;
  }

  method FillWeights(pair: FramePair, box: Box, weights: array<real>) returns (numInRange: nat)
    requires pair.Shaped() && box.Valid() && weights.Length == MAX_KEYPOINTS
    modifies weights
    ensures forall i :: 0 <= i < MAX_KEYPOINTS ==> weights[i] == Weight(pair, box, i)
    ensures numInRange == |InRange(pair, box, MAX_KEYPOINTS)|
  {
    hide DistanceScore, IntrinsicScore, Box.Contains, InRange;
    NoneInRange(pair, box);
    var maxScore, minScore := -FLT_MAX, FLT_MAX;
    for i := 0 to MAX_KEYPOINTS
      invariant (maxScore, minScore) == ScoreRange(pair, i)
    {
      if pair.found[i] {
        maxScore := Max(maxScore, pair.keypoints1[i].score);
        minScore := Min(minScore, pair.keypoints1[i].score);
      }
    }
    numInRange := 0;
    for i := 0 to MAX_KEYPOINTS
      invariant forall k :: 0 <= k < i ==> weights[k] == Weight(pair, box, k)
      invariant numInRange == |InRange(pair, box, i)|
    {
      InRangeStep(pair, box, i);
      if !pair.found[i] {
        weights[i] := 0.0;
      } else {
        var p := pair.keypoints1[i].pos;
        if box.Contains(p) {
          numInRange := numInRange + 1;
        }
        var distanceScore := DistanceScore(box, p);
        var intrinsicScore := IntrinsicScore(pair.keypoints1[i].score, (maxScore, minScore));
        weights[i] := distanceScore * intrinsicScore;
      }
    }
  }

  // ---------------------------------------------------------------------------------------
  // Translations and scales.

  function TranslationAt(pair: FramePair, i: nat): Point
    requires pair.Shaped() && i < MAX_KEYPOINTS
  {
    Point(pair.keypoints2[i].pos.x - pair.keypoints1[i].pos.x,
          pair.keypoints2[i].pos.y - pair.keypoints1[i].pos.y)
  }

  method FillTranslations(pair: FramePair, translations: array<Point>)
    requires pair.Shaped() && translations.Length == MAX_KEYPOINTS
    modifies translations
    ensures forall i :: 0 <= i < MAX_KEYPOINTS ==>
              translations[i] == if pair.found[i] then TranslationAt(pair, i) else old(translations[i])
  {
    for i := 0 to MAX_KEYPOINTS
      invariant forall k :: 0 <= k < i ==>
                  translations[k] == if pair.found[k] then TranslationAt(pair, k) else old(translations[k])
      invariant forall k :: i <= k < MAX_KEYPOINTS ==> translations[k] == old(translations[k])
    {
      if pair.found[i] {
        translations[i] := TranslationAt(pair, i);
      }
    }
  }

  /** Distance of a keypoint from the box centre before and after, the translation undone. */
  function DistancesAt(pair: FramePair, center: Point, t: Point, i: nat): (Point, Point)
    requires pair.Shaped() && i < MAX_KEYPOINTS
  {
    var p := pair.keypoints1[i].pos;
    var q := pair.keypoints2[i].pos;
    (Point(p.x - center.x, p.y - center.y), Point((q.x - t.x) - center.x, (q.y - t.y) - center.y))
  }

  predicate SameSide(a: real, b: real) {
    (b > EPSILON && a > EPSILON) || (b < -EPSILON && a < -EPSILON)
  }

  predicate GoodScale(pair: FramePair, center: Point, t: Point, i: nat)
    requires pair.Shaped() && i < MAX_KEYPOINTS
  {
    var (before, after) := DistancesAt(pair, center, t, i);
    pair.found[i] && SameSide(before.x, after.x) && SameSide(before.y, after.y)
  }

  function ScaleAt(pair: FramePair, center: Point, t: Point, i: nat): Point
    requires pair.Shaped() && i < MAX_KEYPOINTS
  {
    if GoodScale(pair, center, t, i)
    then
      var (before, after) := DistancesAt(pair, center, t, i);
      Point(after.x / before.x, after.y / before.y)
    else Point(1.0, 1.0)
  }

  method FillScales(pair: FramePair, center: Point, t: Point, weights: array<real>, scales: array<Point>)
    returns (numGood: nat)
    requires pair.Shaped() && weights.Length == MAX_KEYPOINTS && scales.Length == MAX_KEYPOINTS
    modifies weights, scales
    ensures forall i :: 0 <= i < MAX_KEYPOINTS ==>
              && weights[i] == (if pair.found[i] && !GoodScale(pair, center, t, i) then 0.0 else old(weights[i]))
              && scales[i] == (if pair.found[i] then ScaleAt(pair, center, t, i) else old(scales[i]))
    ensures numGood == NumGood(pair, center, t, MAX_KEYPOINTS)
  {
    hide DistancesAt, SameSide, GoodScale, ScaleAt;
    numGood := 0;
    for i := 0 to MAX_KEYPOINTS
      invariant forall k :: 0 <= k < i ==>
                  weights[k] == if pair.found[k] && !GoodScale(pair, center, t, k) then 0.0 else old(weights[k])
      invariant forall k :: 0 <= k < i ==>
                  scales[k] == if pair.found[k] then ScaleAt(pair, center, t, k) else old(scales[k])
      invariant forall k :: i <= k < MAX_KEYPOINTS ==> weights[k] == old(weights[k]) && scales[k] == old(scales[k])
      invariant numGood == NumGood(pair, center, t, i)
    {
      OnlyFoundIsGood(pair, center, t, i);
      if pair.found[i] {
        if GoodScale(pair, center, t, i) {
          scales[i] := ScaleAt(pair, center, t, i);
          numGood := numGood + 1;
        } else {
          weights[i] := 0.0;
          scales[i] := Point(1.0, 1.0);
        }
      }
    }
  }

  lemma OnlyFoundIsGood(pair: FramePair, center: Point, t: Point, i: nat)
    requires pair.Shaped() && i < MAX_KEYPOINTS
    ensures GoodScale(pair, center, t, i) ==> pair.found[i]
    ensures !GoodScale(pair, center, t, i) ==> ScaleAt(pair, center, t, i) == Point(1.0, 1.0)
  {
  }

  /** How many of the first n keypoints have a usable scale. */
  function NumGood(pair: FramePair, center: Point, t: Point, n: nat): nat
    requires pair.Shaped() && n <= MAX_KEYPOINTS
  {
    if n == 0 then 0
    else NumGood(pair, center, t, n - 1) + (if GoodScale(pair, center, t, n - 1) then 1 else 0)
  }

  lemma {:induction false} NoneGood(pair: FramePair, center: Point, t: Point, n: nat)
    requires pair.Shaped() && n <= MAX_KEYPOINTS && pair.NothingFound()
    ensures NumGood(pair, center, t, n) == 0
  {
    if n > 0 {
      NoneGood(pair, center, t, n - 1);
    }
  }

  /** Usable: along both axes the distances before and after exceed the tolerance on the same side of the centre. */
  lemma ScaleTells(pair: FramePair, center: Point, t: Point, i: nat)
    requires pair.Shaped() && i < MAX_KEYPOINTS
    ensures var (p, q) := (pair.keypoints1[i].pos, pair.keypoints2[i].pos);
      var (x1, y1, x2, y2) := (p.x - center.x, p.y - center.y, q.x - t.x - center.x, q.y - t.y - center.y);
      && (GoodScale(pair, center, t, i) <==>
            && pair.found[i]
            && (if x1 > 0.0 then x1 > 0.00001 && x2 > 0.00001 else x1 < -0.00001 && x2 < -0.00001)
            && (if y1 > 0.0 then y1 > 0.00001 && y2 > 0.00001 else y1 < -0.00001 && y2 < -0.00001))
      && (GoodScale(pair, center, t, i) ==>
            ScaleAt(pair, center, t, i).x * x1 == x2 && ScaleAt(pair, center, t, i).y * y1 == y2)
      && (!GoodScale(pair, center, t, i) ==> ScaleAt(pair, center, t, i) == Point(1.0, 1.0))
  {
    var (before, after) := DistancesAt(pair, center, t, i);
    if GoodScale(pair, center, t, i) {
      RatioTimes(after.x, before.x);
      RatioTimes(after.y, before.y);
    }
  }

  lemma RatioTimes(num: real, den: real)
    requires den != 0.0
    ensures num / den * den == num
  {
  }

  /** The keypoints with a usable scale among the first n. */
  ghost function Usable(pair: FramePair, center: Point, t: Point, n: nat): set<int>
    requires pair.Shaped() && n <= MAX_KEYPOINTS
  {
    set i | 0 <= i < n && GoodScale(pair, center, t, i)
  }

  lemma {:induction false} NumGoodCounts(pair: FramePair, center: Point, t: Point, n: nat)
    requires pair.Shaped() && n <= MAX_KEYPOINTS
    ensures NumGood(pair, center, t, n) == |Usable(pair, center, t, n)|
  {
    hide GoodScale;
    if n == 0 {
      assert Usable(pair, center, t, 0) == {};
    } else {
      NumGoodCounts(pair, center, t, n - 1);
      var before, after := Usable(pair, center, t, n - 1), Usable(pair, center, t, n);
      assert after == if GoodScale(pair, center, t, n - 1) then before + {n - 1} else before;
    }
  }

  // ---------------------------------------------------------------------------------------
  // Medians over the buffers.

  function Zip(weights: seq<real>, deltas: seq<real>): (r: seq<WeightedDelta>)
    requires |weights| == |deltas|
    ensures |r| == |weights|
    ensures forall i :: 0 <= i < |r| ==> r[i] == WeightedDelta(weights[i], deltas[i])
  {
    seq(|weights|, i requires 0 <= i < |weights| => WeightedDelta(weights[i], deltas[i]))
  }

  function Xs(points: seq<Point>): (r: seq<real>)
    ensures |r| == |points| && forall i :: 0 <= i < |r| ==> r[i] == points[i].x
  {
    seq(|points|, i requires 0 <= i < |points| => points[i].x)
  }

  function Ys(points: seq<Point>): (r: seq<real>)
    ensures |r| == |points| && forall i :: 0 <= i < |r| ==> r[i] == points[i].y
  {
    seq(|points|, i requires 0 <= i < |points| => points[i].y)
  }

  /** Loads one coordinate into the sort buffer from `at` on and returns the added weight. */
  method LoadWeighted(weights: array<real>, deltas: seq<real>, buffer: array<WeightedDelta>, at: nat)
    returns (added: real)
    requires weights.Length == |deltas| && at + |deltas| <= buffer.Length
    modifies buffer
    ensures buffer[..at] == old(buffer[..at])
    ensures buffer[at..at + |deltas|] == Zip(weights[..], deltas)
    ensures added == TotalWeight(Zip(weights[..], deltas))
  {
    added := 0.0;
    ghost var items := Zip(weights[..], deltas);
    for i := 0 to weights.Length
      invariant buffer[..at] == old(buffer[..at])
      invariant forall k :: 0 <= k < i ==> buffer[at + k] == items[k]
      invariant added == TotalWeight(items[..i])
    {
      buffer[at + i] := WeightedDelta(weights[i], deltas[i]);
      PrefixGrows(items, i);
      if weights[i] > 0.0 {
        added := added + weights[i];
      }
    }
    assert items[..weights.Length] == items;
  }

  method GetWeightedMedian(weights: array<real>, deltas: array<Point>) returns (median: Point)
    requires weights.Length == deltas.Length == MAX_KEYPOINTS
    ensures median == Point(MedianOf(Zip(weights[..], Xs(deltas[..]))), MedianOf(Zip(weights[..], Ys(deltas[..]))))
  {
    var buffer := new WeightedDelta[MAX_KEYPOINTS](_ => WeightedDelta(0.0, 0.0));
    var totalX := LoadWeighted(weights, Xs(deltas[..]), buffer, 0);
    assert buffer[0..0 + MAX_KEYPOINTS] == buffer[..];
    var x := SortedMedian(buffer, totalX);
    var totalY := LoadWeighted(weights, Ys(deltas[..]), buffer, 0);
    assert buffer[0..0 + MAX_KEYPOINTS] == buffer[..];
    var y := SortedMedian(buffer, totalY);
    median := Point(x, y);
  }

  method GetWeightedMedianScale(weights: array<real>, deltas: array<Point>) returns (median: real)
    requires weights.Length == deltas.Length == MAX_KEYPOINTS
    ensures median == MedianOf(Zip(weights[..], Xs(deltas[..])) + Zip(weights[..], Ys(deltas[..])))
  {
    var buffer := new WeightedDelta[2 * MAX_KEYPOINTS](_ => WeightedDelta(0.0, 0.0));
    ghost var xs := Zip(weights[..], Xs(deltas[..]));
    ghost var ys := Zip(weights[..], Ys(deltas[..]));
    var totalX := LoadWeighted(weights, Xs(deltas[..]), buffer, 0);
    assert buffer[..MAX_KEYPOINTS] == xs;
    var totalY := LoadWeighted(weights, Ys(deltas[..]), buffer, MAX_KEYPOINTS);
    assert buffer[..] == buffer[..MAX_KEYPOINTS] + buffer[MAX_KEYPOINTS..2 * MAX_KEYPOINTS] == xs + ys;
    MassConcat(xs, ys, 0.0, false);
    median := SortedMedian(buffer, totalX + totalY);
  }

  method SortedMedian(buffer: array<WeightedDelta>, total: real) returns (median: real)
    requires total == TotalWeight(buffer[..])
    modifies buffer
    ensures median == MedianOf(old(buffer[..]))
  {
    QSort(buffer);
    MassOfPermutation(buffer[..], old(buffer[..]), 0.0, false);
    median := GetMedian(buffer, total);
    MedianIgnoresOrder(buffer[..], old(buffer[..]));
  }

  // ---------------------------------------------------------------------------------------
  // The estimated motion, as a function of the pair and the box alone.

  function Weights(pair: FramePair, box: Box): (r: seq<real>)
    requires pair.Shaped() && box.Valid()
    ensures |r| == MAX_KEYPOINTS && forall i :: 0 <= i < MAX_KEYPOINTS ==> r[i] == Weight(pair, box, i)
  {
    seq(MAX_KEYPOINTS, i requires 0 <= i < MAX_KEYPOINTS => Weight(pair, box, i))
  }

  function Translations(pair: FramePair): (r: seq<Point>)
    requires pair.Shaped()
    ensures |r| == MAX_KEYPOINTS && forall i :: 0 <= i < MAX_KEYPOINTS ==> r[i] == TranslationAt(pair, i)
  {
    seq(MAX_KEYPOINTS, i requires 0 <= i < MAX_KEYPOINTS => TranslationAt(pair, i))
  }

  function Scales(pair: FramePair, center: Point, t: Point): (r: seq<Point>)
    requires pair.Shaped()
    ensures |r| == MAX_KEYPOINTS && forall i :: 0 <= i < MAX_KEYPOINTS ==> r[i] == ScaleAt(pair, center, t, i)
  {
    seq(MAX_KEYPOINTS, i requires 0 <= i < MAX_KEYPOINTS => ScaleAt(pair, center, t, i))
  }

  function ScaleWeights(pair: FramePair, box: Box, center: Point, t: Point): (r: seq<real>)
    requires pair.Shaped() && box.Valid()
    ensures |r| == MAX_KEYPOINTS
    ensures forall i :: 0 <= i < MAX_KEYPOINTS ==>
              r[i] == if GoodScale(pair, center, t, i) then Weight(pair, box, i) else 0.0
  {
    seq(MAX_KEYPOINTS, i requires 0 <= i < MAX_KEYPOINTS =>
      if GoodScale(pair, center, t, i) then Weight(pair, box, i) else 0.0)
  }

  function Core(box: Box): (core: Box)
    requires box.Valid()
    ensures core.Valid()
  {
    ScaleKeepsCenterAndValidity(box, 0.4, 0.4);
    box.Scale(0.4, 0.4)
  }

  ghost function Translation(pair: FramePair, box: Box): Point
    requires pair.Shaped() && box.Valid()
  {
    var w := Weights(pair, Core(box));
    Point(MedianOf(Zip(w, Xs(Translations(pair)))), MedianOf(Zip(w, Ys(Translations(pair)))))
  }

  ghost function ScaleItems(pair: FramePair, box: Box): seq<WeightedDelta>
    requires pair.Shaped() && box.Valid()
  {
    var t := Translation(pair, box);
    var w := ScaleWeights(pair, Core(box), box.Center(), t);
    var s := Scales(pair, box.Center(), t);
    Zip(w, Xs(s)) + Zip(w, Ys(s))
  }

  ghost function ScaleFactor(pair: FramePair, box: Box): real
    requires pair.Shaped() && box.Valid()
  {
    if NumGood(pair, box.Center(), Translation(pair, box), MAX_KEYPOINTS) < MIN_NUM_IN_RANGE then 1.0
    else
      var s := MedianOf(ScaleItems(pair, box));
      if s > 0.0 then s else 1.0
  }

  /** The core is the box shrunk to 40 percent about its centre. */
  lemma CoreTells(box: Box)
    requires box.Valid()
    ensures var core := Core(box);
      && core.right - core.left == 0.4 * (box.right - box.left)
      && core.bottom - core.top == 0.4 * (box.bottom - box.top)
      && core.left + core.right == box.left + box.right && core.top + core.bottom == box.top + box.bottom
  {
  }

  /** With fewer than five usable keypoints the size stays; else it follows their median, if that is positive. */
  lemma ScaleFactorTells(pair: FramePair, box: Box)
    requires pair.Shaped() && box.Valid()
    ensures var good := Usable(pair, box.Center(), Translation(pair, box), MAX_KEYPOINTS);
      && (|good| <= 4 ==> ScaleFactor(pair, box) == 1.0)
      && (|good| >= 5 && MedianOf(ScaleItems(pair, box)) > 0.0 ==>
            ScaleFactor(pair, box) == MedianOf(ScaleItems(pair, box)))
      && (MedianOf(ScaleItems(pair, box)) <= 0.0 ==> ScaleFactor(pair, box) == 1.0)
  {
    NumGoodCounts(pair, box.Center(), Translation(pair, box), MAX_KEYPOINTS);
    hide Usable, NumGood, ScaleItems, Translation;
  }

  /** The first half of AdjustBox. */
  method EstimateTranslation(pair: FramePair, box: Box, weights: array<real>, deltas: array<Point>)
    returns (translation: Point)
    requires pair.Shaped() && box.Valid()
    requires weights.Length == deltas.Length == MAX_KEYPOINTS
    modifies weights, deltas
    ensures translation == Translation(pair, box)
    ensures weights[..] == Weights(pair, Core(box))
  {
    hide Weight, Core, MedianOf;
    for i := 0 to MAX_KEYPOINTS {
      weights[i] := 0.0;
    }
    var core := Core(box);
    var _ := FillWeights(pair, core, weights);
    FillTranslations(pair, deltas);
    assert weights[..] == Weights(pair, core);
    forall i | 0 <= i < MAX_KEYPOINTS ensures weights[i] > 0.0 ==> pair.found[i] {
      WeightRange(pair, core, i);
    }
    MedianIgnoresUnweighted(Zip(weights[..], Xs(deltas[..])), Zip(weights[..], Xs(Translations(pair))));
    MedianIgnoresUnweighted(Zip(weights[..], Ys(deltas[..])), Zip(weights[..], Ys(Translations(pair))));
    translation := GetWeightedMedian(weights, deltas);
  }

  /** The second half: the scale, once weights and translation are known. */
  method EstimateScale(pair: FramePair, box: Box, translation: Point, weights: array<real>, deltas: array<Point>)
    returns (scale: real)
    requires pair.Shaped() && box.Valid()
    requires weights.Length == deltas.Length == MAX_KEYPOINTS
    requires weights[..] == Weights(pair, Core(box)) && translation == Translation(pair, box)
    modifies weights, deltas
    ensures scale == ScaleFactor(pair, box)
  {
    hide Weight, GoodScale, ScaleAt, Core, MedianOf, Translation;
    ghost var core := Core(box);
    var center := box.Center();
    forall i | 0 <= i < MAX_KEYPOINTS
      ensures weights[i] == Weight(pair, core, i)
      ensures weights[i] >= 0.0 && (weights[i] > 0.0 ==> pair.found[i])
      ensures GoodScale(pair, center, translation, i) ==> pair.found[i]
    {
      assert weights[i] == weights[..][i];
      WeightRange(pair, core, i);
      OnlyFoundIsGood(pair, center, translation, i);
    }
    var goodScalePoints := FillScales(pair, center, translation, weights, deltas);
    ghost var s := Scales(pair, center, translation);
    assert weights[..] == ScaleWeights(pair, core, center, translation);
    MedianIgnoresUnweighted(Zip(weights[..], Xs(deltas[..])) + Zip(weights[..], Ys(deltas[..])),
                            Zip(weights[..], Xs(s)) + Zip(weights[..], Ys(s)));
    scale := 1.0;
    if goodScalePoints >= MIN_NUM_IN_RANGE {
      var scaleFactor := GetWeightedMedianScale(weights, deltas);
      if scaleFactor > 0.0 {
        scale := scaleFactor;
      }
    }
  }

  /** The old contents of the two buffers have no influence on the result. */
  method AdjustBox(pair: FramePair, box: Box, weights: array<real>, deltas: array<Point>)
    returns (translation: Point, scale: Point)
    requires pair.Shaped() && box.Valid()
    requires weights.Length == deltas.Length == MAX_KEYPOINTS
    modifies weights, deltas
    ensures translation == Translation(pair, box)
    ensures scale == Point(ScaleFactor(pair, box), ScaleFactor(pair, box))
  {
    translation := EstimateTranslation(pair, box, weights, deltas);
    var s := EstimateScale(pair, box, translation, weights, deltas);
    scale := Point(s, s);
  }

  /** Where a box goes from one frame to the next (ObjectTracker::TrackBox on one pair). */
  ghost function Moved(pair: FramePair, box: Box): Box
    requires pair.Shaped() && box.Valid()
  {
    box.Shift(Translation(pair, box)).Scale(ScaleFactor(pair, box), ScaleFactor(pair, box))
  }

  method MoveBox(pair: FramePair, region: Box, weights: array<real>, deltas: array<Point>) returns (tracked: Box)
    requires pair.Shaped() && region.Valid()
    requires weights.Length == deltas.Length == MAX_KEYPOINTS
    modifies weights, deltas
    ensures tracked == Moved(pair, region) && tracked.Valid()
  {
    var translation, scale := AdjustBox(pair, region, weights, deltas);
    tracked := region.Shift(translation);
    if scale.x > 0.0 && scale.y > 0.0 {
      tracked := tracked.Scale(scale.x, scale.y);
    }
    MovedShape(pair, region);
  }

  /** The centre moved by t and both sides stretched by s. */
  predicate IsMove(from: Box, to: Box, t: Point, s: real) {
    && to.Center() == Point(from.Center().x + t.x, from.Center().y + t.y)
    && to.Width() == from.Width() * s
    && to.Height() == from.Height() * s
  }

  lemma ShiftAndScale(box: Box, t: Point, s: real)
    requires box.Valid() && s > 0.0
    ensures box.Shift(t).Scale(s, s).Valid()
    ensures IsMove(box, box.Shift(t).Scale(s, s), t, s)
  {
    var shifted := box.Shift(t);
    assert shifted.Width() == box.Width() && shifted.Height() == box.Height();
    ScaleKeepsCenterAndValidity(shifted, s, s);
  }

  lemma ScaleFactorPositive(pair: FramePair, box: Box)
    requires pair.Shaped() && box.Valid()
    ensures ScaleFactor(pair, box) > 0.0
  {
  }

  /** A moved box is a box, centred where the translation says, of the old aspect ratio. */
  lemma MovedShape(pair: FramePair, box: Box)
    requires pair.Shaped() && box.Valid()
    ensures ScaleFactor(pair, box) > 0.0
    ensures Moved(pair, box).Valid()
    ensures IsMove(box, Moved(pair, box), Translation(pair, box), ScaleFactor(pair, box))
  {
    ScaleFactorPositive(pair, box);
    ghost var t := Translation(pair, box);
    ghost var s := ScaleFactor(pair, box);
    ShiftAndScale(box, t, s);
  }

  lemma ScaleByOne(box: Box)
    ensures box.Scale(1.0, 1.0) == box
  {
  }

  lemma {:induction false} NoWeight(items: seq<WeightedDelta>)
    requires forall i :: 0 <= i < |items| ==> items[i].weight <= 0.0
    ensures TotalWeight(items) == 0.0
  {
    if items != [] {
      NoWeight(items[1..]);
    }
  }

  /** Without correspondences a box stays exactly where it is. */
  lemma UnmovedWhenNothingFound(pair: FramePair, box: Box)
    requires pair.Shaped() && box.Valid() && pair.NothingFound()
    ensures Moved(pair, box) == box
  {
    var w := Weights(pair, Core(box));
    NoWeight(Zip(w, Xs(Translations(pair))));
    NoWeight(Zip(w, Ys(Translations(pair))));
    var t := Translation(pair, box);
    NoneGood(pair, box.Center(), t, MAX_KEYPOINTS);
    ScaleByOne(box);
    assert box.Shift(Point(0.0, 0.0)) == box;
  }

  lemma {:induction false} OneWeightCounts(items: seq<WeightedDelta>, i: nat)
    requires i < |items| && items[i].weight > 0.0
    ensures TotalWeight(items) >= items[i].weight
  {
    if i > 0 {
      OneWeightCounts(items[1..], i - 1);
    }
  }

  lemma {:induction false} WeightsDecideTotal(weights: seq<real>, a: seq<real>, b: seq<real>)
    requires |weights| == |a| == |b|
    ensures TotalWeight(Zip(weights, a)) == TotalWeight(Zip(weights, b))
  {
    if weights != [] {
      WeightsDecideTotal(weights[1..], a[1..], b[1..]);
      assert Zip(weights, a)[1..] == Zip(weights[1..], a[1..]);
      assert Zip(weights, b)[1..] == Zip(weights[1..], b[1..]);
    }
  }

  /** The weights of the translation estimate reach the threshold. */
  predicate EnoughWeight(pair: FramePair, box: Box)
    requires pair.Shaped() && box.Valid()
  {
    TotalWeight(Zip(Weights(pair, Core(box)), Xs(Translations(pair)))) >= EPSILON
  }

  /** One found keypoint in the box's core is enough. */
  lemma CoreKeypointIsEnough(pair: FramePair, box: Box, i: nat)
    requires pair.Shaped() && box.Valid()
    requires i < MAX_KEYPOINTS && pair.found[i] && Core(box).Contains(pair.keypoints1[i].pos)
    ensures EnoughWeight(pair, box)
  {
    WeightRange(pair, Core(box), i);
    OneWeightCounts(Zip(Weights(pair, Core(box)), Xs(Translations(pair))), i);
  }

  /** Every found keypoint is moved by t from the first frame to the second. */
  predicate MovesBy(pair: FramePair, t: Point)
    requires pair.Shaped()
  {
    forall i :: 0 <= i < MAX_KEYPOINTS && pair.found[i] ==>
      pair.keypoints2[i].pos == Point(pair.keypoints1[i].pos.x + t.x, pair.keypoints1[i].pos.y + t.y)
  }

  /** If all found keypoints move by `t` and carry enough weight, the box moves by `t`. */
  lemma RigidTranslationRecovered(pair: FramePair, box: Box, t: Point)
    requires pair.Shaped() && box.Valid() && EnoughWeight(pair, box)
    requires MovesBy(pair, t)
    ensures Moved(pair, box) == box.Shift(t)
  {
    var w := Weights(pair, Core(box));
    forall i | 0 <= i < MAX_KEYPOINTS ensures w[i] > 0.0 ==> pair.found[i] {
      WeightRange(pair, Core(box), i);
    }
    var xs, ys := Zip(w, Xs(Translations(pair))), Zip(w, Ys(Translations(pair)));
    WeightsDecideTotal(w, Xs(Translations(pair)), Ys(Translations(pair)));
    MedianWhenAllEqual(xs, t.x);
    MedianWhenAllEqual(ys, t.y);
    assert Translation(pair, box) == t;
    RigidScaleIsOne(pair, box, t);
    ScaleByOne(box.Shift(t));
  }

  lemma RigidScaleAt(pair: FramePair, center: Point, t: Point, i: nat)
    requires pair.Shaped() && i < MAX_KEYPOINTS
    requires pair.found[i] ==> TranslationAt(pair, i) == t
    ensures ScaleAt(pair, center, t, i) == Point(1.0, 1.0)
  {
    if GoodScale(pair, center, t, i) {
      var (before, after) := DistancesAt(pair, center, t, i);
      var p, q := pair.keypoints1[i].pos, pair.keypoints2[i].pos;
      assert q.x - t.x == p.x && q.y - t.y == p.y;
      assert before == after;
      SelfRatio(before.x);
      SelfRatio(before.y);
    }
  }

  lemma SelfRatio(a: real)
    requires a != 0.0
    ensures a / a == 1.0
  {
  }

  lemma MultipleRatio(q: real, a: real)
    requires a != 0.0
    ensures (q * a) / a == q
  {
  }

  lemma ZoomAt(pair: FramePair, center: Point, t: Point, i: nat, zoom: real)
    requires pair.Shaped() && i < MAX_KEYPOINTS && GoodScale(pair, center, t, i)
    requires var (before, after) := DistancesAt(pair, center, t, i); after == Point(zoom * before.x, zoom * before.y)
    ensures ScaleAt(pair, center, t, i) == Point(zoom, zoom)
  {
    var (before, after) := DistancesAt(pair, center, t, i);
    MultipleRatio(zoom, before.x);
    MultipleRatio(zoom, before.y);
  }

  /** If the found keypoints, the translation undone, lie `zoom` times as far from the centre, the scale is `zoom`. */
  lemma UniformZoomRecovered(pair: FramePair, box: Box, zoom: real)
    requires pair.Shaped() && box.Valid() && zoom > 0.0
    requires forall i :: 0 <= i < MAX_KEYPOINTS && pair.found[i] ==>
               var (before, after) := DistancesAt(pair, box.Center(), Translation(pair, box), i);
               after == Point(zoom * before.x, zoom * before.y)
    requires NumGood(pair, box.Center(), Translation(pair, box), MAX_KEYPOINTS) >= MIN_NUM_IN_RANGE
    requires TotalWeight(ScaleItems(pair, box)) >= EPSILON
    ensures ScaleFactor(pair, box) == zoom
  {
    hide Translation, Weight, Core, MedianOf, DistancesAt, GoodScale, ScaleAt, SameSide, NumGood;
    var items := ScaleItems(pair, box);
    var center, t := box.Center(), Translation(pair, box);
    var s := Scales(pair, center, t);
    forall i | 0 <= i < MAX_KEYPOINTS && GoodScale(pair, center, t, i) ensures s[i] == Point(zoom, zoom) {
      OnlyFoundIsGood(pair, center, t, i);
      ZoomAt(pair, center, t, i, zoom);
    }
    assert forall i :: 0 <= i < |items| && items[i].weight > 0.0 ==> items[i].delta == zoom;
    MedianWhenAllEqual(items, zoom);
  }

  /** Offsets of the keypoints from a point, along one axis. */
  function Offsets(pair: FramePair, center: Point, alongX: bool, sign: real): (r: seq<real>)
    requires pair.Shaped()
    ensures |r| == MAX_KEYPOINTS
    ensures forall i :: 0 <= i < MAX_KEYPOINTS ==> r[i] == sign * Offset(pair, center, alongX, i)
  {
    seq(MAX_KEYPOINTS, i requires 0 <= i < MAX_KEYPOINTS => sign * Offset(pair, center, alongX, i))
  }

  function Offset(pair: FramePair, center: Point, alongX: bool, i: nat): real
    requires pair.Shaped() && i < MAX_KEYPOINTS
  {
    if alongX then pair.keypoints1[i].pos.x - center.x else pair.keypoints1[i].pos.y - center.y
  }

  /** The box centre is the weighted median of the keypoints along an axis, read in both directions. */
  ghost predicate Centred(pair: FramePair, box: Box, alongX: bool)
    requires pair.Shaped() && box.Valid()
  {
    var w := Weights(pair, Core(box));
    && MedianOf(Zip(w, Offsets(pair, box.Center(), alongX, 1.0))) == 0.0
    && MedianOf(Zip(w, Offsets(pair, box.Center(), alongX, -1.0))) == 0.0
  }

  /** Keypoints move by t while their distance from the centre grows by `zoom`. */
  predicate Zooms(pair: FramePair, center: Point, t: Point, zoom: real)
    requires pair.Shaped()
  {
    forall i :: 0 <= i < MAX_KEYPOINTS && pair.found[i] ==>
      && pair.keypoints2[i].pos.x == center.x + t.x + zoom * Offset(pair, center, true, i)
      && pair.keypoints2[i].pos.y == center.y + t.y + zoom * Offset(pair, center, false, i)
  }

  /** Displacements that are a multiple of the offsets, plus t, have the median t if the offsets are centred. */
  lemma ZoomMedian(pair: FramePair, box: Box, alongX: bool, deltas: seq<real>, t: real, zoom: real)
    requires pair.Shaped() && box.Valid() && |deltas| == MAX_KEYPOINTS && Centred(pair, box, alongX)
    requires TotalWeight(Zip(Weights(pair, Core(box)), deltas)) >= EPSILON
    requires forall i :: 0 <= i < MAX_KEYPOINTS && pair.found[i] ==>
               deltas[i] == Stretched(Offset(pair, box.Center(), alongX, i), zoom - 1.0, t)
    ensures MedianOf(Zip(Weights(pair, Core(box)), deltas)) == t
  {
    hide Weight, Core, Offset, Stretched, MedianOf;
    var w := Weights(pair, Core(box));
    forall i | 0 <= i < MAX_KEYPOINTS ensures w[i] > 0.0 ==> pair.found[i] {
      WeightRange(pair, Core(box), i);
    }
    if zoom == 1.0 {
      forall i | 0 <= i < MAX_KEYPOINTS && pair.found[i] ensures deltas[i] == t {
        NoStretch(Offset(pair, box.Center(), alongX, i), t);
      }
      MedianWhenAllEqual(Zip(w, deltas), t);
    } else {
      var sign := if zoom > 1.0 then 1.0 else -1.0;
      var a := if zoom > 1.0 then zoom - 1.0 else 1.0 - zoom;
      var offsets := Offsets(pair, box.Center(), alongX, sign);
      WeightsDecideTotal(w, deltas, offsets);
      forall i | 0 <= i < MAX_KEYPOINTS && pair.found[i]
        ensures Affine(Zip(w, offsets), a, t)[i] == Zip(w, deltas)[i]
      {
        SignsCancel(Offset(pair, box.Center(), alongX, i), sign, zoom - 1.0, a, t);
      }
      MedianOfAffine(Zip(w, offsets), a, t);
      NoStretch(a, t);
      MedianIgnoresUnweighted(Affine(Zip(w, offsets), a, t), Zip(w, deltas));
    }
  }

  lemma NoStretch(x: real, t: real)
    ensures Stretched(x, 0.0, t) == t && Stretched(0.0, x, t) == t
  {
  }

  lemma SignsCancel(x: real, sign: real, a: real, b: real, t: real)
    requires (sign == 1.0 && a == b) || (sign == -1.0 && a == -b)
    ensures Stretched(sign * x, b, t) == Stretched(x, a, t)
  {
  }

  lemma ZoomOf(pair: FramePair, center: Point, t: Point, zoom: real, i: nat)
    requires pair.Shaped() && Zooms(pair, center, t, zoom) && i < MAX_KEYPOINTS && pair.found[i]
    ensures TranslationAt(pair, i)
         == Point(Stretched(Offset(pair, center, true, i), zoom - 1.0, t.x),
                  Stretched(Offset(pair, center, false, i), zoom - 1.0, t.y))
    ensures var (before, after) := DistancesAt(pair, center, t, i); after == Point(zoom * before.x, zoom * before.y)
  {
  }

  lemma ZoomTranslation(pair: FramePair, box: Box, t: Point, zoom: real)
    requires pair.Shaped() && box.Valid() && Zooms(pair, box.Center(), t, zoom)
    requires EnoughWeight(pair, box) && Centred(pair, box, true) && Centred(pair, box, false)
    ensures Translation(pair, box) == t
  {
    hide Weight, Core, MedianOf, Centred, Box.Center, Offset, Stretched, DistancesAt, Zooms;
    var w, center := Weights(pair, Core(box)), box.Center();
    var xs, ys := Xs(Translations(pair)), Ys(Translations(pair));
    WeightsDecideTotal(w, xs, ys);
    forall i | 0 <= i < MAX_KEYPOINTS && pair.found[i]
      ensures xs[i] == Stretched(Offset(pair, center, true, i), zoom - 1.0, t.x)
      ensures ys[i] == Stretched(Offset(pair, center, false, i), zoom - 1.0, t.y)
    {
      ZoomOf(pair, center, t, zoom, i);
    }
    ZoomMedian(pair, box, true, xs, t.x, zoom);
    ZoomMedian(pair, box, false, ys, t.y, zoom);
  }

  /**
   Keypoints around the box centre that move by t and spread or shrink by `zoom` move the box
   by t and scale it by `zoom`.
   */
  lemma ZoomRecovered(pair: FramePair, box: Box, t: Point, zoom: real)
    requires pair.Shaped() && box.Valid() && zoom > 0.0 && Zooms(pair, box.Center(), t, zoom)
    requires EnoughWeight(pair, box) && Centred(pair, box, true) && Centred(pair, box, false)
    requires NumGood(pair, box.Center(), t, MAX_KEYPOINTS) >= MIN_NUM_IN_RANGE
    requires var w, s := ScaleWeights(pair, Core(box), box.Center(), t), Scales(pair, box.Center(), t);
      TotalWeight(Zip(w, Xs(s))) >= EPSILON
    ensures Moved(pair, box) == box.Shift(t).Scale(zoom, zoom)
  {
    hide Weight, Core, Translation, NumGood, Centred, Box.Scale, Box.Shift, Box.Center, DistancesAt, Zooms;
    hide EnoughWeight, GoodScale, ScaleAt, TotalWeight, MassFrom, MedianOf, SameSide, Offset;
    ZoomTranslation(pair, box, t, zoom);
    var center := box.Center();
    var w, s := ScaleWeights(pair, Core(box), center, t), Scales(pair, center, t);
    MassConcat(Zip(w, Xs(s)), Zip(w, Ys(s)), 0.0, false);
    forall i | 0 <= i < MAX_KEYPOINTS && pair.found[i]
      ensures var (before, after) := DistancesAt(pair, center, t, i); after == Point(zoom * before.x, zoom * before.y)
    {
      ZoomOf(pair, center, t, zoom, i);
    }
    UniformZoomRecovered(pair, box, zoom);
  }

  lemma RigidScaleIsOne(pair: FramePair, box: Box, t: Point)
    requires pair.Shaped() && box.Valid() && Translation(pair, box) == t
    requires MovesBy(pair, t)
    ensures ScaleFactor(pair, box) == 1.0
  {
    var items := ScaleItems(pair, box);
    var s := Scales(pair, box.Center(), t);
    forall i | 0 <= i < MAX_KEYPOINTS ensures s[i] == Point(1.0, 1.0) {
      RigidScaleAt(pair, box.Center(), t, i);
    }
    assert forall i :: 0 <= i < |items| ==> items[i].delta == 1.0;
    if TotalWeight(items) >= EPSILON {
      MedianWhenAllEqual(items, 1.0);
    }
  }

  /** With enough weight the scale check of AdjustBox never fails: good scales are positive. */
  lemma MedianScalePositive(pair: FramePair, box: Box)
    requires pair.Shaped() && box.Valid()
    requires TotalWeight(ScaleItems(pair, box)) >= EPSILON
    ensures MedianOf(ScaleItems(pair, box)) > 0.0
  {
    var items := ScaleItems(pair, box);
    var t := Translation(pair, box);
    var s := Scales(pair, box.Center(), t);
    forall i | 0 <= i < MAX_KEYPOINTS ensures s[i].x > 0.0 && s[i].y > 0.0 {
      if GoodScale(pair, box.Center(), t, i) {
        var (before, after) := DistancesAt(pair, box.Center(), t, i);
        PositiveRatio(after.x, before.x);
        PositiveRatio(after.y, before.y);
      }
    }
    assert forall i :: 0 <= i < |items| ==> items[i].delta > 0.0;
    assert IsDelta(items, MedianOf(items));
  }

  lemma PositiveRatio(a: real, b: real)
    requires SameSide(b, a)
    ensures a / b > 0.0
  {
    if a > 0.0 {
      RatioInside(a, b);
    } else {
      RatioInside(-a, -b);
      assert (a / b) * b == a;
      assert ((-a) / (-b)) * b == a;
      assert a / b == (-a) / (-b);
    }
  }
}
