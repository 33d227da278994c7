/**
 The block cache in front of optical flow (flow_cache.h): three levels of blocks, each
 holding one displacement that was seeded from the next coarser level.
 */
module FlowCaching {
  import opened Geometry
  import opened Options

  const NUM_CACHE_LEVELS: nat := 3
  const CACHE_BRANCH_FACTOR: nat := 2
  const CACHE_CUTOFF: nat := 1
  const NUM_PYRAMID_LEVELS: nat := 4

  /** A 2x3 alignment matrix, row by row. */
  datatype Matrix = Matrix(m0: real, m1: real, m2: real, m3: real, m4: real, m5: real) {
    function Displacement(p: Point): Point {
      Point(p.x * m0 + p.y * m1 + m2 - p.x, p.x * m3 + p.y * m4 + m5 - p.y)
    }

    predicate IsTranslation() {
      m0 == 1.0 && m1 == 0.0 && m3 == 0.0 && m4 == 1.0
    }
  }

  /** Refines a guess at a point on one pyramid level of the current pair of frames. */
  type Flow = (nat, Point, Point) -> Point

  /** What a lookup depends on besides the cache. */
  datatype Setting = Setting(width: nat, height: nat, matrix: Option<Matrix>, flow: Flow)

  datatype Key = Key(level: nat, row: int, column: int)

  type Memo = map<Key, Point>

  // ---------------------------------------------------------------------------------------
  // Blocks.

  /** Blocks per side: 3 on the coarsest level, twice as many on each finer one. */
  function BlockDim(level: nat): (dim: nat)
    requires level < NUM_CACHE_LEVELS
    ensures dim > 0
    decreases NUM_CACHE_LEVELS - level
  {
    if level == NUM_CACHE_LEVELS - 1 then NUM_CACHE_LEVELS else BlockDim(level + 1) * CACHE_BRANCH_FACTOR
  }

  lemma {:induction false} FinestDim(level: nat)
    requires level < NUM_CACHE_LEVELS
    ensures BlockDim(level) <= BlockDim(0)
  {
    if level > 0 {
      FinestDim(level - 1);
    }
  }

  method BlockDimForCacheLevel(cacheLevel: nat) returns (blockDim: nat)
    requires cacheLevel < NUM_CACHE_LEVELS
    ensures blockDim == BlockDim(cacheLevel)
  {
    blockDim := NUM_CACHE_LEVELS;
    var currLevel := NUM_CACHE_LEVELS - 1;
    while currLevel > cacheLevel
      invariant cacheLevel <= currLevel < NUM_CACHE_LEVELS
      invariant blockDim == BlockDim(currLevel)
    {
      blockDim := blockDim * CACHE_BRANCH_FACTOR;
      currLevel := currLevel - 1;
    }
  }

  /** Pixels per block along a side of `size` pixels, rounded up. */
  function BlockSize(size: nat, level: nat): nat
    requires level < NUM_CACHE_LEVELS
  {
    (size + BlockDim(level) - 1) / BlockDim(level)
  }

  lemma BlockSizePositive(size: nat, level: nat)
    requires level < NUM_CACHE_LEVELS && size > 0
    ensures 0 < BlockSize(size, level)
    ensures BlockSize(size, level) * BlockDim(level) >= size
  {
    var dim := BlockDim(level);
    var n := size + dim - 1;
    assert n == dim * (n / dim) + n % dim;
    Quotient(n, dim);
  }

  lemma Quotient(n: nat, d: nat)
    requires 0 < d
    ensures d <= n ==> n / d > 0
  {
    assert n == d * (n / d) + n % d;
  }

  lemma BlockSizes(size: nat)
    ensures BlockDim(0) == 12 && BlockDim(1) == 6 && BlockDim(2) == 3
    ensures BlockSize(size, 0) == (size + 11) / 12
    ensures BlockSize(size, 1) == (size + 5) / 6
    ensures BlockSize(size, 2) == (size + 2) / 3
  {
  }

  /** Index of the block that covers v. */
  function BlockIndex(size: nat, level: nat, v: real): int
    requires level < NUM_CACHE_LEVELS && size > 0
  {
    BlockSizePositive(size, level);
    (v / BlockSize(size, level) as real).Floor
  }

  predicate InImage(s: Setting, p: Point) {
    0.0 <= p.x < s.width as real && 0.0 <= p.y < s.height as real
  }

  function KeyAt(s: Setting, level: nat, p: Point): Key
    requires level < NUM_CACHE_LEVELS && InImage(s, p)
  {
    Key(level, BlockIndex(s.height, level, p.y), BlockIndex(s.width, level, p.x))
  }

  function BlockCenter(s: Setting, key: Key): Point
    requires key.level < NUM_CACHE_LEVELS
  {
    Point((key.column as real + 0.5) * BlockSize(s.width, key.level) as real,
          (key.row as real + 0.5) * BlockSize(s.height, key.level) as real)
  }

  function PyramidLevel(level: nat): nat {
    level + (NUM_PYRAMID_LEVELS - NUM_CACHE_LEVELS)
  }

  /** Floor of a quotient, as the multiple it sits on. */
  lemma FloorIs(v: real, size: real, i: int)
    requires size > 0.0
    ensures (v / size).Floor == i <==> i as real * size <= v < (i + 1) as real * size
  {
    FloorOfMultiple(v / size, v, size, i);
  }

  lemma FloorOfMultiple(q: real, v: real, size: real, i: int)
    requires size > 0.0 && q * size == v
    ensures q.Floor == i <==> i as real * size <= v < (i + 1) as real * size
  {
    assert q.Floor == i <==> i as real <= q < i as real + 1.0;
    assert (i + 1) as real == i as real + 1.0;
    Scaled(i as real, q, v, size);
    Scaled((i + 1) as real, q, v, size);
  }

  lemma Scaled(a: real, q: real, v: real, size: real)
    requires size > 0.0 && q * size == v
    ensures a <= q <==> a * size <= v
  {
    if a < q {
      assert q * size - a * size == (q - a) * size > 0.0;
    } else if a > q {
      assert a * size - q * size == (a - q) * size > 0.0;
    }
  }

  /** For every image size the block index of a point in the image is in range. */
  lemma BlockInRange(size: nat, level: nat, v: real)
    requires level < NUM_CACHE_LEVELS && size > 0
    requires 0.0 <= v < size as real
    ensures 0 <= BlockIndex(size, level, v) < BlockDim(level)
  {
    hide BlockSize, BlockDim;
    BlockSizePositive(size, level);
    FloorIs(v, BlockSize(size, level) as real, BlockIndex(size, level, v));
    IndexBounds(BlockSize(size, level), BlockDim(level), size, v, BlockIndex(size, level, v));
  }

  lemma IndexBounds(b: nat, dim: nat, size: nat, v: real, i: int)
    requires b > 0 && b * dim >= size && 0.0 <= v < size as real
    requires i as real * b as real <= v < (i + 1) as real * b as real
    ensures 0 <= i < dim
  {
    assert dim as real * b as real == (b * dim) as real;
    if i < 0 {
      Scaled((i + 1) as real, 0.0, 0.0, b as real);
    }
    if i >= dim {
      Scaled(dim as real, i as real, i as real * b as real, b as real);
    }
  }

  // ---------------------------------------------------------------------------------------
  // Lookups as functions: without a cache, and with one.

  /** The recursion a lookup would run if nothing were ever stored. */
  function Uncached(s: Setting, level: nat, p: Point): Point
    requires level < NUM_CACHE_LEVELS && InImage(s, p)
    decreases NUM_CACHE_LEVELS - level
  {
    if s.matrix.Some? && level == CACHE_CUTOFF then s.matrix.value.Displacement(p)
    else
      var guess := if level >= NUM_CACHE_LEVELS - 1 then Point(0.0, 0.0) else Uncached(s, level + 1, p);
      s.flow(PyramidLevel(level), BlockCenter(s, KeyAt(s, level, p)), guess)
  }

  /** The value a lookup returns and the cache it leaves. */
  function Lookup(s: Setting, memo: Memo, level: nat, p: Point): (r: (Point, Memo))
    requires level < NUM_CACHE_LEVELS && InImage(s, p)
    ensures forall key: Key :: key.level < level ==>
              (key in r.1 <==> key in memo) && (key in memo ==> r.1[key] == memo[key])
    decreases NUM_CACHE_LEVELS - level
  {
    var key := KeyAt(s, level, p);
    if s.matrix.Some? && level == CACHE_CUTOFF then (s.matrix.value.Displacement(p), memo)
    else if key in memo then (memo[key], memo)
    else
      var guess := if level >= NUM_CACHE_LEVELS - 1 then (Point(0.0, 0.0), memo) else Lookup(s, memo, level + 1, p);
      var displacement := s.flow(PyramidLevel(level), BlockCenter(s, key), guess.0);
      (displacement, guess.1[key := displacement])
  }

  function Guess(s: Setting, memo: Memo, p: Point): (Point, Memo) {
    if InImage(s, p) then Lookup(s, memo, 0, p) else (Point(0.0, 0.0), memo)
  }

  function UncachedGuess(s: Setting, p: Point): Point {
    if InImage(s, p) then Uncached(s, 0, p) else Point(0.0, 0.0)
  }

  /** Centre of the interval of `pixels` pixels that holds v. */
  function Centered(v: real, pixels: nat): real
    requires pixels > 0
  {
    ((v / pixels as real).Floor as real + 0.5) * pixels as real
  }

  /** One row of a matrix applied to a point. */
  function Combined(a: real, b: real, c: real, p: Point): real {
    p.x * a + p.y * b + c
  }

  /**
   The guess from an empty cache, written out: from the coarsest of the pyramid levels 3, 2
   and 1 down, at the centres of blocks of a third, a sixth and a twelfth of the image; with
   a matrix, on level 1 only, from the displacement that the matrix gives.
   */
  function FirstGuess(width: nat, height: nat, matrix: Option<Matrix>, flow: Flow, p: Point): Point {
    if !(0.0 <= p.x < width as real && 0.0 <= p.y < height as real) then Point(0.0, 0.0)
    else
      var twelfth := Point(Centered(p.x, (width + 11) / 12), Centered(p.y, (height + 11) / 12));
      var sixth := Point(Centered(p.x, (width + 5) / 6), Centered(p.y, (height + 5) / 6));
      var third := Point(Centered(p.x, (width + 2) / 3), Centered(p.y, (height + 2) / 3));
      match matrix
      case None => flow(1, twelfth, flow(2, sixth, flow(3, third, Point(0.0, 0.0))))
      case Some(m) =>
        flow(1, twelfth, Point(Combined(m.m0, m.m1, m.m2, p) - p.x, Combined(m.m3, m.m4, m.m5, p) - p.y))
  }

  lemma CenterSpelledOut(s: Setting, level: nat, p: Point)
    requires level < NUM_CACHE_LEVELS && InImage(s, p)
    ensures BlockSize(s.width, level) > 0 && BlockSize(s.height, level) > 0
    ensures BlockCenter(s, KeyAt(s, level, p))
         == Point(Centered(p.x, BlockSize(s.width, level)), Centered(p.y, BlockSize(s.height, level)))
  {
    hide BlockSize, BlockIndex, Centered;
    BlockSizePositive(s.width, level);
    BlockSizePositive(s.height, level);
    CenteredOnBlock(s.width, level, p.x);
    CenteredOnBlock(s.height, level, p.y);
  }

  lemma CenteredOnBlock(size: nat, level: nat, v: real)
    requires level < NUM_CACHE_LEVELS && BlockSize(size, level) > 0 && size > 0
    ensures Centered(v, BlockSize(size, level))
         == (BlockIndex(size, level, v) as real + 0.5) * BlockSize(size, level) as real
  {
    hide BlockSize;
  }

  /** The recursion and a lookup from an empty cache are the guess written out. */
  lemma FirstGuessIs(s: Setting, p: Point)
    ensures UncachedGuess(s, p) == FirstGuess(s.width, s.height, s.matrix, s.flow, p)
    ensures Guess(s, map[], p).0 == FirstGuess(s.width, s.height, s.matrix, s.flow, p)
  {
    hide BlockCenter, BlockSize, BlockIndex, Centered, Uncached, Lookup, Combined, Matrix.Displacement;
    if InImage(s, p) {
      BlockSizes(s.width);
      BlockSizes(s.height);
      CenterSpelledOut(s, 0, p);
      CenterSpelledOut(s, 1, p);
      CenterSpelledOut(s, 2, p);
      LevelsSpelledOut(s, p);
      if s.matrix.Some? {
        DisplacementSpelledOut(s.matrix.value, p);
      }
    }
  }

  lemma DisplacementSpelledOut(m: Matrix, p: Point)
    ensures m.Displacement(p) == Point(Combined(m.m0, m.m1, m.m2, p) - p.x, Combined(m.m3, m.m4, m.m5, p) - p.y)
  {
    assert m.Displacement(p).x == p.x * m.m0 + p.y * m.m1 + m.m2 - p.x;
    assert m.Displacement(p).y == p.x * m.m3 + p.y * m.m4 + m.m5 - p.y;
    assert Combined(m.m0, m.m1, m.m2, p) == p.x * m.m0 + p.y * m.m1 + m.m2;
    assert Combined(m.m3, m.m4, m.m5, p) == p.x * m.m3 + p.y * m.m4 + m.m5;
  }

  lemma LevelsSpelledOut(s: Setting, p: Point)
    requires InImage(s, p)
    ensures Uncached(s, 0, p) == Lookup(s, map[], 0, p).0
         == match s.matrix
            case Some(m) => s.flow(1, BlockCenter(s, KeyAt(s, 0, p)), m.Displacement(p))
            case None =>
              s.flow(1, BlockCenter(s, KeyAt(s, 0, p)),
                     s.flow(2, BlockCenter(s, KeyAt(s, 1, p)),
                            s.flow(3, BlockCenter(s, KeyAt(s, 2, p)), Point(0.0, 0.0))))
  {
    hide BlockCenter, BlockIndex;
    assert s.matrix.None? ==> Uncached(s, 2, p) == Lookup(s, map[], 2, p).0;
    assert s.matrix.None? ==> Uncached(s, 1, p) == Lookup(s, map[], 1, p).0;
  }

  /** The results of a sequence of lookups within one frame. */
  function Results(s: Setting, memo: Memo, queries: seq<Point>): (r: seq<Point>)
    ensures |r| == |queries|
    decreases |queries|
  {
    if queries == [] then []
    else [Guess(s, memo, queries[0]).0] + Results(s, Guess(s, memo, queries[0]).1, queries[1..])
  }

  // ---------------------------------------------------------------------------------------
  // The class.

  /** The per-level images are the layers of one array each. */
  class FlowCache {
    const width: nat
    const height: nat
    const hasCache: array3<bool>
    const displacements: array3<Point>
    var matrix: Option<Matrix>
    var flow: Flow

    ghost var memo: Memo

    ghost predicate Shaped()
    {
      && hasCache.Length0 == displacements.Length0 == NUM_CACHE_LEVELS
      && hasCache.Length1 == hasCache.Length2 == BlockDim(0)
      && displacements.Length1 == displacements.Length2 == BlockDim(0)
    }

    /** One level's layer holds exactly its part of the memo, except perhaps at one block. */
    ghost predicate LayerHoldsBut(l: nat, row: int, column: int)
      requires Shaped() && l < NUM_CACHE_LEVELS
      reads this`memo, hasCache, displacements
    {
      FinestDim(l);
      forall i, j :: 0 <= i < BlockDim(l) && 0 <= j < BlockDim(l) && (i, j) != (row, column) ==>
        && (hasCache[l, i, j] <==> Key(l, i, j) in memo)
        && (hasCache[l, i, j] ==> displacements[l, i, j] == memo[Key(l, i, j)])
    }

    ghost predicate Holds(level: nat)
      requires Shaped()
      reads this`memo, hasCache, displacements
    {
      forall l :: level <= l < NUM_CACHE_LEVELS ==> LayerHoldsBut(l, -1, -1)
    }

    ghost predicate Valid()
      reads this`memo, hasCache, displacements
    {
      Shaped() && Holds(0)
    }

    function Current(): Setting
      reads this
    {
      Setting(width, height, matrix, flow)
    }

    constructor (width: nat, height: nat, flow: Flow)
      ensures Valid() && this.width == width && this.height == height
      ensures memo == map[] && matrix == None && this.flow == flow
      ensures fresh(hasCache) && fresh(displacements)
    {
      this.width, this.height, this.flow := width, height, flow;
      matrix, memo := None, map[];
      var dim := BlockDim(0);
      hasCache := new bool[NUM_CACHE_LEVELS, dim, dim]((_, _, _) => false);
      displacements := new Point[NUM_CACHE_LEVELS, dim, dim]((_, _, _) => Point(0.0, 0.0));
    }

    /** No value survives, and neither does the matrix. */
    method ClearCache()
      requires Shaped()
      modifies this`matrix, this`memo, hasCache
      ensures Valid() && memo == map[] && matrix == None
    {
      for l := 0 to NUM_CACHE_LEVELS
        invariant forall k, i, j :: 0 <= k < l && 0 <= i < BlockDim(0) && 0 <= j < BlockDim(0) ==> !hasCache[k, i, j]
      {
        forall i, j | 0 <= i < BlockDim(0) && 0 <= j < BlockDim(0) {
          hasCache[l, i, j] := false;
        }
      }
      memo := map[];
      matrix := None;
      forall l | 0 <= l < NUM_CACHE_LEVELS ensures LayerHoldsBut(l, -1, -1) {
        FinestDim(l);
      }
      assert Holds(0);
    }

    method NextFrame(newFlow: Flow, alignMatrix: Option<Matrix>)
      requires Shaped()
      modifies this`matrix, this`memo, this`flow, hasCache
      ensures Valid() && memo == map[]
      ensures Current() == Setting(width, height, alignMatrix, newFlow)
    {
      ClearCache();
      matrix := alignMatrix;
      flow := newFlow;
    }

    /** Layers finer than `level` keep their contents. */
    twostate predicate FinerUnchanged(level: nat)
      requires Shaped() && level < NUM_CACHE_LEVELS
      reads this`memo, hasCache, displacements
    {
      forall l, i, j :: 0 <= l < level && 0 <= i < BlockDim(0) && 0 <= j < BlockDim(0) ==>
        hasCache[l, i, j] == old(hasCache[l, i, j]) && displacements[l, i, j] == old(displacements[l, i, j])
    }

    predicate Flag(level: nat, row: nat, column: nat)
      requires Shaped() && level < NUM_CACHE_LEVELS && row < BlockDim(level) && column < BlockDim(level)
      reads hasCache
    {
      FinestDim(level);
      hasCache[level, row, column]
    }

    function Value(level: nat, row: nat, column: nat): Point
      requires Shaped() && level < NUM_CACHE_LEVELS && row < BlockDim(level) && column < BlockDim(level)
      reads displacements
    {
      FinestDim(level);
      displacements[level, row, column]
    }

    /** The flag goes up before the value is known. */
    method Claim(level: nat, row: nat, column: nat)
      requires Shaped() && level < NUM_CACHE_LEVELS && Holds(level)
      requires row < BlockDim(level) && column < BlockDim(level)
      modifies hasCache
      ensures Holds(level + 1) && LayerHoldsBut(level, row, column)
      ensures Flag(level, row, column)
      ensures FinerUnchanged(level)
    {
      FinestDim(level);
      assert LayerHoldsBut(level, -1, -1);
      hasCache[level, row, column] := true;
      forall l | level < l < NUM_CACHE_LEVELS ensures LayerHoldsBut(l, -1, -1) {
        FinestDim(l);
        assert old(LayerHoldsBut(l, -1, -1));
      }
    }

    method Store(level: nat, row: nat, column: nat, displacement: Point)
      requires Shaped() && level < NUM_CACHE_LEVELS
      requires row < BlockDim(level) && column < BlockDim(level)
      requires Holds(level + 1) && LayerHoldsBut(level, row, column)
      requires Flag(level, row, column)
      modifies this`memo, displacements
      ensures Holds(level) && memo == old(memo)[Key(level, row, column) := displacement]
      ensures FinerUnchanged(level)
    {
      FinestDim(level);
      displacements[level, row, column] := displacement;
      memo := memo[Key(level, row, column) := displacement];
      forall l | level <= l < NUM_CACHE_LEVELS ensures LayerHoldsBut(l, -1, -1) {
        FinestDim(l);
        assert l != level ==> old(LayerHoldsBut(l, -1, -1));
      }
    }

    method LookupGuessFromLevel(cacheLevel: nat, p: Point) returns (displacement: Point)
      requires Shaped() && cacheLevel < NUM_CACHE_LEVELS && InImage(Current(), p)
      requires Holds(cacheLevel)
      modifies this`memo, hasCache, displacements
      ensures Holds(cacheLevel)
      ensures (displacement, memo) == Lookup(Current(), old(memo), cacheLevel, p)
      ensures FinerUnchanged(cacheLevel)
      decreases NUM_CACHE_LEVELS - cacheLevel
    {
      hide BlockIndex, BlockCenter, BlockDim, Holds;
      if matrix.Some? && cacheLevel == CACHE_CUTOFF {
        return matrix.value.Displacement(p);
      }
      var s := Current();
      var key := KeyAt(s, cacheLevel, p);
      var indexX, indexY := key.column, key.row;
      BlockInRange(width, cacheLevel, p.x);
      BlockInRange(height, cacheLevel, p.y);
      FinestDim(cacheLevel);
      BlockHolds(cacheLevel, indexY, indexX);
      if !hasCache[cacheLevel, indexY, indexX] {
        Claim(cacheLevel, indexY, indexX);
        if cacheLevel >= NUM_CACHE_LEVELS - 1 {
          displacement := Point(0.0, 0.0);
        } else {
          label Claimed:
          displacement := LookupGuessFromLevel(cacheLevel + 1, p);
          assert LayerHoldsBut(cacheLevel, indexY, indexX) by {
            assert old@Claimed(LayerHoldsBut(cacheLevel, indexY, indexX));
          }
        }
        displacement := flow(PyramidLevel(cacheLevel), BlockCenter(s, key), displacement);
        Store(cacheLevel, indexY, indexX, displacement);
      } else {
        displacement := displacements[cacheLevel, indexY, indexX];
      }
    }

    lemma BlockHolds(level: nat, row: nat, column: nat)
      requires Shaped() && level < NUM_CACHE_LEVELS && row < BlockDim(level) && column < BlockDim(level)
      requires Holds(level)
      ensures Flag(level, row, column) <==> Key(level, row, column) in memo
      ensures Flag(level, row, column) ==> Value(level, row, column) == memo[Key(level, row, column)]
    {
      assert LayerHoldsBut(level, -1, -1);
    }

    method LookupGuess(p: Point) returns (guess: Point)
      requires Valid()
      modifies this`memo, hasCache, displacements
      ensures Valid()
      ensures (guess, memo) == Guess(Current(), old(memo), p)
      ensures old(memo) == map[] ==> guess == FirstGuess(width, height, matrix, flow, p)
    {
      FirstGuessIs(Current(), p);
      if p.x < 0.0 || p.x >= width as real || p.y < 0.0 || p.y >= height as real {
        return Point(0.0, 0.0);
      }
      guess := LookupGuessFromLevel(0, p);
    }
  }
}
