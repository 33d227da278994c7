/**
 When cached lookups return what the uncached recursion would, whatever the flow of the
 frame and whatever points are asked for in whatever order.
 */
module FlowCacheFaithful {
  import opened FlowCaching
  import opened Geometry
  import opened Options

  function Direct(s: Setting, queries: seq<Point>): (r: seq<Point>)
    ensures |r| == |queries|
  {
    seq(|queries|, i requires 0 <= i < |queries| => UncachedGuess(s, queries[i]))
  }

  ghost predicate Faithful(width: nat, height: nat, matrix: Option<Matrix>) {
    forall flow: Flow, queries: seq<Point> ::
      Results(Setting(width, height, matrix, flow), map[], queries)
      == Direct(Setting(width, height, matrix, flow), queries)
  }

  /** Each coarser block is a whole number of finer ones. */
  predicate Nested(size: nat)
    requires size > 0
  {
    BlockSizePositive(size, 0);
    BlockSizePositive(size, 1);
    BlockSize(size, 1) % BlockSize(size, 0) == 0 && BlockSize(size, 2) % BlockSize(size, 1) == 0
  }

  predicate Regular(width: nat, height: nat, matrix: Option<Matrix>) {
    width == 0 || height == 0 ||
    (if matrix.Some? then matrix.value.IsTranslation() else Nested(width) && Nested(height))
  }

  /** Sides divisible by 12, and very small ones, nest. */
  lemma MultiplesOfTwelveNest(size: nat)
    requires size > 0 && (size % 12 == 0 || size <= 6)
    ensures Nested(size)
  {
    hide BlockSize;
    BlockSizes(size);
    if size % 12 == 0 {
      var n := size / 12;
      assert BlockSize(size, 0) == n && BlockSize(size, 1) == 2 * n && BlockSize(size, 2) == 4 * n;
      Multiple(n, 2);
      Multiple(2 * n, 2);
    } else {
      assert BlockSize(size, 0) == 1;
    }
  }

  lemma Multiple(n: nat, k: nat)
    requires n > 0
    ensures (n * k) % n == 0
  {
    assert (n * k) % n == 0 by {
      var q, r := (n * k) / n, (n * k) % n;
      assert n * k == n * q + r;
      assert r == n * (k - q);
      if k - q >= 1 {
        Product(n, k - q);
      } else if k - q < 0 {
        Product(n, q - k);
      }
    }
  }

  lemma Product(n: nat, d: nat)
    requires d >= 1
    ensures n * d >= n
  {
  }

  // ---------------------------------------------------------------------------------------
  // Regular settings are faithful.

  /** Levels whose blocks get stored: with a matrix, only those finer than the cutoff. */
  predicate Stored(s: Setting, level: nat) {
    level < NUM_CACHE_LEVELS && (s.matrix.Some? ==> level < CACHE_CUTOFF)
  }

  /** The uncached value depends on the block only. */
  ghost predicate BlockDetermines(s: Setting) {
    forall level: nat, p, q :: Stored(s, level) && InImage(s, p) && InImage(s, q)
      && KeyAt(s, level, p) == KeyAt(s, level, q)
      ==> Uncached(s, level, p) == Uncached(s, level, q)
  }

  ghost predicate Sound(s: Setting, memo: Memo) {
    forall level: nat, p :: Stored(s, level) && InImage(s, p) && KeyAt(s, level, p) in memo ==>
      memo[KeyAt(s, level, p)] == Uncached(s, level, p)
  }

  lemma {:induction false} LookupSound(s: Setting, memo: Memo, level: nat, p: Point)
    requires BlockDetermines(s) && Sound(s, memo)
    requires level < NUM_CACHE_LEVELS && (s.matrix.Some? ==> level <= CACHE_CUTOFF) && InImage(s, p)
    ensures Lookup(s, memo, level, p).0 == Uncached(s, level, p)
    ensures Sound(s, Lookup(s, memo, level, p).1)
    decreases NUM_CACHE_LEVELS - level
  {
    hide BlockIndex, BlockCenter;
    if Stored(s, level) && KeyAt(s, level, p) !in memo && level < NUM_CACHE_LEVELS - 1 {
      LookupSound(s, memo, level + 1, p);
    }
  }

  lemma {:induction false} ResultsSound(s: Setting, memo: Memo, queries: seq<Point>)
    requires BlockDetermines(s) && Sound(s, memo)
    ensures Results(s, memo, queries) == Direct(s, queries)
    decreases |queries|
  {
    hide Lookup, Uncached, Sound, BlockDetermines;
    if queries != [] {
      var (first, memo') := Guess(s, memo, queries[0]);
      if InImage(s, queries[0]) {
        LookupSound(s, memo, 0, queries[0]);
      }
      ResultsSound(s, memo', queries[1..]);
    }
  }

  /** Indices of nested blocks: the coarse one is the fine one divided. */
  lemma CoarseIndex(b: nat, k: nat, v: real)
    requires b > 0 && k > 0 && v >= 0.0
    ensures (v / b as real).Floor >= 0
    ensures (v / (b * k) as real).Floor == (v / b as real).Floor / k
  {
    DividedTwice(v, b, k);
    FloorOfQuotient(v / b as real, k);
    FloorIs(v, b as real, (v / b as real).Floor);
    Quotient(v, b as real, v / b as real);
  }

  lemma Quotient(v: real, b: real, w: real)
    requires v >= 0.0 && b > 0.0 && w * b == v
    ensures w >= 0.0
  {
  }

  lemma DividedTwice(v: real, b: nat, k: nat)
    requires b > 0 && k > 0
    ensures v / (b * k) as real == v / b as real / k as real
  {
    assert (b * k) as real == b as real * k as real;
    var w := v / b as real / k as real;
    assert w * k as real == v / b as real;
    assert v / b as real * b as real == v;
    assert w * (b as real * k as real) == w * k as real * b as real;
  }

  lemma FloorOfQuotient(w: real, k: nat)
    requires k > 0
    ensures (w / k as real).Floor == w.Floor / k
  {
    var i, j := w.Floor, w.Floor / k;
    assert j * k <= i && i + 1 <= (j + 1) * k;
    assert (j * k) as real == j as real * k as real;
    assert ((j + 1) * k) as real == (j + 1) as real * k as real;
    FloorIs(w, k as real, j);
  }

  lemma DivideExactly(c: nat, b: nat)
    requires c > 0 && b > 0 && c % b == 0
    ensures c == b * (c / b) && c / b > 0
  {
    assert c == b * (c / b) + c % b;
    if c / b <= 0 {
      assert false;
    }
  }

  lemma NestedIndex(size: nat, level: nat, u: real, v: real)
    requires size > 0 && Nested(size) && level < NUM_CACHE_LEVELS - 1
    requires 0.0 <= u && 0.0 <= v
    requires BlockIndex(size, level, u) == BlockIndex(size, level, v)
    ensures BlockIndex(size, level + 1, u) == BlockIndex(size, level + 1, v)
  {
    BlockSizePositive(size, level);
    BlockSizePositive(size, level + 1);
    hide BlockSize;
    var b, c := BlockSize(size, level), BlockSize(size, level + 1);
    var k := c / b;
    assert c % b == 0;
    DivideExactly(c, b);
    CoarseIndex(b, k, u);
    CoarseIndex(b, k, v);
  }

  lemma {:induction false} NestedDetermines(s: Setting, level: nat, p: Point, q: Point)
    requires s.matrix.None? && s.width > 0 && s.height > 0 && Nested(s.width) && Nested(s.height)
    requires level < NUM_CACHE_LEVELS && InImage(s, p) && InImage(s, q)
    requires KeyAt(s, level, p) == KeyAt(s, level, q)
    ensures Uncached(s, level, p) == Uncached(s, level, q)
    decreases NUM_CACHE_LEVELS - level
  {
    hide BlockIndex, BlockCenter, Nested;
    if level < NUM_CACHE_LEVELS - 1 {
      NestedIndex(s.width, level, p.x, q.x);
      NestedIndex(s.height, level, p.y, q.y);
      NestedDetermines(s, level + 1, p, q);
    }
  }

  lemma TranslationDetermines(s: Setting, p: Point, q: Point)
    requires s.matrix.Some? && s.matrix.value.IsTranslation()
    requires InImage(s, p) && InImage(s, q) && KeyAt(s, 0, p) == KeyAt(s, 0, q)
    ensures Uncached(s, 0, p) == Uncached(s, 0, q)
  {
    hide BlockIndex, BlockCenter;
    assert Uncached(s, 1, p) == Point(s.matrix.value.m2, s.matrix.value.m5) == Uncached(s, 1, q);
  }

  lemma RegularDetermines(s: Setting)
    requires Regular(s.width, s.height, s.matrix)
    ensures BlockDetermines(s)
  {
    hide KeyAt, Uncached, Nested;
    forall level: nat, p, q | Stored(s, level) && InImage(s, p) && InImage(s, q)
        && KeyAt(s, level, p) == KeyAt(s, level, q)
      ensures Uncached(s, level, p) == Uncached(s, level, q)
    {
      if s.matrix.Some? {
        TranslationDetermines(s, p, q);
      } else {
        NestedDetermines(s, level, p, q);
      }
    }
  }

  // ---------------------------------------------------------------------------------------
  // Irregular settings are not.

  /** Two coordinates in one block of a level but in different blocks of the next. */
  ghost predicate Straddles(size: nat, level: nat, u: real, v: real)
    requires size > 0
  {
    && level < NUM_CACHE_LEVELS - 1 && 0.0 <= u < size as real && 0.0 <= v < size as real
    && BlockIndex(size, level, u) == BlockIndex(size, level, v)
    && BlockIndex(size, level + 1, u) != BlockIndex(size, level + 1, v)
  }

  lemma NotNestedStraddles(size: nat) returns (level: nat, u: real, v: real)
    requires size > 0 && !Nested(size)
    ensures Straddles(size, level, u, v)
  {
    BlockSizePositive(size, 0);
    BlockSizePositive(size, 1);
    BlockSizePositive(size, 2);
    hide BlockSize;
    BlockSizes(size);
    level := if BlockSize(size, 1) % BlockSize(size, 0) != 0 then 0 else 1;
    StraddleAt(size, level);
    u := (BlockSize(size, level + 1) / BlockSize(size, level) * BlockSize(size, level)) as real;
    v := BlockSize(size, level + 1) as real;
  }

  lemma StraddleAt(size: nat, level: nat)
    requires size > 0 && level < NUM_CACHE_LEVELS - 1 && BlockSize(size, level) > 0
    requires BlockSize(size, level + 1) % BlockSize(size, level) != 0 && BlockSize(size, level + 1) < size
    ensures var b, c := BlockSize(size, level), BlockSize(size, level + 1);
      Straddles(size, level, (c / b * b) as real, c as real)
  {
    hide BlockSize;
    var b, c := BlockSize(size, level), BlockSize(size, level + 1);
    var i := c / b;
    assert c == b * i + c % b;
    if i < 0 {
      assert false;
    }
    StraddlingFloors(i, b, c);
    assert 0 <= i * b;
  }

  lemma StraddlingFloors(i: nat, b: nat, c: nat)
    requires i * b < c < i * b + b
    ensures ((i * b) as real / b as real).Floor == i && (c as real / b as real).Floor == i
    ensures ((i * b) as real / c as real).Floor == 0 && (c as real / c as real).Floor == 1
  {
    FloorWithin(i, b, i * b);
    FloorWithin(i, b, c);
    FloorIs((i * b) as real, c as real, 0);
    FloorIs(c as real, c as real, 1);
  }

  lemma FloorWithin(i: nat, b: nat, c: nat)
    requires i * b <= c < i * b + b
    ensures (c as real / b as real).Floor == i
  {
    assert (i * b) as real == i as real * b as real;
    assert (i * b + b) as real == (i + 1) as real * b as real;
    FloorIs(c as real, b as real, i);
  }

  /** A flow that answers with the block centre on one pyramid level and keeps the guess elsewhere. */
  function CenterOn(pyramidLevel: nat): Flow {
    (level, center, guess) => if level == pyramidLevel then center else guess
  }

  lemma ZeroInImage(size: nat, level: nat)
    requires size > 0 && level < NUM_CACHE_LEVELS
    ensures BlockIndex(size, level, 0.0) == 0
  {
    BlockSizePositive(size, level);
  }

  /** After a first lookup from an empty cache all of the point's blocks hold uncached values. */
  lemma {:induction false} FirstLookup(s: Setting, level: nat, p: Point)
    requires s.matrix.None? && InImage(s, p) && level < NUM_CACHE_LEVELS
    ensures var (r, memo) := Lookup(s, map[], level, p);
      && r == Uncached(s, level, p)
      && (forall key :: key in memo ==> level <= key.level < NUM_CACHE_LEVELS && key == KeyAt(s, key.level, p))
      && (forall l :: level <= l < NUM_CACHE_LEVELS ==>
            KeyAt(s, l, p) in memo && memo[KeyAt(s, l, p)] == Uncached(s, l, p))
    decreases NUM_CACHE_LEVELS - level
  {
    hide BlockIndex, BlockCenter;
    if level < NUM_CACHE_LEVELS - 1 {
      FirstLookup(s, level + 1, p);
    }
  }

  /** With such a flow, levels at or below the centred one just pass its value down. */
  lemma {:induction false} PassedDown(s: Setting, level: nat, target: nat, p: Point)
    requires s.matrix.None? && InImage(s, p) && level <= target < NUM_CACHE_LEVELS
    requires s.flow == CenterOn(PyramidLevel(target))
    ensures Uncached(s, level, p) == BlockCenter(s, KeyAt(s, target, p))
    decreases target - level
  {
    hide BlockIndex, BlockCenter;
    if level < target {
      PassedDown(s, level + 1, target, p);
    }
  }

  /** A later point that shares a block on level `target - 1` gets the first point's value. */
  lemma {:induction false} SecondLookup(s: Setting, memo: Memo, level: nat, target: nat, p: Point, q: Point)
    requires s.matrix.None? && InImage(s, p) && InImage(s, q)
    requires level < target < NUM_CACHE_LEVELS && s.flow == CenterOn(PyramidLevel(target))
    requires forall l :: 0 <= l < target ==>
               KeyAt(s, l, p) in memo && memo[KeyAt(s, l, p)] == BlockCenter(s, KeyAt(s, target, p))
    requires forall key :: key in memo ==> key.level < NUM_CACHE_LEVELS && key == KeyAt(s, key.level, p)
    requires KeyAt(s, target - 1, p) == KeyAt(s, target - 1, q)
    ensures Lookup(s, memo, level, q).0 == BlockCenter(s, KeyAt(s, target, p))
    decreases target - level
  {
    hide BlockIndex, BlockCenter;
    if level < target - 1 && KeyAt(s, level, q) !in memo {
      SecondLookup(s, memo, level + 1, target, p, q);
    }
  }

  lemma StraddlingUnfaithful(width: nat, height: nat, target: nat, p: Point, q: Point)
    requires 0 < target < NUM_CACHE_LEVELS
    requires 0.0 <= p.x < width as real && 0.0 <= p.y < height as real
    requires 0.0 <= q.x < width as real && 0.0 <= q.y < height as real
    requires var s := Setting(width, height, None, CenterOn(PyramidLevel(target)));
      KeyAt(s, target - 1, p) == KeyAt(s, target - 1, q) && KeyAt(s, target, p) != KeyAt(s, target, q)
    ensures !Faithful(width, height, None)
  {
    var s := Setting(width, height, None, CenterOn(PyramidLevel(target)));
    assert Results(s, map[], [p, q]) != Direct(s, [p, q]) by {
      hide KeyAt, BlockCenter, Lookup, Uncached;
      FirstLookup(s, 0, p);
      var memo := Lookup(s, map[], 0, p).1;
      forall l | 0 <= l < target
        ensures KeyAt(s, l, p) in memo && memo[KeyAt(s, l, p)] == BlockCenter(s, KeyAt(s, target, p))
      {
        PassedDown(s, l, target, p);
      }
      SecondLookup(s, memo, 0, target, p, q);
      PassedDown(s, 0, target, q);
      CentersDiffer(s, target, p, q);
      TwoResults(s, p, q);
    }
  }

  lemma CentersDiffer(s: Setting, level: nat, p: Point, q: Point)
    requires level < NUM_CACHE_LEVELS && InImage(s, p) && InImage(s, q)
    requires KeyAt(s, level, p) != KeyAt(s, level, q)
    ensures BlockCenter(s, KeyAt(s, level, p)) != BlockCenter(s, KeyAt(s, level, q))
  {
    hide BlockSize, BlockIndex, BlockDim;
    var w, h := BlockSize(s.width, level), BlockSize(s.height, level);
    assert w > 0 && h > 0 by {
      BlockSizePositive(s.width, level);
      BlockSizePositive(s.height, level);
    }
    var k, l := KeyAt(s, level, p), KeyAt(s, level, q);
    if k.column != l.column {
      CenterInjective(k.column, l.column, w as real);
    } else {
      CenterInjective(k.row, l.row, h as real);
    }
  }

  lemma CenterInjective(i: int, j: int, b: real)
    requires b > 0.0 && i != j
    ensures (i as real + 0.5) * b != (j as real + 0.5) * b
  {
    ProductInjective(i as real + 0.5, j as real + 0.5, b);
  }

  lemma ProductInjective(x: real, y: real, b: real)
    requires b > 0.0 && x != y
    ensures x * b != y * b
  {
    Scaled(x, y, y * b, b);
    Scaled(y, x, x * b, b);
  }

  lemma TwoResults(s: Setting, p: Point, q: Point)
    requires InImage(s, p) && InImage(s, q)
    ensures Results(s, map[], [p, q])[1] == Lookup(s, Lookup(s, map[], 0, p).1, 0, q).0
    ensures Direct(s, [p, q])[1] == Uncached(s, 0, q)
  {
    hide KeyAt, BlockCenter, Lookup, Uncached;
    var rest := Results(s, Guess(s, map[], p).1, [q]);
    assert [p, q][1..] == [q];
    assert Results(s, map[], [p, q]) == [Guess(s, map[], p).0] + rest;
    assert rest[0] == Guess(s, Guess(s, map[], p).1, q).0;
  }

  /** With a matrix that is no translation, the first point asked in a block wins. */
  lemma MatrixUnfaithful(width: nat, height: nat, matrix: Matrix)
    requires width > 0 && height > 0 && !matrix.IsTranslation()
    ensures !Faithful(width, height, Some(matrix))
  {
    var s := Setting(width, height, Some(matrix), (level, center, guess) => guess);
    var p := Point(0.0, 0.0);
    var q := if matrix.m0 != 1.0 || matrix.m3 != 0.0 then Point(0.5, 0.0) else Point(0.0, 0.5);
    BlockSizePositive(width, 0);
    BlockSizePositive(height, 0);
    FloorIs(0.5, BlockSize(width, 0) as real, 0);
    FloorIs(0.5, BlockSize(height, 0) as real, 0);
    ZeroInImage(width, 0);
    ZeroInImage(height, 0);
    assert KeyAt(s, 0, p) == KeyAt(s, 0, q);
    assert matrix.Displacement(p) != matrix.Displacement(q);
    assert Results(s, map[], [p, q]) != Direct(s, [p, q]) by {
      hide KeyAt, BlockCenter;
      TwoResults(s, p, q);
      var memo := Lookup(s, map[], 0, p).1;
      assert memo == map[KeyAt(s, 0, p) := matrix.Displacement(p)];
      assert Lookup(s, memo, 0, q).0 == matrix.Displacement(p);
      assert Uncached(s, 0, q) == matrix.Displacement(q);
    }
  }

  lemma NotNestedUnfaithful(width: nat, height: nat)
    requires width > 0 && height > 0 && !(Nested(width) && Nested(height))
    ensures !Faithful(width, height, None)
  {
    if !Nested(width) {
      var level, u, v := NotNestedStraddles(width);
      ZeroInImage(height, level);
      ZeroInImage(height, level + 1);
      StraddlingUnfaithful(width, height, level + 1, Point(u, 0.0), Point(v, 0.0));
    } else {
      var level, u, v := NotNestedStraddles(height);
      ZeroInImage(width, level);
      ZeroInImage(width, level + 1);
      StraddlingUnfaithful(width, height, level + 1, Point(0.0, u), Point(0.0, v));
    }
  }

  /**
   For every image size and alignment: cached lookups equal uncached ones, for all flows and
   all query sequences, exactly when the image is empty, or the matrix is a pure translation,
   or there is no matrix and the blocks nest in both directions.
   */
  lemma FaithfulExactlyWhenRegular(width: nat, height: nat, matrix: Option<Matrix>)
    ensures Faithful(width, height, matrix) <==> Regular(width, height, matrix)
  {
    hide Nested, Results, Direct;
    if Regular(width, height, matrix) {
      forall flow: Flow, queries: seq<Point>
        ensures Results(Setting(width, height, matrix, flow), map[], queries)
             == Direct(Setting(width, height, matrix, flow), queries)
      {
        var s := Setting(width, height, matrix, flow);
        RegularDetermines(s);
        ResultsSound(s, map[], queries);
      }
    } else if matrix.Some? {
      MatrixUnfaithful(width, height, matrix.value);
    } else {
      NotNestedUnfaithful(width, height);
    }
  }
}
