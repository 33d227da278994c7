/**
 The weighted median of frame_pair.cc.  Weights of entries that do not count are zero or
 negative, so every definition below looks at entries of positive weight only.
 */
module WeightedMedian {

  /** Tolerance of the tracker's bounds checks (utils.h). */
  const EPSILON: real := 0.00001

  datatype WeightedDelta = WeightedDelta(weight: real, delta: real)

  // ---------------------------------------------------------------------------------------
  // What a weighted median is, independently of any order of the entries.

  /** The weight an entry contributes to the part of the scale that starts at `lo`. */
  function WeightFrom(item: WeightedDelta, lo: real, strict: bool): real {
    if item.weight > 0.0 && (if strict then item.delta > lo else item.delta >= lo)
    then item.weight else 0.0
  }

  /** Weight at or above `d`; strictly above it when `strict`. */
  function MassFrom(items: seq<WeightedDelta>, d: real, strict: bool): (mass: real)
    ensures mass >= 0.0
  {
    if items == [] then 0.0 else WeightFrom(items[0], d, strict) + MassFrom(items[1..], d, strict)
  }

  function TotalWeight(items: seq<WeightedDelta>): (total: real)
    ensures total >= 0.0
  {
    if items == [] then 0.0
    else (if items[0].weight > 0.0 then items[0].weight else 0.0) + TotalWeight(items[1..])
  }

  ghost predicate IsDelta(items: seq<WeightedDelta>, d: real) {
    exists i :: 0 <= i < |items| && items[i].weight > 0.0 && items[i].delta == d
  }

  ghost predicate IsWeightedMedian(items: seq<WeightedDelta>, d: real) {
    && IsDelta(items, d)
    && MassFrom(items, d, true) < TotalWeight(items) / 2.0 <= MassFrom(items, d, false)
  }

  /** The function GetMedian is meant to compute, entries in any order. */
  ghost function MedianOf(items: seq<WeightedDelta>): (d: real)
    ensures TotalWeight(items) >= EPSILON ==> IsWeightedMedian(items, d)
    ensures TotalWeight(items) < EPSILON ==> d == 0.0
  {
    if TotalWeight(items) < EPSILON then 0.0
    else
      MedianExists(items);
      var d :| IsWeightedMedian(items, d);
      d
  }

  // ---------------------------------------------------------------------------------------
  // Masses.

  lemma {:induction false} MassConcat(a: seq<WeightedDelta>, b: seq<WeightedDelta>, d: real, strict: bool)
    ensures MassFrom(a + b, d, strict) == MassFrom(a, d, strict) + MassFrom(b, d, strict)
    ensures TotalWeight(a + b) == TotalWeight(a) + TotalWeight(b)
  {
    if a == [] {
      assert a + b == b;
    } else {
      assert (a + b)[1..] == a[1..] + b;
      MassConcat(a[1..], b, d, strict);
    }
  }

  lemma MassWithout(b: seq<WeightedDelta>, k: nat, d: real, strict: bool)
    requires k < |b|
    ensures MassFrom(b, d, strict) == WeightFrom(b[k], d, strict) + MassFrom(b[..k] + b[k + 1..], d, strict)
    ensures TotalWeight(b) == TotalWeight([b[k]]) + TotalWeight(b[..k] + b[k + 1..])
    ensures multiset(b) == multiset{b[k]} + multiset(b[..k] + b[k + 1..])
  {
    assert b == b[..k] + ([b[k]] + b[k + 1..]);
    MassConcat(b[..k], [b[k]] + b[k + 1..], d, strict);
    MassConcat([b[k]], b[k + 1..], d, strict);
    MassConcat(b[..k], b[k + 1..], d, strict);
  }

  lemma Cancel(x: WeightedDelta, m: multiset<WeightedDelta>, n: multiset<WeightedDelta>)
    requires multiset{x} + m == multiset{x} + n
    ensures m == n
  {
    assert m == (multiset{x} + m) - multiset{x};
    assert n == (multiset{x} + n) - multiset{x};
  }

  lemma {:induction false} MassOfPermutation(a: seq<WeightedDelta>, b: seq<WeightedDelta>, d: real, strict: bool)
    requires multiset(a) == multiset(b)
    ensures MassFrom(a, d, strict) == MassFrom(b, d, strict)
    ensures TotalWeight(a) == TotalWeight(b)
  {
    hide WeightFrom, MassFrom, TotalWeight;
    if a == [] {
      assert |multiset(b)| == 0;
    } else {
      assert a[0] in multiset(b);
      var k :| 0 <= k < |b| && b[k] == a[0];
      var rest := b[..k] + b[k + 1..];
      MassWithout(b, k, d, strict);
      MassWithout(a, 0, d, strict);
      assert a[..0] + a[0 + 1..] == a[1..];
      Cancel(a[0], multiset(a[1..]), multiset(rest));
      MassOfPermutation(a[1..], rest, d, strict);
    }
  }

  /** A higher threshold leaves no more mass; a gap between thresholds turns >= into >. */
  lemma {:induction false} MassAntitone(items: seq<WeightedDelta>, d: real, e: real)
    requires d < e
    ensures MassFrom(items, e, false) <= MassFrom(items, d, true)
    ensures MassFrom(items, d, true) <= MassFrom(items, d, false) <= TotalWeight(items)
  {
    if items != [] {
      MassAntitone(items[1..], d, e);
    }
  }

  /** Mass at or above d is all the weight when every counted delta is at least d. */
  lemma {:induction false} MassAllAtLeast(items: seq<WeightedDelta>, d: real)
    requires forall i :: 0 <= i < |items| ==> items[i].delta >= d
    ensures MassFrom(items, d, false) == TotalWeight(items)
  {
    if items != [] {
      MassAllAtLeast(items[1..], d);
    }
  }

  lemma {:induction false} MassNoneAbove(items: seq<WeightedDelta>, d: real)
    requires forall i :: 0 <= i < |items| ==> items[i].delta <= d
    ensures MassFrom(items, d, true) == 0.0
  {
    if items != [] {
      MassNoneAbove(items[1..], d);
    }
  }

  /** Entries that agree wherever the weight is positive have the same masses. */
  lemma {:induction false} MassIgnoresUnweighted(a: seq<WeightedDelta>, b: seq<WeightedDelta>, d: real, strict: bool)
    requires SameWhereWeighted(a, b)
    ensures MassFrom(a, d, strict) == MassFrom(b, d, strict)
    ensures TotalWeight(a) == TotalWeight(b)
  {
    if a != [] {
      MassIgnoresUnweighted(a[1..], b[1..], d, strict);
    }
  }

  ghost predicate SameWhereWeighted(a: seq<WeightedDelta>, b: seq<WeightedDelta>) {
    && |a| == |b|
    && forall i :: 0 <= i < |a| ==>
         && a[i].weight == b[i].weight
         && (a[i].weight > 0.0 ==> a[i].delta == b[i].delta)
  }

  // ---------------------------------------------------------------------------------------
  // The median is unique and exists; it depends on neither order nor unweighted entries.

  lemma MedianUnique(items: seq<WeightedDelta>, d: real, e: real)
    requires IsWeightedMedian(items, d) && IsWeightedMedian(items, e)
    ensures d == e
  {
    if d < e {
      MassAntitone(items, d, e);
    } else if e < d {
      MassAntitone(items, e, d);
    }
  }

  ghost predicate SortedDescending(items: seq<WeightedDelta>) {
    forall i, j :: 0 <= i < j < |items| ==> items[i].delta >= items[j].delta
  }

  /** In sorted order the median is where the running weight first reaches half. */
  lemma MedianAt(items: seq<WeightedDelta>, i: nat)
    requires SortedDescending(items) && i < |items| && items[i].weight > 0.0
    requires TotalWeight(items[..i]) < TotalWeight(items) / 2.0 <= TotalWeight(items[..i + 1])
    ensures IsWeightedMedian(items, items[i].delta)
  {
    hide WeightFrom, MassFrom, TotalWeight;
    var d := items[i].delta;
    assert items == items[..i] + items[i..] == items[..i + 1] + items[i + 1..];
    MassConcat(items[..i], items[i..], d, true);
    MassNoneAbove(items[i..], d);
    MassAntitone(items[..i], d, d + 1.0);
    MassConcat(items[..i + 1], items[i + 1..], d, false);
    MassAllAtLeast(items[..i + 1], d);
  }

  lemma PrefixGrows(items: seq<WeightedDelta>, i: nat)
    requires i < |items|
    ensures TotalWeight(items[..i + 1])
         == TotalWeight(items[..i]) + (if items[i].weight > 0.0 then items[i].weight else 0.0)
  {
    assert items[..i + 1] == items[..i] + [items[i]];
    MassConcat(items[..i], [items[i]], 0.0, false);
  }

  lemma MedianExists(items: seq<WeightedDelta>)
    requires TotalWeight(items) >= EPSILON
    ensures exists d :: IsWeightedMedian(items, d)
  {
    var sorted := Sorted(items);
    MassOfPermutation(sorted, items, 0.0, false);
    assert sorted[..|sorted|] == sorted;
    var i := 0;
    while i < |sorted| && !(TotalWeight(sorted[..i + 1]) >= TotalWeight(sorted) / 2.0)
      invariant i <= |sorted|
      invariant TotalWeight(sorted[..i]) < TotalWeight(sorted) / 2.0
    {
      i := i + 1;
    }
    if i == |sorted| {
      assert false;
    } else {
      PrefixGrows(sorted, i);
      MedianAt(sorted, i);
      MedianOfPermutation(sorted, items, sorted[i].delta);
    }
  }

  lemma MedianOfPermutation(a: seq<WeightedDelta>, b: seq<WeightedDelta>, d: real)
    requires multiset(a) == multiset(b)
    requires IsWeightedMedian(a, d)
    ensures IsWeightedMedian(b, d)
  {
    MassOfPermutation(a, b, d, true);
    MassOfPermutation(a, b, d, false);
    var i :| 0 <= i < |a| && a[i].weight > 0.0 && a[i].delta == d;
    assert a[i] in multiset(b);
    var k :| 0 <= k < |b| && b[k] == a[i];
  }

  /** Every arrangement a sort may leave, ties broken in any way, has the same median. */
  lemma MedianIgnoresOrder(a: seq<WeightedDelta>, b: seq<WeightedDelta>)
    requires multiset(a) == multiset(b)
    ensures MedianOf(a) == MedianOf(b)
  {
    MassOfPermutation(a, b, 0.0, false);
    if TotalWeight(a) >= EPSILON {
      MedianOfPermutation(a, b, MedianOf(a));
      MedianUnique(b, MedianOf(a), MedianOf(b));
    }
  }

  /** Deltas of entries without weight, whatever an earlier call left there, do not matter. */
  lemma MedianIgnoresUnweighted(a: seq<WeightedDelta>, b: seq<WeightedDelta>)
    requires SameWhereWeighted(a, b)
    ensures MedianOf(a) == MedianOf(b)
  {
    MassIgnoresUnweighted(a, b, 0.0, false);
    if TotalWeight(a) >= EPSILON {
      var d := MedianOf(a);
      MassIgnoresUnweighted(a, b, d, true);
      MassIgnoresUnweighted(a, b, d, false);
      var i :| 0 <= i < |a| && a[i].weight > 0.0 && a[i].delta == d;
      assert b[i].weight > 0.0 && b[i].delta == d;
      MedianUnique(b, d, MedianOf(b));
    }
  }

  function Stretched(x: real, a: real, b: real): real {
    a * x + b
  }

  /** The same weights, every delta stretched by a and moved by b. */
  function Affine(items: seq<WeightedDelta>, a: real, b: real): (r: seq<WeightedDelta>)
    ensures |r| == |items|
    ensures forall i :: 0 <= i < |r| ==> r[i] == WeightedDelta(items[i].weight, Stretched(items[i].delta, a, b))
  {
    seq(|items|, i requires 0 <= i < |items| => WeightedDelta(items[i].weight, Stretched(items[i].delta, a, b)))
  }

  lemma StretchKeepsOrder(x: real, y: real, a: real, b: real)
    requires a > 0.0
    ensures Stretched(x, a, b) >= Stretched(y, a, b) <==> x >= y
  {
    var gap := a * (x - y);
    assert gap == Stretched(x, a, b) - Stretched(y, a, b);
    if x < y {
      assert a * (y - x) > 0.0;
    }
  }

  lemma {:induction false} MassOfAffine(items: seq<WeightedDelta>, a: real, b: real, d: real, strict: bool)
    requires a > 0.0
    ensures MassFrom(Affine(items, a, b), Stretched(d, a, b), strict) == MassFrom(items, d, strict)
    ensures TotalWeight(Affine(items, a, b)) == TotalWeight(items)
  {
    hide Stretched;
    if items != [] {
      assert Affine(items, a, b)[1..] == Affine(items[1..], a, b);
      MassOfAffine(items[1..], a, b, d, strict);
      StretchKeepsOrder(items[0].delta, d, a, b);
      StretchKeepsOrder(d, items[0].delta, a, b);
    }
  }

  /** Stretching and moving all deltas does the same to the median. */
  lemma MedianOfAffine(items: seq<WeightedDelta>, a: real, b: real)
    requires a > 0.0 && TotalWeight(items) >= EPSILON
    ensures MedianOf(Affine(items, a, b)) == Stretched(MedianOf(items), a, b)
  {
    hide Stretched, MedianOf, MassFrom, TotalWeight;
    var d := MedianOf(items);
    MassOfAffine(items, a, b, d, true);
    MassOfAffine(items, a, b, d, false);
    var i :| 0 <= i < |items| && items[i].weight > 0.0 && items[i].delta == d;
    var r := Affine(items, a, b);
    assert r[i].delta == Stretched(d, a, b) && r[i].weight > 0.0;
    assert IsWeightedMedian(r, Stretched(d, a, b));
    MedianUnique(r, Stretched(d, a, b), MedianOf(r));
  }

  /** Outliers holding less than half of the weight cannot push the median out of [lo, hi]. */
  lemma MedianResistsOutliers(items: seq<WeightedDelta>, lo: real, hi: real)
    requires TotalWeight(items) >= EPSILON
    requires MassFrom(items, lo, false) - MassFrom(items, hi, true) > TotalWeight(items) / 2.0
    ensures lo <= MedianOf(items) <= hi
  {
    var d := MedianOf(items);
    MassAntitone(items, hi, hi + 1.0);
    if d < lo {
      MassAntitone(items, d, lo);
    } else if d > hi {
      MassAntitone(items, hi, d);
      MassAntitone(items, lo, lo + 1.0);
    }
  }

  lemma {:induction false} MassWhenAllEqual(items: seq<WeightedDelta>, d: real)
    requires forall i :: 0 <= i < |items| && items[i].weight > 0.0 ==> items[i].delta == d
    ensures MassFrom(items, d, false) == TotalWeight(items) && MassFrom(items, d, true) == 0.0
  {
    if items != [] {
      MassWhenAllEqual(items[1..], d);
    }
  }

  lemma MedianWhenAllEqual(items: seq<WeightedDelta>, d: real)
    requires TotalWeight(items) >= EPSILON
    requires forall i :: 0 <= i < |items| && items[i].weight > 0.0 ==> items[i].delta == d
    ensures MedianOf(items) == d
  {
    MassWhenAllEqual(items, d);
    MedianResistsOutliers(items, d, d);
  }

  // ---------------------------------------------------------------------------------------
  // The code: sort by descending delta, then accumulate.

  function Insert(item: WeightedDelta, items: seq<WeightedDelta>): (r: seq<WeightedDelta>)
    ensures multiset(r) == multiset(items) + multiset{item}
  {
    if items == [] then [item]
    else if item.delta >= items[0].delta then [item] + items
    else
      assert items == [items[0]] + items[1..];
      [items[0]] + Insert(item, items[1..])
  }

  lemma {:induction false} InsertSorted(item: WeightedDelta, items: seq<WeightedDelta>)
    requires SortedDescending(items)
    ensures SortedDescending(Insert(item, items))
  {
    if items == [] {
    } else if item.delta >= items[0].delta {
      ConsSorted(item, items);
    } else {
      var rest := Insert(item, items[1..]);
      InsertSorted(item, items[1..]);
      forall j | 0 <= j < |rest| ensures items[0].delta >= rest[j].delta {
        assert rest[j] in multiset(rest);
        assert rest[j] == item || rest[j] in multiset(items[1..]);
      }
      ConsSorted(items[0], rest);
    }
  }

  lemma ConsSorted(first: WeightedDelta, rest: seq<WeightedDelta>)
    requires SortedDescending(rest) && forall j :: 0 <= j < |rest| ==> first.delta >= rest[j].delta
    ensures SortedDescending([first] + rest)
  {
  }

  function Sorted(items: seq<WeightedDelta>): (r: seq<WeightedDelta>)
    ensures multiset(r) == multiset(items) && SortedDescending(r)
  {
    if items == [] then []
    else
      var rest := Sorted(items[1..]);
      InsertSorted(items[0], rest);
      assert items == [items[0]] + items[1..];
      Insert(items[0], rest)
  }

  /** Stands for the library sort: its contract leaves the order of equal deltas open. */
  method QSort(a: array<WeightedDelta>)
    modifies a
    ensures multiset(a[..]) == multiset(old(a[..])) && SortedDescending(a[..])
  {
    var sorted := Sorted(a[..]);
    assert |multiset(sorted)| == |multiset(a[..])|;
    forall i | 0 <= i < a.Length {
      a[i] := sorted[i];
    }
    assert a[..] == sorted;
  }

  /** When `sum` is the weight of the entries the loop always returns from inside. */
  method GetMedian(a: array<WeightedDelta>, sum: real) returns (median: real)
    requires SortedDescending(a[..]) && sum == TotalWeight(a[..])
    ensures median == MedianOf(a[..])
  {
    if a.Length == 0 || sum < EPSILON {
      return 0.0;
    }
    var currentWeight := 0.0;
    var targetWeight := sum / 2.0;
    assert a[..][..a.Length] == a[..];
    for i := 0 to a.Length
      invariant currentWeight == TotalWeight(a[..][..i]) < targetWeight
    {
      PrefixGrows(a[..], i);
      if a[i].weight > 0.0 {
        currentWeight := currentWeight + a[i].weight;
        if currentWeight >= targetWeight {
          MedianAt(a[..], i);
          MedianUnique(a[..], a[i].delta, MedianOf(a[..]));
          return a[i].delta;
        }
      }
    }
    assert false;
    median := 0.0;
  }
}
