/** Dimension order and strides of a batch of tensors (dnn.cc), for any number of spatial dimensions. */
module TensorLayout {
  import opened Arithmetic

  datatype DataLayout = YXDepthBatch | YXBatchDepth | BatchYXDepth | BatchDepthYX | BatchDepthYX4

  // ---------------------------------------------------------------------------------------
  // Reordering.

  /** Positions of depth, batch and the first spatial dimension. */
  function GetDimIndices(layout: DataLayout, dataDims: nat): (int, int, int) {
    match layout
    case YXBatchDepth => (dataDims - 1, dataDims - 2, 0)
    case YXDepthBatch => (dataDims - 2, dataDims - 1, 0)
    case BatchYXDepth => (dataDims - 1, 0, 1)
    case BatchDepthYX => (1, 0, 2)
    case BatchDepthYX4 => (1, 0, 2)
  }

  /** The order a layout's name spells out. */
  function Arrange<T>(layout: DataLayout, batch: T, depth: T, spatial: seq<T>): (r: seq<T>)
    ensures |r| == |spatial| + 2
  {
    match layout
    case YXBatchDepth => spatial + [batch] + [depth]
    case YXDepthBatch => spatial + [depth] + [batch]
    case BatchYXDepth => [batch] + spatial + [depth]
    case BatchDepthYX => [batch] + [depth] + spatial
    case BatchDepthYX4 => [batch] + [depth] + spatial
  }

  function Batch<T>(layout: DataLayout, dims: seq<T>): T
    requires |dims| >= 2
  {
    dims[GetDimIndices(layout, |dims|).1]
  }

  function Depth<T>(layout: DataLayout, dims: seq<T>): T
    requires |dims| >= 2
  {
    dims[GetDimIndices(layout, |dims|).0]
  }

  function Spatial<T>(layout: DataLayout, dims: seq<T>): (r: seq<T>)
    requires |dims| >= 2
    ensures |r| == |dims| - 2
  {
    var first := GetDimIndices(layout, |dims|).2;
    dims[first..first + |dims| - 2]
  }

  function Reordered<T>(dims: seq<T>, from: DataLayout, to: DataLayout): (r: seq<T>)
    requires |dims| >= 2
    ensures |r| == |dims|
  {
    Arrange(to, Batch(from, dims), Depth(from, dims), Spatial(from, dims))
  }

  lemma ArrangeParts<T>(layout: DataLayout, batch: T, depth: T, spatial: seq<T>)
    ensures var dims := Arrange(layout, batch, depth, spatial);
      Batch(layout, dims) == batch && Depth(layout, dims) == depth && Spatial(layout, dims) == spatial
  {
  }

  lemma ArrangeOfParts<T>(layout: DataLayout, dims: seq<T>)
    requires |dims| >= 2
    ensures Reordered(dims, layout, layout) == dims
  {
  }

  /** Reordering through a third layout is reordering directly; going back undoes it. */
  lemma ReorderComposes<T>(dims: seq<T>, a: DataLayout, b: DataLayout, c: DataLayout)
    requires |dims| >= 2
    ensures Reordered(Reordered(dims, a, b), b, c) == Reordered(dims, a, c)
    ensures Reordered(Reordered(dims, a, b), b, a) == dims
  {
    ArrangeParts(b, Batch(a, dims), Depth(a, dims), Spatial(a, dims));
    ArrangeOfParts(a, dims);
  }

  method ReorderDims(input: seq<int>, from: DataLayout, to: DataLayout) returns (result: seq<int>)
    requires |input| >= 2
    ensures result == Reordered(input, from, to)
  {
    hide GetDimIndices, Arrange;
    if from == to {
      ArrangeOfParts(from, input);
      return input;
    }
    var n := |input|;
    DimIndicesApart(from, n);
    DimIndicesApart(to, n);
    result := Scatter(input, GetDimIndices(from, n), GetDimIndices(to, n));
    ArrangeOfParts(to, result);
  }

  /** Writes batch, depth and the run of spatial dimensions to their new positions. */
  method Scatter(input: seq<int>, from: (int, int, int), to: (int, int, int)) returns (result: seq<int>)
    requires Apart(from, |input|) && Apart(to, |input|)
    ensures |result| == |input|
    ensures result[to.0] == input[from.0] && result[to.1] == input[from.1]
    ensures result[to.2..to.2 + |input| - 2] == input[from.2..from.2 + |input| - 2]
  {
    hide Apart;
    var n := |input|;
    ApartParts(from, n);
    ApartParts(to, n);
    var reordered := new int[n](_ => 0);
    reordered[to.1] := input[from.1];
    reordered[to.0] := input[from.0];
    for i := 0 to n - 2
      invariant reordered[to.1] == input[from.1] && reordered[to.0] == input[from.0]
      invariant forall k :: to.2 <= k < to.2 + i ==> reordered[k] == input[k - to.2 + from.2]
    {
      reordered[to.2 + i] := input[from.2 + i];
    }
    result := reordered[..];
    SameRun(result, to.2, input, from.2, n - 2);
  }

  lemma SameRun(a: seq<int>, i: nat, b: seq<int>, j: nat, n: int)
    requires 0 <= n && i + n <= |a| && j + n <= |b|
    requires forall k :: i <= k < i + n ==> a[k] == b[k - i + j]
    ensures a[i..i + n] == b[j..j + n]
  {
    var x, y := a[i..i + n], b[j..j + n];
    forall k | 0 <= k < n ensures x[k] == y[k] {
      assert a[i + k] == b[i + k - i + j];
    }
  }

  /** Three disjoint parts that fill n positions. */
  predicate Apart(indices: (int, int, int), n: nat) {
    var (d, b, s) := indices;
    && n >= 2 && 0 <= d < n && 0 <= b < n && d != b && 0 <= s && s + n - 2 <= n
    && !(s <= d < s + n - 2) && !(s <= b < s + n - 2)
  }

  lemma ApartParts(indices: (int, int, int), n: nat)
    requires Apart(indices, n)
    ensures n >= 2 && 0 <= indices.0 < n && 0 <= indices.1 < n && indices.0 != indices.1
    ensures 0 <= indices.2 && indices.2 + n - 2 <= n
    ensures indices.0 < indices.2 || indices.0 >= indices.2 + n - 2
    ensures indices.1 < indices.2 || indices.1 >= indices.2 + n - 2
  {
  }

  lemma DimIndicesApart(layout: DataLayout, n: nat)
    requires n >= 2
    ensures Apart(GetDimIndices(layout, n), n)
  {
  }

  // ---------------------------------------------------------------------------------------
  // Row-major addresses in one fixed order.

  function Product(dims: seq<int>): int {
    if dims == [] then 1 else dims[0] * Product(dims[1..])
  }

  /** Each dimension's stride is the number of elements of the dimensions after it. */
  function Strides(dims: seq<int>): (r: seq<int>)
    ensures |r| == |dims|
  {
    if dims == [] then [] else [Product(dims[1..])] + Strides(dims[1..])
  }

  function Dot(a: seq<int>, b: seq<int>): int
    requires |a| == |b|
  {
    if a == [] then 0 else a[0] * b[0] + Dot(a[1..], b[1..])
  }

  ghost predicate InBounds(c: seq<int>, dims: seq<int>) {
    |c| == |dims| && forall i :: 0 <= i < |c| ==> 0 <= c[i] < dims[i]
  }

  lemma PositionRange(i: int, n: int, p: int, rest: int)
    requires 0 <= i < n && 0 <= rest < p
    ensures 0 <= i * p + rest < n * p
  {
    NextMultiple(i, n, p);
    NonNegativeProduct(i, p);
  }

  lemma {:induction false} AddressInRange(c: seq<int>, dims: seq<int>)
    requires InBounds(c, dims)
    ensures 0 <= Dot(c, Strides(dims)) < Product(dims)
  {
    if dims != [] {
      AddressInRange(c[1..], dims[1..]);
      PositionRange(c[0], dims[0], Product(dims[1..]), Dot(c[1..], Strides(dims[1..])));
    }
  }

  lemma {:induction false} AddressInjective(c: seq<int>, d: seq<int>, dims: seq<int>)
    requires InBounds(c, dims) && InBounds(d, dims)
    requires Dot(c, Strides(dims)) == Dot(d, Strides(dims))
    ensures c == d
  {
    if dims != [] {
      AddressInRange(c[1..], dims[1..]);
      AddressInRange(d[1..], dims[1..]);
      QuotientUnique(c[0], d[0], Product(dims[1..]), Dot(c[1..], Strides(dims[1..])), Dot(d[1..], Strides(dims[1..])));
      AddressInjective(c[1..], d[1..], dims[1..]);
      assert c == [c[0]] + c[1..] && d == [d[0]] + d[1..];
    }
  }

  lemma {:induction false} ProductPositive(dims: seq<int>)
    requires (forall i :: 0 <= i < |dims| ==> dims[i] >= 0) && Product(dims) > 0
    ensures forall i :: 0 <= i < |dims| ==> dims[i] > 0
  {
    if dims != [] {
      ProductNonNegative(dims[1..]);
      assert Product(dims[1..]) > 0 && dims[0] > 0;
      ProductPositive(dims[1..]);
    }
  }

  lemma {:induction false} ProductNonNegative(dims: seq<int>)
    requires forall i :: 0 <= i < |dims| ==> dims[i] >= 0
    ensures Product(dims) >= 0
  {
    if dims != [] {
      ProductNonNegative(dims[1..]);
    }
  }

  lemma {:induction false} AddressSurjective(dims: seq<int>, address: int) returns (c: seq<int>)
    requires forall i :: 0 <= i < |dims| ==> dims[i] >= 0
    requires 0 <= address < Product(dims)
    ensures InBounds(c, dims) && Dot(c, Strides(dims)) == address
  {
    if dims == [] {
      c := [];
    } else {
      ProductPositive(dims);
      ProductNonNegative(dims[1..]);
      var p := Product(dims[1..]);
      assert p > 0;
      var i, rest := address / p, address % p;
      DivMod(address, p);
      QuotientBelow(address, p, dims[0]);
      var tail := AddressSurjective(dims[1..], rest);
      c := [i] + tail;
    }
  }

  // ---------------------------------------------------------------------------------------
  // Batch descriptors.

  datatype BatchDescriptor =
    BatchDescriptor(count: int, featureMapCount: int, spatialSize: seq<int>, layout: DataLayout)
  {

    predicate Valid() {
      count >= 0 && featureMapCount >= 0 && forall i :: 0 <= i < |spatialSize| ==> spatialSize[i] >= 0
    }

    /** Dimensions in batch, depth, spatial order. */
    function LogicalDims(): seq<int> {
      [count] + [featureMapCount] + spatialSize
    }

    function FullDims(to: DataLayout): seq<int> {
      Reordered(LogicalDims(), BatchDepthYX, to)
    }

    function FullStrides(to: DataLayout): seq<int>
    {
      Reordered(Strides(FullDims(layout)), layout, to)
    }

    function ElementCount(): int {
      count * featureMapCount * Product(spatialSize)
    }

    method ComputeNodesPerFeatureMap() returns (nodes: int)
      ensures nodes == Product(spatialSize)
    {
      nodes := 1;
      assert spatialSize[0..] == spatialSize;
      for i := 0 to |spatialSize|
        invariant nodes * Product(spatialSize[i..]) == Product(spatialSize)
      {
        assert spatialSize[i..][1..] == spatialSize[i + 1..];
        RegroupProduct(nodes, spatialSize[i], Product(spatialSize[i + 1..]));
        nodes := nodes * spatialSize[i];
      }
    }

    method ComputeFullDims(to: DataLayout) returns (dims: seq<int>)
      ensures dims == FullDims(to)
    {
      dims := ReorderDims([count] + [featureMapCount] + spatialSize, BatchDepthYX, to);
    }

    /** The source aborts when the descriptor itself is in the vectorised layout. */
    method ComputeFullStrides(to: DataLayout) returns (strides: seq<int>)
      requires layout != BatchDepthYX4
      ensures strides == FullStrides(to)
    {
      hide Strides, Product;
      var physDims := ComputeFullDims(layout);
      var n := |physDims|;
      var phys := new int[n](_ => 0);
      phys[n - 1] := 1;
      StridesLast(physDims);
      var i := n - 2;
      while i >= 0
        invariant -1 <= i <= n - 2
        invariant forall k :: i < k < n ==> phys[k] == Strides(physDims)[k]
      {
        StridesStep(physDims, i);
        phys[i] := phys[i + 1] * physDims[i + 1];
        i := i - 1;
      }
      assert phys[..] == Strides(physDims);
      strides := ReorderDims(phys[..], layout, to);
    }
  }

  lemma {:induction false} StridesAt(dims: seq<int>, i: nat)
    requires i < |dims|
    ensures Strides(dims)[i] == Product(dims[i + 1..])
  {
    if i > 0 {
      StridesAt(dims[1..], i - 1);
      assert dims[1..][i..] == dims[i + 1..];
    }
  }

  lemma StridesStep(dims: seq<int>, i: nat)
    requires i + 1 < |dims|
    ensures Strides(dims)[i] == Strides(dims)[i + 1] * dims[i + 1]
  {
    hide Strides;
    StridesAt(dims, i);
    StridesAt(dims, i + 1);
    var tail := dims[i + 1..];
    assert tail[1..] == dims[i + 2..];
    assert Product(tail) == tail[0] * Product(tail[1..]);
  }

  lemma StridesLast(dims: seq<int>)
    requires dims != []
    ensures Strides(dims)[|dims| - 1] == 1
  {
    StridesAt(dims, |dims| - 1);
  }

  // ---------------------------------------------------------------------------------------
  // Addresses do not depend on the layout in which they are computed.

  lemma {:induction false} DotConcat(a: seq<int>, b: seq<int>, c: seq<int>, d: seq<int>)
    requires |a| == |b| && |c| == |d|
    ensures Dot(a + c, b + d) == Dot(a, b) + Dot(c, d)
  {
    if a == [] {
      assert a + c == c && b + d == d;
    } else {
      assert (a + c)[1..] == a[1..] + c && (b + d)[1..] == b[1..] + d;
      DotConcat(a[1..], b[1..], c, d);
    }
  }

  lemma DotArrange(layout: DataLayout, b: int, d: int, s: seq<int>, b': int, d': int, s': seq<int>)
    requires |s| == |s'|
    ensures Dot(Arrange(layout, b, d, s), Arrange(layout, b', d', s')) == b * b' + d * d' + Dot(s, s')
  {
    DotConcat([b], [b'], s, s');
    DotConcat([b] + s, [b'] + s', [d], [d']);
    DotConcat(s, s', [b], [b']);
    DotConcat(s, s', [d], [d']);
    DotConcat(s + [b], s' + [b'], [d], [d']);
    DotConcat(s + [d], s' + [d'], [b], [b']);
    DotConcat([b], [b'], [d], [d']);
    DotConcat([b] + [d], [b'] + [d'], s, s');
  }

  lemma DotReordered(x: seq<int>, y: seq<int>, from: DataLayout, to: DataLayout)
    requires |x| == |y| >= 2
    ensures Dot(Reordered(x, from, to), Reordered(y, from, to)) == Dot(x, y)
  {
    DotArrange(to, Batch(from, x), Depth(from, x), Spatial(from, x), Batch(from, y), Depth(from, y), Spatial(from, y));
    DotArrange(from, Batch(from, x), Depth(from, x), Spatial(from, x),
               Batch(from, y), Depth(from, y), Spatial(from, y));
    ArrangeOfParts(from, x);
    ArrangeOfParts(from, y);
  }

  lemma {:induction false} ProductConcat(a: seq<int>, b: seq<int>)
    ensures Product(a + b) == Product(a) * Product(b)
  {
    if a == [] {
      assert a + b == b;
    } else {
      assert (a + b)[1..] == a[1..] + b;
      ProductConcat(a[1..], b);
      RegroupProduct(a[0], Product(a[1..]), Product(b));
    }
  }

  lemma ProductSingle(n: int)
    ensures Product([n]) == n
  {
    assert [n][1..] == [];
  }

  lemma ProductArrange(layout: DataLayout, b: int, d: int, s: seq<int>)
    ensures Product(Arrange(layout, b, d, s)) == b * d * Product(s)
  {
    hide Product;
    ProductSingle(b);
    ProductSingle(d);
    var p := Product(s);
    match layout
    case YXBatchDepth =>
      ProductConcat(s + [b], [d]);
      ProductConcat(s, [b]);
      Commute(p, b, d);
    case YXDepthBatch =>
      ProductConcat(s + [d], [b]);
      ProductConcat(s, [d]);
      Commute(p, d, b);
    case BatchYXDepth =>
      ProductConcat([b] + s, [d]);
      ProductConcat([b], s);
      Commute(p, b, d);
    case BatchDepthYX =>
      ProductConcat([b] + [d], s);
      ProductConcat([b], [d]);
    case BatchDepthYX4 =>
      ProductConcat([b] + [d], s);
      ProductConcat([b], [d]);
  }

  lemma Commute(p: int, x: int, y: int)
    ensures p * x * y == x * y * p == y * x * p
    ensures x * p * y == x * y * p
  {
    assert p * x * y == p * (x * y);
    assert x * p * y == (p * x) * y;
    assert x * y == y * x;
  }

  /** Address of a logical coordinate, computed with dimensions ordered as `via`. */
  function Address(desc: BatchDescriptor, coordinate: seq<int>, via: DataLayout): int
    requires |coordinate| == |desc.LogicalDims()|
  {
    Dot(Reordered(coordinate, BatchDepthYX, via), desc.FullStrides(via))
  }

  lemma AddressViaPhysical(desc: BatchDescriptor, coordinate: seq<int>, via: DataLayout)
    requires |coordinate| == |desc.LogicalDims()|
    ensures Address(desc, coordinate, via)
         == Dot(Reordered(coordinate, BatchDepthYX, desc.layout), Strides(desc.FullDims(desc.layout)))
  {
    var phys := Reordered(coordinate, BatchDepthYX, desc.layout);
    ReorderComposes(coordinate, BatchDepthYX, desc.layout, via);
    DotReordered(phys, Strides(desc.FullDims(desc.layout)), desc.layout, via);
  }

  /** The same element has the same address in every requested layout. */
  lemma AddressIndependentOfLayout(desc: BatchDescriptor, coordinate: seq<int>, via: DataLayout, other: DataLayout)
    requires |coordinate| == |desc.LogicalDims()|
    ensures Address(desc, coordinate, via) == Address(desc, coordinate, other)
  {
    AddressViaPhysical(desc, coordinate, via);
    AddressViaPhysical(desc, coordinate, other);
  }

  lemma ReorderedInBounds(c: seq<int>, dims: seq<int>, from: DataLayout, to: DataLayout)
    requires InBounds(c, dims) && |dims| >= 2
    ensures InBounds(Reordered(c, from, to), Reordered(dims, from, to))
  {
    assert 0 <= Batch(from, c) < Batch(from, dims) && 0 <= Depth(from, c) < Depth(from, dims);
    assert InBounds(Spatial(from, c), Spatial(from, dims));
    ArrangeInBounds(to, Batch(from, c), Depth(from, c), Spatial(from, c),
                    Batch(from, dims), Depth(from, dims), Spatial(from, dims));
  }

  lemma ArrangeInBounds(layout: DataLayout, b: int, d: int, s: seq<int>, b': int, d': int, s': seq<int>)
    requires 0 <= b < b' && 0 <= d < d' && InBounds(s, s')
    ensures InBounds(Arrange(layout, b, d, s), Arrange(layout, b', d', s'))
  {
  }

  lemma ArrangeNonNegative(layout: DataLayout, b: int, d: int, s: seq<int>)
    requires b >= 0 && d >= 0 && forall i :: 0 <= i < |s| ==> s[i] >= 0
    ensures var r := Arrange(layout, b, d, s); forall i :: 0 <= i < |r| ==> r[i] >= 0
  {
  }

  lemma PhysicalElementCount(desc: BatchDescriptor)
    ensures Product(desc.FullDims(desc.layout)) == desc.ElementCount()
  {
    ArrangeParts(BatchDepthYX, desc.count, desc.featureMapCount, desc.spatialSize);
    ProductArrange(desc.layout, desc.count, desc.featureMapCount, desc.spatialSize);
  }

  /** The strides send the logical coordinates one-to-one into [0, ElementCount) ... */
  lemma AddressesAreDistinct(desc: BatchDescriptor, c: seq<int>, d: seq<int>, via: DataLayout)
    requires InBounds(c, desc.LogicalDims()) && InBounds(d, desc.LogicalDims())
    ensures 0 <= Address(desc, c, via) < desc.ElementCount()
    ensures Address(desc, c, via) == Address(desc, d, via) ==> c == d
  {
    var p, q := Reordered(c, BatchDepthYX, desc.layout), Reordered(d, BatchDepthYX, desc.layout);
    AddressViaPhysical(desc, c, via);
    AddressViaPhysical(desc, d, via);
    ReorderedInBounds(c, desc.LogicalDims(), BatchDepthYX, desc.layout);
    ReorderedInBounds(d, desc.LogicalDims(), BatchDepthYX, desc.layout);
    AddressInRange(p, desc.FullDims(desc.layout));
    PhysicalElementCount(desc);
    if Address(desc, c, via) == Address(desc, d, via) {
      AddressInjective(p, q, desc.FullDims(desc.layout));
      ReorderComposes(c, BatchDepthYX, desc.layout, BatchDepthYX);
      ReorderComposes(d, BatchDepthYX, desc.layout, BatchDepthYX);
    }
  }

  /** ... and onto it: the batch is packed without gaps. */
  lemma AddressesFillTheBatch(desc: BatchDescriptor, address: int, via: DataLayout) returns (c: seq<int>)
    requires desc.Valid() && 0 <= address < desc.ElementCount()
    ensures InBounds(c, desc.LogicalDims()) && Address(desc, c, via) == address
  {
    PhysicalElementCount(desc);
    var dims := desc.FullDims(desc.layout);
    ArrangeParts(BatchDepthYX, desc.count, desc.featureMapCount, desc.spatialSize);
    ArrangeNonNegative(desc.layout, desc.count, desc.featureMapCount, desc.spatialSize);
    var phys := AddressSurjective(dims, address);
    c := Reordered(phys, desc.layout, BatchDepthYX);
    ReorderedInBounds(phys, dims, desc.layout, BatchDepthYX);
    ReorderComposes(desc.LogicalDims(), BatchDepthYX, desc.layout, BatchDepthYX);
    ReorderComposes(phys, desc.layout, BatchDepthYX, desc.layout);
    AddressViaPhysical(desc, c, via);
  }

  // ---------------------------------------------------------------------------------------
  // Dimensions and addresses, written out for each layout.

  lemma DimsSpelledOut(desc: BatchDescriptor, to: DataLayout)
    ensures desc.FullDims(to)
         == match to
            case YXDepthBatch => desc.spatialSize + [desc.featureMapCount] + [desc.count]
            case YXBatchDepth => desc.spatialSize + [desc.count] + [desc.featureMapCount]
            case BatchYXDepth => [desc.count] + desc.spatialSize + [desc.featureMapCount]
            case BatchDepthYX => [desc.count] + [desc.featureMapCount] + desc.spatialSize
            case BatchDepthYX4 => [desc.count] + [desc.featureMapCount] + desc.spatialSize
  {
    ArrangeParts(BatchDepthYX, desc.count, desc.featureMapCount, desc.spatialSize);
  }

  /** Position of a coordinate, read from the slowest dimension to the fastest. */
  function Scan(at: int, c: seq<int>, dims: seq<int>): int
    requires |c| == |dims|
    decreases |c|
  {
    if c == [] then at else Scan(at * dims[0] + c[0], c[1..], dims[1..])
  }

  lemma {:induction false} ScanIsDot(at: int, c: seq<int>, dims: seq<int>)
    requires |c| == |dims|
    ensures Scan(at, c, dims) == at * Product(dims) + Dot(c, Strides(dims))
    decreases |c|
  {
    if c != [] {
      var p := Product(dims[1..]);
      ScanIsDot(at * dims[0] + c[0], c[1..], dims[1..]);
      Distribute(at * dims[0], c[0], p);
      RegroupProduct(at, dims[0], p);
    }
  }

  /** Element (b, d, s) lies where the descriptor's own layout puts it, whatever order the strides are asked in. */
  lemma AddressSpelledOut(desc: BatchDescriptor, b: int, d: int, s: seq<int>, via: DataLayout)
    requires |s| == |desc.spatialSize|
    ensures Address(desc, [b] + [d] + s, via)
         == var (count, depth, size) := (desc.count, desc.featureMapCount, desc.spatialSize);
            match desc.layout
            case YXDepthBatch => (Scan(0, s, size) * depth + d) * count + b
            case YXBatchDepth => (Scan(0, s, size) * count + b) * depth + d
            case BatchYXDepth => Scan(b, s, size) * depth + d
            case BatchDepthYX => Scan(b * depth + d, s, size)
            case BatchDepthYX4 => Scan(b * depth + d, s, size)
  {
    hide Product, Strides, Dot, Scan, Address, Reordered, Arrange;
    AddressIsScan(desc, b, d, s, via);
    ScanArranged(desc.layout, b, d, s, desc.count, desc.featureMapCount, desc.spatialSize);
  }

  lemma AddressIsScan(desc: BatchDescriptor, b: int, d: int, s: seq<int>, via: DataLayout)
    requires |s| == |desc.spatialSize|
    ensures Address(desc, [b] + [d] + s, via)
         == Scan(0, Arrange(desc.layout, b, d, s),
                 Arrange(desc.layout, desc.count, desc.featureMapCount, desc.spatialSize))
  {
    hide Product, Strides, Dot, Scan, Address, Reordered, Arrange, BatchDescriptor.FullDims;
    AddressViaPhysical(desc, [b] + [d] + s, via);
    FromParts(b, d, s, desc.layout);
    FullDimsArranged(desc);
    ScanIsDot(0, Arrange(desc.layout, b, d, s), desc.FullDims(desc.layout));
  }

  lemma FromParts(b: int, d: int, s: seq<int>, to: DataLayout)
    ensures Reordered([b] + [d] + s, BatchDepthYX, to) == Arrange(to, b, d, s)
  {
    ArrangeParts(BatchDepthYX, b, d, s);
  }

  lemma FullDimsArranged(desc: BatchDescriptor)
    ensures desc.FullDims(desc.layout) == Arrange(desc.layout, desc.count, desc.featureMapCount, desc.spatialSize)
  {
    hide Arrange, Reordered;
    FromParts(desc.count, desc.featureMapCount, desc.spatialSize, desc.layout);
  }

  lemma {:induction false} ScanConcat(at: int, c: seq<int>, dims: seq<int>, more: seq<int>, moreDims: seq<int>)
    requires |c| == |dims| && |more| == |moreDims|
    ensures Scan(at, c + more, dims + moreDims) == Scan(Scan(at, c, dims), more, moreDims)
    decreases |c|
  {
    if c == [] {
      assert c + more == more && dims + moreDims == moreDims;
    } else {
      assert (c + more)[1..] == c[1..] + more && (dims + moreDims)[1..] == dims[1..] + moreDims;
      ScanConcat(at * dims[0] + c[0], c[1..], dims[1..], more, moreDims);
    }
  }

  lemma ScanOne(at: int, c: int, dim: int)
    ensures Scan(at, [c], [dim]) == at * dim + c
  {
    assert [c][1..] == [] && [dim][1..] == [];
  }

  lemma ScanArranged(layout: DataLayout, b: int, d: int, s: seq<int>, count: int, depth: int, size: seq<int>)
    requires |s| == |size|
    ensures Scan(0, Arrange(layout, b, d, s), Arrange(layout, count, depth, size))
         == match layout
            case YXDepthBatch => (Scan(0, s, size) * depth + d) * count + b
            case YXBatchDepth => (Scan(0, s, size) * count + b) * depth + d
            case BatchYXDepth => Scan(b, s, size) * depth + d
            case BatchDepthYX => Scan(b * depth + d, s, size)
            case BatchDepthYX4 => Scan(b * depth + d, s, size)
  {
    hide Scan;
    ScanOne(0, b, count);
    match layout
    case YXDepthBatch =>
      ScanConcat(0, s + [d], size + [depth], [b], [count]);
      ScanConcat(0, s, size, [d], [depth]);
      ScanOne(Scan(0, s, size), d, depth);
      ScanOne(Scan(0, s, size) * depth + d, b, count);
    case YXBatchDepth =>
      ScanConcat(0, s + [b], size + [count], [d], [depth]);
      ScanConcat(0, s, size, [b], [count]);
      ScanOne(Scan(0, s, size), b, count);
      ScanOne(Scan(0, s, size) * count + b, d, depth);
    case BatchYXDepth =>
      ScanConcat(0, [b] + s, [count] + size, [d], [depth]);
      ScanConcat(0, [b], [count], s, size);
      ScanOne(Scan(b, s, size), d, depth);
    case _ =>
      ScanConcat(0, [b] + [d], [count] + [depth], s, size);
      ScanConcat(0, [b], [count], [d], [depth]);
      ScanOne(b, d, depth);
  }
}
