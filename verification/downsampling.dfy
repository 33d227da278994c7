/**
 Downsampling by block averages: the scalar loops of image-inl.h as the reference, and the
 NEON version of image_neon.cc, 32 source columns at a time.  Buffers are memory addressed
 from their first pixel, so that the NEON version is modelled for every width, also where
 it reads and writes next to the buffers.
 */
module Downsampling {
  import opened Arithmetic
  import opened Pixels

  const TILE: nat := 32

  /** The source covers `width` by `height` blocks of the factor. */
  predicate Covers(s: Source, width: nat, height: nat, factor: nat) {
    s.Valid() && factor > 0 && s.width == width * factor && s.height == height * factor
  }

  lemma BlockInside(i: nat, n: nat, factor: nat)
    requires i < n
    ensures 0 <= i * factor && i * factor + factor <= n * factor
  {
    NextMultiple(i, n, factor);
    NonNegativeProduct(i, factor);
  }

  /** The value of one output pixel. */
  function BlockAverage(s: Source, width: nat, height: nat, factor: nat, x: nat, y: nat): (average: Byte)
    requires Covers(s, width, height, factor) && x < width && y < height
  {
    BlockInside(x, width, factor);
    BlockInside(y, height, factor);
    AverageIsByte(RectSum(s, x * factor, y * factor, factor, factor), factor);
    RectSum(s, x * factor, y * factor, factor, factor) / (factor * factor)
  }

  lemma AverageIsByte(sum: nat, factor: nat)
    requires factor > 0 && sum <= 255 * factor * factor
    ensures factor * factor > 0 && 0 <= sum / (factor * factor) < 256
  {
    ProductMonotone(1, factor, factor);
    var p := factor * factor;
    assert 255 * factor * factor == 255 * p;
    assert 256 * p == 255 * p + p;
    QuotientBelow(sum, p, 256);
  }

  /** The sum over the block, divided by its number of pixels and rounded down. */
  lemma BlockAverageTells(s: Source, width: nat, height: nat, factor: nat, x: nat, y: nat)
    requires Covers(s, width, height, factor) && x < width && y < height
    ensures 0 <= x * factor && x * factor + factor <= s.width && 0 <= y * factor && y * factor + factor <= s.height
    ensures var average := BlockAverage(s, width, height, factor, x, y);
      var sum := RectSum(s, x * factor, y * factor, factor, factor);
      average * (factor * factor) <= sum < (average + 1) * (factor * factor)
  {
    hide RectSum;
    BlockInside(x, width, factor);
    BlockInside(y, height, factor);
    var sum := RectSum(s, x * factor, y * factor, factor, factor);
    ProductMonotone(1, factor, factor);
    DivMod(sum, factor * factor);
    Distribute(sum / (factor * factor), 1, factor * factor);
  }

  // ---------------------------------------------------------------------------------------
  // Memory.

  /** Bytes by address, counted from the first pixel of an image or a source. */
  type Memory = int -> Byte

  function Stored(m: Memory, at: int, v: seq<Byte>): Memory {
    (k: int) => if at <= k < at + |v| then v[k - at] else m(k)
  }

  /** Pixel (x, y) of an image without gaps between its rows. */
  function At(m: Memory, width: nat, x: int, y: int): Byte {
    m(y * width + x)
  }

  /** The memory holds the source's buffer. */
  ghost predicate Backs(source: Memory, s: Source) {
    forall k :: 0 <= k < |s.data| ==> source(k) == s.data[k]
  }

  /** Nothing next to an image of n pixels has changed. */
  ghost predicate OutsideKept(m: Memory, m': Memory, n: int) {
    forall k :: k < 0 || k >= n ==> m'(k) == m(k)
  }

  /** Columns [from, to) of every row hold the block averages. */
  ghost predicate Averaged(m: Memory, s: Source, width: nat, height: nat, factor: nat, from: int, to: int)
    requires Covers(s, width, height, factor)
  {
    forall x, y :: from <= x < to && 0 <= x < width && 0 <= y < height ==>
      At(m, width, x, y) == BlockAverage(s, width, height, factor, x, y)
  }

  /** A run stored in one row changes that part of the row and no other pixel. */
  lemma StoredAt(m: Memory, width: nat, x0: nat, y0: nat, v: seq<Byte>, x: nat, y: nat)
    requires x0 + |v| <= width && x < width
    ensures At(Stored(m, y0 * width + x0, v), width, x, y)
         == if y == y0 && x0 <= x < x0 + |v| then v[x - x0] else At(m, width, x, y)
  {
    if y != y0 {
      MultiplesApart(y, y0, width);
    }
  }

  lemma StoredInside(m: Memory, width: nat, height: nat, x0: nat, y0: nat, v: seq<Byte>)
    requires x0 + |v| <= width && y0 < height
    ensures OutsideKept(m, Stored(m, y0 * width + x0, v), width * height)
  {
    NextMultiple(y0, height, width);
    NonNegativeProduct(y0, width);
  }

  // ---------------------------------------------------------------------------------------
  // Lanes.

  type Lane16 = n: int | 0 <= n < 0x1_0000
  type Lane32 = n: int | 0 <= n < 0x1_0000_0000

  /** Adds neighbouring bytes in pairs onto 16-bit lanes, wrapping. */
  function Vpadal(accum: seq<Lane16>, v: seq<Byte>): (r: seq<Lane16>)
    requires |accum| == 8 && |v| == 16
    ensures |r| == 8
  {
    seq(8, i requires 0 <= i < 8 => (accum[i] + v[2 * i] + v[2 * i + 1]) % 0x1_0000)
  }

  /** Adds neighbouring 16-bit lanes in pairs into 32-bit lanes. */
  function Vpaddl(v: seq<Lane16>): (r: seq<Lane32>)
    requires |v| == 8
    ensures |r| == 4
  {
    seq(4, i requires 0 <= i < 4 => (v[2 * i] as int + v[2 * i + 1] as int))
  }

  function Saturate(n: nat, top: nat): (r: nat)
    ensures r <= top
  {
    if n > top then top else n
  }

  function ShiftRight(n: nat, shift: nat): nat {
    if shift == 0 then n else ShiftRight(n / 2, shift - 1)
  }

  lemma ShiftIsDivide(n: nat)
    ensures ShiftRight(n, 2) == n / 4 && ShiftRight(n, 4) == n / 16
  {
    assert ShiftRight(n, 2) == ShiftRight(n / 2, 1) == ShiftRight(n / 2 / 2, 0);
    assert ShiftRight(n, 4) == ShiftRight(n / 2, 3) == ShiftRight(n / 2 / 2, 2) == ShiftRight(n / 2 / 2 / 2, 1);
  }

  /** Shifts right and narrows to bytes, saturating. */
  function Vqshrn16(v: seq<Lane16>, shift: nat): (r: seq<Byte>)
    requires |v| == 8
    ensures |r| == 8
  {
    seq(8, i requires 0 <= i < 8 => Saturate(ShiftRight(v[i], shift), 255))
  }

  /** Shifts right and narrows to 16 bits, saturating. */
  function Vqshrn32(v: seq<Lane32>, shift: nat): (r: seq<Lane16>)
    requires |v| == 4
    ensures |r| == 4
  {
    seq(4, i requires 0 <= i < 4 => Saturate(ShiftRight(v[i], shift), 0xFFFF))
  }

  /** Keeps the low byte of each lane. */
  function Vmovn(v: seq<Lane16>): (r: seq<Byte>)
    requires |v| == 8
    ensures |r| == 8
  {
    seq(8, i requires 0 <= i < 8 => v[i] % 256)
  }

  /** Loads 16 bytes. */
  function Vld1q(source: Memory, at: int): (v: seq<Byte>)
    ensures |v| == 16 && forall i :: 0 <= i < 16 ==> v[i] == source(at + i)
  {
    seq(16, i requires 0 <= i < 16 => source(at + i))
  }

  /** Pairwise column sums of 16 columns over `rows` rows. */
  function Accumulated(source: Memory, at: int, stride: nat, rows: nat): (r: seq<Lane16>)
    ensures |r| == 8
  {
    if rows == 0 then seq(8, _ => 0)
    else Vpadal(Accumulated(source, at, stride, rows - 1), Vld1q(source, at + (rows - 1) * stride))
  }

  /** Output columns per tile. */
  function TileWidth(factor: nat): nat {
    if factor == 2 then 16 else 8
  }

  /** One output row of a tile whose first source byte is at the given address. */
  function TileRow(source: Memory, at: int, stride: nat, factor: nat): (r: seq<Byte>)
    ensures |r| == TileWidth(factor)
  {
    if factor == 2 then
      Vqshrn16(Accumulated(source, at, stride, 2), 2) + Vqshrn16(Accumulated(source, at + 16, stride, 2), 2)
    else
      Vmovn(Vqshrn32(Vpaddl(Accumulated(source, at, stride, 4)), 4)
            + Vqshrn32(Vpaddl(Accumulated(source, at + 16, stride, 4)), 4))
  }

  /** Output column of a source column; the shift rounds down. */
  function OutColumn(origX: int, factor: nat): int {
    if factor == 2 then origX / 2 else origX / 4
  }

  /** The first `rows` output rows of a tile. */
  function Tile(m: Memory, source: Memory, stride: nat, factor: nat, width: nat, origX: int, rows: nat): Memory {
    if rows == 0 then m
    else
      Stored(Tile(m, source, stride, factor, width, origX, rows - 1),
             (rows - 1) * width + OutColumn(origX, factor),
             TileRow(source, (rows - 1) * (factor * stride) + origX, stride, factor))
  }

  function Tiles(m: Memory, source: Memory, stride: nat, factor: nat, width: nat, height: nat, starts: seq<int>): Memory
    decreases |starts|
  {
    if starts == [] then m
    else
      var first := Tile(m, source, stride, factor, width, starts[0], height);
      Tiles(first, source, stride, factor, width, height, starts[1..])
  }

  /** Starting columns of the tiles for `n` source columns; the last one is pushed left. */
  function TileStarts(n: nat, from: nat): seq<int>
    decreases n - from
  {
    if from <= n - TILE then [from] + TileStarts(n, from + TILE)
    else if from < n then [n - TILE]
    else []
  }

  /** The memory that the NEON version leaves. */
  function Neon(m: Memory, source: Memory, stride: nat, factor: nat, width: nat, height: nat): Memory {
    Tiles(m, source, stride, factor, width, height, TileStarts(width * factor, 0))
  }

  // ---------------------------------------------------------------------------------------
  // Images.

  class Image {
    const width: nat
    const height: nat
    var memory: Memory

    constructor (width: nat, height: nat)
      ensures this.width == width && this.height == height
    {
      this.width, this.height := width, height;
      memory := (_: int) => 0;
    }

    /** In a build with NEON, factors 2 and 4 go to the NEON version; all else to the scalar loops. */
    method DownsampleAveraged(neon: bool, s: Source, source: Memory, factor: nat)
      requires Covers(s, width, height, factor) && Backs(source, s)
      modifies this
      ensures UsesNeon(neon, factor) ==> memory == Neon(old(memory), source, s.stride, factor, width, height)
      ensures (UsesNeon(neon, factor) ==> NeonFits(width, height, factor)) ==>
                && Averaged(memory, s, width, height, factor, 0, width)
                && OutsideKept(old(memory), memory, width * height)
    {
      hide BlockAverage, Tiles, TileStarts;
      if neon && (factor == 4 || factor == 2) {
        if NeonFits(width, height, factor) {
          NeonAverages(memory, s, source, width, height, factor);
        }
        ghost var _ := DownsampleAveragedNeon(source, s.stride, factor);
        return;
      }
      for y := 0 to height
        invariant forall i, j :: 0 <= j < y && 0 <= i < width ==>
                    At(memory, width, i, j) == BlockAverage(s, width, height, factor, i, j)
        invariant OutsideKept(old(memory), memory, width * height)
      {
        DownsampleRow(s, factor, y);
      }
    }

    /** One row of the scalar loops. */
    method DownsampleRow(s: Source, factor: nat, y: nat)
      requires Covers(s, width, height, factor) && y < height
      modifies this
      ensures forall i :: 0 <= i < width ==> At(memory, width, i, y) == BlockAverage(s, width, height, factor, i, y)
      ensures forall i, j :: 0 <= i < width && 0 <= j < height && j != y ==>
                At(memory, width, i, j) == old(At(memory, width, i, j))
      ensures OutsideKept(old(memory), memory, width * height)
    {
      hide BlockAverage, At, Stored;
      for x := 0 to width
        invariant forall i :: 0 <= i < x ==> At(memory, width, i, y) == BlockAverage(s, width, height, factor, i, y)
        invariant forall i, j :: 0 <= i < width && 0 <= j < height && j != y ==>
                    At(memory, width, i, j) == old(At(memory, width, i, j))
        invariant OutsideKept(old(memory), memory, width * height)
      {
        var average := AverageOf(s, factor, x, y);
        var next := Stored(memory, y * width + x, [average]);
        forall i, j | 0 <= i < width && 0 <= j < height
          ensures At(next, width, i, j) == if j == y && i == x then average else At(memory, width, i, j)
        {
          StoredAt(memory, width, x, y, [average], i, j);
        }
        StoredInside(memory, width, height, x, y, [average]);
        memory := next;
      }
    }

    /** The two inner loops, over the source pixels of one block. */
    method AverageOf(s: Source, factor: nat, x: nat, y: nat) returns (average: Byte)
      requires Covers(s, width, height, factor) && x < width && y < height
      ensures average == BlockAverage(s, width, height, factor, x, y)
    {
      BlockInside(x, width, factor);
      BlockInside(y, height, factor);
      var pixelSum: nat := 0;
      for currY := 0 to factor
        invariant pixelSum == RectSum(s, x * factor, y * factor, factor, currY)
      {
        ghost var above := pixelSum;
        for currX := 0 to factor
          invariant pixelSum == above + RowSum(s, x * factor, y * factor + currY, currX)
        {
          pixelSum := pixelSum + s.Pixel(x * factor + currX, y * factor + currY);
        }
      }
      AverageIsByte(pixelSum, factor);
      average := pixelSum / (factor * factor);
    }

    /** 32 source columns to 16 output columns. */
    method Downsample2x32ColumnsNeon(source: Memory, stride: nat, origX: int)
      modifies this
      ensures memory == Tile(old(memory), source, stride, 2, width, origX, height)
    {
      hide Vpadal, Vqshrn16, Stored, Vld1q;
      var newX := origX / 2;
      var offset, dst := origX, newX;
      for newY := 0 to height
        invariant offset == newY * (2 * stride) + origX && dst == newY * width + newX
        invariant memory == Tile(old(memory), source, stride, 2, width, origX, newY)
      {
        var accum1, accum2: seq<Lane16> := seq(8, _ => 0), seq(8, _ => 0);
        ghost var start := offset;
        for rowNum := 0 to 2
          invariant offset == start + rowNum * stride
          invariant accum1 == Accumulated(source, start, stride, rowNum)
          invariant accum2 == Accumulated(source, start + 16, stride, rowNum)
        {
          accum1 := Vpadal(accum1, Vld1q(source, offset));
          accum2 := Vpadal(accum2, Vld1q(source, offset + 16));
          offset := offset + stride;
        }
        memory := Stored(memory, dst, Vqshrn16(accum1, 2) + Vqshrn16(accum2, 2));
        NextRow(newY, 2 * stride);
        NextRow(newY, width);
        dst := dst + width;
      }
    }

    /** 32 source columns to 8 output columns. */
    method Downsample4x32ColumnsNeon(source: Memory, stride: nat, origX: int)
      modifies this
      ensures memory == Tile(old(memory), source, stride, 4, width, origX, height)
    {
      hide Vpadal, Vqshrn32, Vpaddl, Vmovn, Stored, Vld1q;
      var newX := origX / 4;
      var offset, dst := origX, newX;
      for newY := 0 to height
        invariant offset == newY * (4 * stride) + origX && dst == newY * width + newX
        invariant memory == Tile(old(memory), source, stride, 4, width, origX, newY)
      {
        var accum1, accum2: seq<Lane16> := seq(8, _ => 0), seq(8, _ => 0);
        ghost var start := offset;
        for rowNum := 0 to 4
          invariant offset == start + rowNum * stride
          invariant accum1 == Accumulated(source, start, stride, rowNum)
          invariant accum2 == Accumulated(source, start + 16, stride, rowNum)
        {
          accum1 := Vpadal(accum1, Vld1q(source, offset));
          accum2 := Vpadal(accum2, Vld1q(source, offset + 16));
          offset := offset + stride;
        }
        memory := Stored(memory, dst, Vmovn(Vqshrn32(Vpaddl(accum1), 4) + Vqshrn32(Vpaddl(accum2), 4)));
        NextRow(newY, 4 * stride);
        NextRow(newY, width);
        dst := dst + width;
      }
    }

    /** Tiles of 32 columns, the last one pushed left so that it ends with the image. */
    method DownsampleAveragedNeon(source: Memory, stride: nat, factor: nat) returns (ghost starts: seq<int>)
      requires factor == 2 || factor == 4
      modifies this
      ensures starts == TileStarts(width * factor, 0)
      ensures memory == Tiles(old(memory), source, stride, factor, width, height, starts)
    {
      hide Tile;
      var lastStartingIndex := width * factor - TILE;
      starts := TileStarts(width * factor, 0);
      var origX := 0;
      while origX <= lastStartingIndex
        invariant 0 <= origX
        invariant Tiles(memory, source, stride, factor, width, height, TileStarts(width * factor, origX))
               == Tiles(old(memory), source, stride, factor, width, height, starts)
      {
        DownsampleTile(source, stride, factor, origX);
        origX := origX + TILE;
      }
      if origX < lastStartingIndex + TILE {
        DownsampleTile(source, stride, factor, lastStartingIndex);
      }
    }

    method DownsampleTile(source: Memory, stride: nat, factor: nat, origX: int)
      requires factor == 2 || factor == 4
      modifies this
      ensures memory == Tile(old(memory), source, stride, factor, width, origX, height)
    {
      if factor == 2 {
        Downsample2x32ColumnsNeon(source, stride, origX);
      } else {
        Downsample4x32ColumnsNeon(source, stride, origX);
      }
    }
  }

  lemma NextRow(y: nat, pitch: nat)
    ensures (y + 1) * pitch == y * pitch + pitch
  {
  }

  // ---------------------------------------------------------------------------------------
  // Tiles inside the image.

  predicate UsesNeon(neon: bool, factor: nat) {
    neon && (factor == 2 || factor == 4)
  }

  /** No pixels at all, or at least one whole tile in a row. */
  predicate NeonFits(width: nat, height: nat, factor: nat) {
    height == 0 || width == 0 || width * factor >= TILE
  }

  /** The 16 bytes from pixel (x, y) on. */
  lemma LoadsPixels(s: Source, source: Memory, x: nat, y: nat, at: int)
    requires s.Valid() && Backs(source, s) && s.InRow(x, y, 16) && at == y * s.stride + x
    ensures forall i :: 0 <= i < 16 ==> Vld1q(source, at)[i] == s.Pixel(x + i, y)
  {
    s.InBuffer(x, y, 16);
  }

  lemma RowOfTwo(s: Source, x: int, y: int)
    requires s.Valid() && s.InRow(x, y, 2)
    ensures RowSum(s, x, y, 2) == s.Pixel(x, y) + s.Pixel(x + 1, y)
  {
    assert RowSum(s, x, y, 1) == s.Pixel(x, y);
  }

  /** One more row in each lane; no lane reaches 16 bits. */
  lemma LanesGainRow(s: Source, x: nat, y: nat, row: nat, accum: seq<Lane16>, v: seq<Byte>)
    requires s.Valid() && x + 16 <= s.width && y + row < s.height && row < 4 && |accum| == 8 && |v| == 16
    requires forall i :: 0 <= i < 8 ==> accum[i] == RectSum(s, x + 2 * i, y, 2, row)
    requires forall i :: 0 <= i < 16 ==> v[i] == s.Pixel(x + i, y + row)
    ensures forall i :: 0 <= i < 8 ==> Vpadal(accum, v)[i] == RectSum(s, x + 2 * i, y, 2, row + 1)
  {
    hide Source.Valid, Source.Pixel, RowSum;
    forall i | 0 <= i < 8 ensures Vpadal(accum, v)[i] == RectSum(s, x + 2 * i, y, 2, row + 1) {
      RowOfTwo(s, x + 2 * i, y + row);
      assert RectSum(s, x + 2 * i, y, 2, row) <= 2040;
    }
  }

  /** Inside the source rectangle the lanes hold the column sums; the wrapping addition never wraps. */
  lemma {:induction false} AccumulatedSums(s: Source, source: Memory, x: nat, y: nat, at: int, rows: nat)
    requires s.Valid() && Backs(source, s) && x + 16 <= s.width && y + rows <= s.height && rows <= 4
    requires at == y * s.stride + x
    ensures forall i :: 0 <= i < 8 ==> Accumulated(source, at, s.stride, rows)[i] == RectSum(s, x + 2 * i, y, 2, rows)
  {
    hide Source.Valid, Vpadal, Vld1q;
    if rows > 0 {
      AccumulatedSums(s, source, x, y, at, rows - 1);
      Distribute(y, rows - 1, s.stride);
      LoadsPixels(s, source, x, y + rows - 1, at + (rows - 1) * s.stride);
      LanesGainRow(s, x, y, rows - 1, Accumulated(source, at, s.stride, rows - 1),
                   Vld1q(source, at + (rows - 1) * s.stride));
    }
  }

  lemma LaneIsAverage2(s: Source, width: nat, height: nat, x: nat, y: nat)
    requires Covers(s, width, height, 2) && x < width && y < height
    ensures RectSum(s, 2 * x, 2 * y, 2, 2) <= 1020
    ensures Saturate(ShiftRight(RectSum(s, 2 * x, 2 * y, 2, 2), 2), 255) == BlockAverage(s, width, height, 2, x, y)
  {
    hide RectSum;
    ShiftIsDivide(RectSum(s, 2 * x, 2 * y, 2, 2));
  }

  lemma LaneIsAverage4(s: Source, width: nat, height: nat, x: nat, y: nat)
    requires Covers(s, width, height, 4) && x < width && y < height
    ensures var sum := RectSum(s, 4 * x, 4 * y, 2, 4) + RectSum(s, 4 * x + 2, 4 * y, 2, 4);
      Saturate(ShiftRight(sum, 4), 0xFFFF) % 256 == BlockAverage(s, width, height, 4, x, y)
  {
    hide RectSum;
    SplitColumns(s, 4 * x, 4 * y, 2, 2, 4);
    ShiftIsDivide(RectSum(s, 4 * x, 4 * y, 4, 4));
  }

  /** First source column of an output column. */
  function OrigOf(x: int, factor: nat): int {
    if factor == 2 then 2 * x else 4 * x
  }

  lemma RowIsAveraged2(
    s: Source, width: nat, height: nat, newX: nat, newY: nat, accum1: seq<Lane16>, accum2: seq<Lane16>)
    requires Covers(s, width, height, 2) && newX + 16 <= width && newY < height && |accum1| == |accum2| == 8
    requires forall i :: 0 <= i < 8 ==> accum1[i] == RectSum(s, 2 * newX + 2 * i, 2 * newY, 2, 2)
    requires forall i :: 0 <= i < 8 ==> accum2[i] == RectSum(s, 2 * newX + 16 + 2 * i, 2 * newY, 2, 2)
    ensures var allPixels := Vqshrn16(accum1, 2) + Vqshrn16(accum2, 2);
      forall i :: 0 <= i < 16 ==> allPixels[i] == BlockAverage(s, width, height, 2, newX + i, newY)
  {
    hide BlockAverage, RectSum;
    forall i | 0 <= i < 16
      ensures (Vqshrn16(accum1, 2) + Vqshrn16(accum2, 2))[i] == BlockAverage(s, width, height, 2, newX + i, newY)
    {
      LaneIsAverage2(s, width, height, newX + i, newY);
    }
  }

  lemma RowIsAveraged4(
    s: Source, width: nat, height: nat, newX: nat, newY: nat, accum1: seq<Lane16>, accum2: seq<Lane16>)
    requires Covers(s, width, height, 4) && newX + 8 <= width && newY < height && |accum1| == |accum2| == 8
    requires forall i :: 0 <= i < 8 ==> accum1[i] == RectSum(s, 4 * newX + 2 * i, 4 * newY, 2, 4)
    requires forall i :: 0 <= i < 8 ==> accum2[i] == RectSum(s, 4 * newX + 16 + 2 * i, 4 * newY, 2, 4)
    ensures var allPixels := Vmovn(Vqshrn32(Vpaddl(accum1), 4) + Vqshrn32(Vpaddl(accum2), 4));
      forall i :: 0 <= i < 8 ==> allPixels[i] == BlockAverage(s, width, height, 4, newX + i, newY)
  {
    hide BlockAverage, RectSum;
    forall i | 0 <= i < 8
      ensures Vmovn(Vqshrn32(Vpaddl(accum1), 4) + Vqshrn32(Vpaddl(accum2), 4))[i]
           == BlockAverage(s, width, height, 4, newX + i, newY)
    {
      LaneIsAverage4(s, width, height, newX + i, newY);
    }
  }

  predicate TileInside(s: Source, width: nat, height: nat, factor: nat, newX: nat) {
    Covers(s, width, height, factor) && (factor == 2 || factor == 4) && newX + TileWidth(factor) <= width
  }

  lemma TileRowIsAveraged(s: Source, source: Memory, width: nat, height: nat, factor: nat, newX: nat, newY: nat)
    requires TileInside(s, width, height, factor, newX) && Backs(source, s) && newY < height
    ensures var row := TileRow(source, newY * (factor * s.stride) + OrigOf(newX, factor), s.stride, factor);
      forall i :: 0 <= i < TileWidth(factor) ==> row[i] == BlockAverage(s, width, height, factor, newX + i, newY)
  {
    hide BlockAverage, RectSum, Accumulated, Vqshrn16, Vqshrn32, Vpaddl, Vmovn, Source.Valid;
    var at := newY * (factor * s.stride) + OrigOf(newX, factor);
    RegroupProduct(newY, factor, s.stride);
    if factor == 2 {
      AccumulatedSums(s, source, 2 * newX, 2 * newY, at, 2);
      AccumulatedSums(s, source, 2 * newX + 16, 2 * newY, at + 16, 2);
      RowIsAveraged2(s, width, height, newX, newY,
                     Accumulated(source, at, s.stride, 2), Accumulated(source, at + 16, s.stride, 2));
    } else {
      AccumulatedSums(s, source, 4 * newX, 4 * newY, at, 4);
      AccumulatedSums(s, source, 4 * newX + 16, 4 * newY, at + 16, 4);
      RowIsAveraged4(s, width, height, newX, newY,
                     Accumulated(source, at, s.stride, 4), Accumulated(source, at + 16, s.stride, 4));
    }
  }

  /** A tile inside the rows fills its columns with the averages and touches nothing else. */
  lemma {:induction false} TileAverages(
    m: Memory, s: Source, source: Memory, width: nat, height: nat, factor: nat, newX: nat, rows: nat)
    requires TileInside(s, width, height, factor, newX) && Backs(source, s) && rows <= height
    ensures var m' := Tile(m, source, s.stride, factor, width, OrigOf(newX, factor), rows);
      && (forall x, y :: 0 <= x < width && 0 <= y < height ==>
            At(m', width, x, y) == if y < rows && newX <= x < newX + TileWidth(factor)
                                   then BlockAverage(s, width, height, factor, x, y) else At(m, width, x, y))
      && OutsideKept(m, m', width * height)
  {
    hide At, Stored, BlockAverage, TileRow, Covers, OutsideKept;
    if rows > 0 {
      TileAverages(m, s, source, width, height, factor, newX, rows - 1);
      var origX := OrigOf(newX, factor);
      var before := Tile(m, source, s.stride, factor, width, origX, rows - 1);
      var row := TileRow(source, (rows - 1) * (factor * s.stride) + origX, s.stride, factor);
      TileRowIsAveraged(s, source, width, height, factor, newX, rows - 1);
      forall x, y | 0 <= x < width && 0 <= y < height
        ensures At(Stored(before, (rows - 1) * width + newX, row), width, x, y)
             == if y == rows - 1 && newX <= x < newX + |row| then row[x - newX] else At(before, width, x, y)
      {
        StoredAt(before, width, newX, rows - 1, row, x, y);
      }
      StoredInside(before, width, height, newX, rows - 1, row);
      KeptTwice(m, before, Stored(before, (rows - 1) * width + newX, row), width * height);
    } else {
      NothingChanged(m, width * height);
    }
  }

  lemma KeptTwice(m: Memory, m': Memory, m'': Memory, n: int)
    requires OutsideKept(m, m', n) && OutsideKept(m', m'', n)
    ensures OutsideKept(m, m'', n)
  {
  }

  lemma NothingChanged(m: Memory, n: int)
    ensures OutsideKept(m, m, n)
  {
  }

  /** The remaining tiles complete an image whose columns before `newX` are done. */
  lemma {:induction false} TilesAverage(
    m: Memory, s: Source, source: Memory, width: nat, height: nat, factor: nat, newX: nat)
    requires Covers(s, width, height, factor) && (factor == 2 || factor == 4) && Backs(source, s)
    requires width * factor >= TILE && newX <= width && Averaged(m, s, width, height, factor, 0, newX)
    ensures var starts := TileStarts(width * factor, OrigOf(newX, factor));
      var m' := Tiles(m, source, s.stride, factor, width, height, starts);
      Averaged(m', s, width, height, factor, 0, width) && OutsideKept(m, m', width * height)
    decreases width - newX
  {
    hide At, BlockAverage, Tile, Covers, OutsideKept;
    var n, from, w := width * factor, OrigOf(newX, factor), TileWidth(factor);
    WidthOf(width, factor);
    if from <= n - TILE {
      var tile := Tile(m, source, s.stride, factor, width, from, height);
      TileAverages(m, s, source, width, height, factor, newX, height);
      TilesAverage(tile, s, source, width, height, factor, newX + w);
      assert TileStarts(n, from)[1..] == TileStarts(n, from + TILE);
      var rest := Tiles(tile, source, s.stride, factor, width, height, TileStarts(n, from + TILE));
      KeptTwice(m, tile, rest, width * height);
    } else if from < n {
      TileAverages(m, s, source, width, height, factor, width - w, height);
      assert TileStarts(n, from)[1..] == [];
    } else {
      NothingChanged(m, width * height);
    }
  }

  lemma WidthOf(width: nat, factor: nat)
    requires factor == 2 || factor == 4
    ensures width * factor == OrigOf(width, factor)
  {
  }

  /** Where a whole tile fits in a row, or there is nothing to do, the NEON version gives the averages. */
  lemma NeonAverages(m: Memory, s: Source, source: Memory, width: nat, height: nat, factor: nat)
    requires Covers(s, width, height, factor) && (factor == 2 || factor == 4) && Backs(source, s)
    requires NeonFits(width, height, factor)
    ensures var m' := Neon(m, source, s.stride, factor, width, height);
      Averaged(m', s, width, height, factor, 0, width) && OutsideKept(m, m', width * height)
  {
    hide BlockAverage, Covers;
    if width * factor >= TILE {
      TilesAverage(m, s, source, width, height, factor, 0);
    } else {
      assert width == 0 || height == 0;
      NoRows(m, source, s.stride, factor, width, TileStarts(width * factor, 0));
    }
  }

  lemma {:induction false} NoRows(m: Memory, source: Memory, stride: nat, factor: nat, width: nat, starts: seq<int>)
    ensures Tiles(m, source, stride, factor, width, 0, starts) == m
    decreases |starts|
  {
    if starts != [] {
      NoRows(m, source, stride, factor, width, starts[1..]);
    }
  }

  lemma {:induction false} WideTilesInside(n: nat, from: nat, i: nat)
    requires TILE <= n && from <= n && i < |TileStarts(n, from)|
    ensures 0 <= TileStarts(n, from)[i] <= n - TILE
    decreases n - from
  {
    if from <= n - TILE {
      var rest := TileStarts(n, from + TILE);
      assert TileStarts(n, from) == [from] + rest;
      if i > 0 {
        WideTilesInside(n, from + TILE, i - 1);
      }
    }
  }

  /** Every tile stays inside the rows exactly when there are no columns or at least 32. */
  lemma TilesStayInside(n: nat)
    ensures (forall i :: 0 <= i < |TileStarts(n, 0)| ==> 0 <= TileStarts(n, 0)[i] <= n - TILE) <==> n == 0 || n >= TILE
  {
    if n >= TILE {
      forall i | 0 <= i < |TileStarts(n, 0)| ensures 0 <= TileStarts(n, 0)[i] <= n - TILE {
        WideTilesInside(n, 0, i);
      }
    } else if n > 0 {
      assert TileStarts(n, 0)[0] == n - TILE;
    }
  }

  // ---------------------------------------------------------------------------------------
  // Exactly where the two versions agree.

  /** For every source, and whatever lies around both buffers, the image is right and nothing else is written. */
  ghost predicate NeonAgrees(width: nat, height: nat, factor: nat) {
    forall m: Memory, s: Source, source: Memory :: Covers(s, width, height, factor) && Backs(source, s) ==>
      var m' := Neon(m, source, s.stride, factor, width, height);
      Averaged(m', s, width, height, factor, 0, width) && OutsideKept(m, m', width * height)
  }

  const ZEROS: Memory := _ => 0
  const ONES: Memory := _ => 1

  lemma {:induction false} ZeroLanes(at: int, stride: nat, rows: nat)
    ensures Accumulated(ZEROS, at, stride, rows) == seq(8, _ => 0)
  {
    if rows > 0 {
      ZeroLanes(at, stride, rows - 1);
    }
  }

  lemma ZeroRow(at: int, stride: nat, factor: nat)
    ensures TileRow(ZEROS, at, stride, factor)[0] == 0
  {
    hide Accumulated;
    ZeroLanes(at, stride, 2);
    ZeroLanes(at, stride, 4);
    ShiftIsDivide(0);
  }

  /** The first byte a tile writes is not written again by its later rows. */
  lemma {:induction false} FirstByteStays(
    m: Memory, source: Memory, stride: nat, factor: nat, width: nat, origX: int, rows: nat)
    requires width > 0 && rows > 0
    ensures Tile(m, source, stride, factor, width, origX, rows)(OutColumn(origX, factor))
         == TileRow(source, origX, stride, factor)[0]
  {
    hide TileRow, OutColumn;
    if rows > 1 {
      FirstByteStays(m, source, stride, factor, width, origX, rows - 1);
      ProductMonotone(1, rows - 1, width);
    } else {
      assert Tile(m, source, stride, factor, width, origX, 0) == m;
    }
  }

  lemma OneTile(m: Memory, source: Memory, stride: nat, factor: nat, width: nat, height: nat, start: int)
    ensures Tiles(m, source, stride, factor, width, height, [start])
         == Tile(m, source, stride, factor, width, start, height)
  {
    hide Tile;
    var starts := [start];
    assert starts[1..] == [];
  }

  /** In a narrow image the only tile starts to the left of the first pixel and is written there. */
  lemma NarrowWritesOutside(width: nat, height: nat, factor: nat)
    requires (factor == 2 || factor == 4) && !NeonFits(width, height, factor)
    ensures !OutsideKept(ONES, Neon(ONES, ZEROS, width * factor, factor, width, height), width * height)
  {
    hide TileRow, Tile;
    var n := width * factor;
    WidthOf(width, factor);
    FirstByteStays(ONES, ZEROS, n, factor, width, n - TILE, height);
    ZeroRow(n - TILE, n, factor);
    assert TileStarts(n, 0) == [n - TILE];
    OneTile(ONES, ZEROS, n, factor, width, height, n - TILE);
    var at := OutColumn(n - TILE, factor);
    assert at < 0 && Neon(ONES, ZEROS, n, factor, width, height)(at) == 0 != ONES(at);
  }

  /** A source of zeros, rows without gaps. */
  function Blank(width: nat, height: nat): (s: Source)
    ensures s.Valid() && Backs(ZEROS, s) && s.stride == s.width == width && s.height == height
  {
    NonNegativeProduct(width, height);
    if height > 0 then Distribute(height - 1, 1, width); Source(seq(width * height, _ => 0), width, width, height)
    else Source([], width, width, height)
  }

  /**
   The NEON version gives the scalar result, for every source and every surrounding memory,
   exactly for images with no pixels or with at least 32 source columns.
   */
  lemma NeonAgreesExactly(width: nat, height: nat, factor: nat)
    requires factor == 2 || factor == 4
    ensures NeonAgrees(width, height, factor) <==> NeonFits(width, height, factor)
  {
    hide Neon, Averaged, OutsideKept, Covers;
    if NeonFits(width, height, factor) {
      forall m: Memory, s: Source, source: Memory | Covers(s, width, height, factor) && Backs(source, s)
        ensures var m' := Neon(m, source, s.stride, factor, width, height);
          Averaged(m', s, width, height, factor, 0, width) && OutsideKept(m, m', width * height)
      {
        NeonAverages(m, s, source, width, height, factor);
      }
    } else {
      NarrowWritesOutside(width, height, factor);
      var s := Blank(width * factor, height * factor);
      BlankCovers(width, height, factor);
    }
  }

  lemma BlankCovers(width: nat, height: nat, factor: nat)
    requires factor > 0
    ensures Covers(Blank(width * factor, height * factor), width, height, factor)
  {
  }
}
