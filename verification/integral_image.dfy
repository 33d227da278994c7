/**
 The integral image: a table of 32-bit prefix sums whose entries may wrap, and the region
 sums read from it (integral_image.h).
 */
module IntegralImages {
  import opened Arithmetic
  import opened Pixels

  const WORD: int := 0x1_0000_0000
  type Uint32 = x: int | 0 <= x < WORD

  /** Unsigned 32-bit arithmetic. */
  function Wrap(x: int): Uint32 {
    x % WORD
  }

  /** Sum of the pixels above and to the left of (x, y), exclusive. */
  function Prefix(s: Source, x: nat, y: nat): nat
    requires s.Valid() && x <= s.width && y <= s.height
  {
    RectSum(s, 0, 0, x, y)
  }

  predicate InRegion(x1: int, y1: int, x2: int, y2: int, width: int, height: int) {
    0 <= x1 <= x2 < width && 0 <= y1 <= y2 < height
  }

  /** Sum of the pixels of a region, borders included. */
  function RegionSum(s: Source, x1: int, y1: int, x2: int, y2: int): nat
    requires s.Valid() && InRegion(x1, y1, x2, y2, s.width, s.height)
  {
    RectSum(s, x1, y1, x2 - x1 + 1, y2 - y1 + 1)
  }

  lemma {:induction false} NoColumns(s: Source, x: int, y: int, rows: nat)
    requires s.Valid() && 0 <= x <= s.width && 0 <= y && y + rows <= s.height
    ensures RectSum(s, x, y, 0, rows) == 0
  {
    if rows > 0 {
      NoColumns(s, x, y, rows - 1);
    }
  }

  /** Inclusion and exclusion of prefixes, over the true sums. */
  lemma RegionFromPrefixes(s: Source, x1: nat, y1: nat, x2: nat, y2: nat)
    requires s.Valid() && InRegion(x1, y1, x2, y2, s.width, s.height)
    ensures RegionSum(s, x1, y1, x2, y2)
         == Prefix(s, x2 + 1, y2 + 1) - Prefix(s, x1, y2 + 1) - Prefix(s, x2 + 1, y1) + Prefix(s, x1, y1)
  {
    hide RectSum, Source.Valid;
    var columns, rows := x2 - x1 + 1, y2 - y1 + 1;
    SplitColumns(s, 0, 0, x1, columns, y2 + 1);
    SplitColumns(s, 0, 0, x1, columns, y1);
    SplitRows(s, x1, 0, columns, y1, rows);
  }

  lemma WrapPlus(a: int, b: int)
    ensures Wrap(Wrap(a) + b) == Wrap(a + b)
  {
    DivMod(a, WORD);
    DivMod(a + b, WORD);
    DivideIs(Wrap(a) + b, WORD, (a + b) / WORD - a / WORD);
  }

  lemma WrapMinus(a: int, b: int)
    ensures Wrap(a - Wrap(b)) == Wrap(a - b)
  {
    DivMod(b, WORD);
    DivMod(a - b, WORD);
    DivideIs(a - Wrap(b), WORD, (a - b) / WORD + b / WORD);
  }

  /** Wrapping the operands as well does not change the wrapped result. */
  lemma WrapDifference(a: int, b: int)
    ensures Wrap(Wrap(a) - Wrap(b)) == Wrap(a - b)
  {
    hide Wrap;
    WrapMinus(Wrap(a), b);
    WrapPlus(a, -b);
  }

  lemma WrapSum(a: int, b: int)
    ensures Wrap(Wrap(a) + Wrap(b)) == Wrap(a + b)
  {
    hide Wrap;
    WrapPlus(a, Wrap(b));
    WrapPlus(b, a);
  }

  lemma SmallIsUnwrapped(a: nat)
    ensures a < WORD ==> Wrap(a) == a
  {
  }

  class IntegralImage {
    const width: nat
    const height: nat
    const table: array2<Uint32>

    ghost predicate Valid() {
      table.Length0 == height && table.Length1 == width
    }

    constructor (width: nat, height: nat)
      ensures Valid() && this.width == width && this.height == height && fresh(table)
    {
      this.width, this.height := width, height;
      table := new Uint32[height, width]((_, _) => 0);
    }

    predicate SameSize(s: Source) {
      s.Valid() && s.width == width && s.height == height
    }

    /** The entries before (x, y) in scan order are the prefix sums of the image, wrapped. */
    ghost predicate SumsUpTo(s: Source, atX: int, atY: int)
      requires Valid() && SameSize(s)
      reads table
    {
      forall x, y :: 0 <= x < width && 0 <= y < height && (y < atY || (y == atY && x < atX)) ==>
        table[y, x] == Wrap(Prefix(s, x + 1, y + 1))
    }

    /** Every entry is. */
    ghost predicate Holds(s: Source)
      requires Valid() && SameSize(s)
      reads table
    {
      SumsUpTo(s, 0, height)
    }

    /** Fills the table: the first row by a running sum, each other row from the row above. */
    method Recompute(s: Source)
      requires Valid() && SameSize(s)
      requires width > 0 ==> height > 0
      modifies table
      ensures Holds(s)
    {
      hide Prefix, RowSum;
      var xSum := 0;
      for x := 0 to width
        invariant xSum == if x == 0 then 0 else RowSum(s, 0, 0, x)
        invariant SumsUpTo(s, x, 0)
      {
        FirstRow(s, x);
        xSum := xSum + s.Pixel(x, 0);
        table[0, x] := Wrap(xSum);
      }
      var y := 1;
      while y < height
        invariant 1 <= y && (y <= height || height == 0)
        invariant SumsUpTo(s, 0, y)
      {
        var rowTillNow: Uint32 := 0;
        for x := 0 to width
          invariant rowTillNow == if x == 0 then 0 else Wrap(RowSum(s, 0, y, x))
          invariant SumsUpTo(s, x, y)
        {
          NextEntry(s, x, y, rowTillNow);
          rowTillNow := Wrap(rowTillNow + s.Pixel(x, y));
          table[y, x] := Wrap(table[y - 1, x] + rowTillNow);
        }
        y := y + 1;
      }
    }

    lemma FirstRow(s: Source, x: nat)
      requires s.Valid() && x < s.width && 0 < s.height
      ensures RowSum(s, 0, 0, x + 1) == (if x == 0 then 0 else RowSum(s, 0, 0, x)) + s.Pixel(x, 0)
      ensures Prefix(s, x + 1, 1) == RowSum(s, 0, 0, x + 1)
    {
    }

    lemma NextEntry(s: Source, x: nat, y: nat, rowTillNow: Uint32)
      requires s.Valid() && x < s.width && 0 < y < s.height
      requires rowTillNow == if x == 0 then 0 else Wrap(RowSum(s, 0, y, x))
      ensures Wrap(rowTillNow + s.Pixel(x, y)) == Wrap(RowSum(s, 0, y, x + 1))
      ensures Wrap(Wrap(Prefix(s, x + 1, y)) + Wrap(RowSum(s, 0, y, x + 1))) == Wrap(Prefix(s, x + 1, y + 1))
    {
      hide Wrap, Source.Valid;
      if x > 0 {
        WrapPlus(RowSum(s, 0, y, x), s.Pixel(x, y));
      }
      WrapSum(Prefix(s, x + 1, y), RowSum(s, 0, y, x + 1));
    }

    /** The sum over a region, read from at most four entries. */
    function GetRegionSum(x1: int, y1: int, x2: int, y2: int): Uint32
      requires Valid() && InRegion(x1, y1, x2, y2, width, height)
      reads table
    {
      var everything := table[y2, x2];
      if x1 > 0 && y1 > 0 then
        var left := table[y2, x1 - 1];
        var top := table[y1 - 1, x2];
        var topLeft := table[y1 - 1, x1 - 1];
        Wrap(Wrap(Wrap(everything as int - left) as int - top) + topLeft)
      else if x1 > 0 then Wrap(everything as int - table[y2, x1 - 1])
      else if y1 > 0 then Wrap(everything as int - table[y1 - 1, x2])
      else everything
    }

    /** It is the true sum modulo 2^32, and the true sum itself if that fits, wrapped entries or not. */
    lemma RegionSumIsTrueSum(s: Source, x1: nat, y1: nat, x2: nat, y2: nat)
      requires Valid() && SameSize(s) && Holds(s) && InRegion(x1, y1, x2, y2, width, height)
      ensures GetRegionSum(x1, y1, x2, y2) == Wrap(RegionSum(s, x1, y1, x2, y2))
      ensures RegionSum(s, x1, y1, x2, y2) < WORD ==> GetRegionSum(x1, y1, x2, y2) == RegionSum(s, x1, y1, x2, y2)
    {
      hide Prefix, RegionSum, Source.Valid, Wrap;
      var everything: int, left: int := Prefix(s, x2 + 1, y2 + 1), Prefix(s, x1, y2 + 1);
      var top: int, topLeft: int := Prefix(s, x2 + 1, y1), Prefix(s, x1, y1);
      RegionFromPrefixes(s, x1, y1, x2, y2);
      EmptyPrefixes(s, x1, y1);
      EmptyPrefixes(s, x2 + 1, y2 + 1);
      WrapDifference(everything, left);
      WrapDifference(everything - left, top);
      WrapDifference(everything, top);
      WrapSum(everything - left - top, topLeft);
      SmallIsUnwrapped(RegionSum(s, x1, y1, x2, y2));
    }

    lemma EmptyPrefixes(s: Source, x: nat, y: nat)
      requires s.Valid() && x <= s.width && y <= s.height
      ensures Prefix(s, 0, y) == 0 && Prefix(s, x, 0) == 0
    {
      NoColumns(s, 0, 0, y);
    }

    /** What one entry adds to its neighbours. */
    function Difference(x: nat, y: nat): Uint32
      requires Valid() && x < width && y < height
      reads table
    {
      var left := if x > 0 then Wrap(table[y, x] as int - table[y, x - 1]) else table[y, x];
      var above := if y > 0 then Wrap(left as int - table[y - 1, x]) else left;
      if x > 0 && y > 0 then Wrap(above + table[y - 1, x - 1]) else above
    }

    /** It is the pixel exactly when the entry is right, given that the earlier ones are. */
    lemma DifferenceTells(s: Source, x: nat, y: nat)
      requires Valid() && SameSize(s) && x < width && y < height && SumsUpTo(s, x, y)
      ensures Difference(x, y) == s.Pixel(x, y) <==> table[y, x] == Wrap(Prefix(s, x + 1, y + 1))
    {
      hide Prefix, RegionSum, Source.Valid, Wrap;
      var t: int, p: int, pixel: int := table[y, x], Prefix(s, x + 1, y + 1), s.Pixel(x, y);
      var left: int, above: int, corner: int := Prefix(s, x, y + 1), Prefix(s, x + 1, y), Prefix(s, x, y);
      EmptyPrefixes(s, x, y);
      EmptyPrefixes(s, x + 1, y + 1);
      SinglePixel(s, x, y);
      WrapMinus(t, left);
      WrapDifference(t - left, above);
      WrapMinus(t, above);
      WrapSum(t - left - above, corner);
      SmallIsUnwrapped(t);
      SmallIsUnwrapped(pixel);
      assert Difference(x, y) == Wrap(t - left - above + corner);
      WrapPlus(p, -(left + above - corner));
      WrapPlus(t - left - above + corner, left + above - corner);
    }

    lemma SinglePixel(s: Source, x: nat, y: nat)
      requires s.Valid() && x < s.width && y < s.height
      ensures Prefix(s, x + 1, y + 1) - Prefix(s, x, y + 1) - Prefix(s, x + 1, y) + Prefix(s, x, y) == s.Pixel(x, y)
    {
      hide Prefix, Source.Valid;
      RegionFromPrefixes(s, x, y, x, y);
      assert RectSum(s, x, y, 1, 1) == RowSum(s, x, y, 1) == s.Pixel(x, y);
    }

    /** Accepts exactly the right table. The second comparison of the source fails for no table at all. */
    method VerifyData(s: Source) returns (ok: bool)
      requires Valid() && SameSize(s)
      ensures ok <==> Holds(s)
      ensures forall x, y :: 0 <= x < width && 0 <= y < height ==> GetRegionSum(x, y, x, y) == Difference(x, y)
    {
      hide Prefix, Wrap;
      for y := 0 to height
        invariant SumsUpTo(s, 0, y)
      {
        for x := 0 to width
          invariant SumsUpTo(s, x, y)
        {
          DifferenceTells(s, x, y);
          var currVal := table[y, x];
          if x > 0 {
            currVal := Wrap(currVal as int - table[y, x - 1]);
          }
          if y > 0 {
            currVal := Wrap(currVal as int - table[y - 1, x]);
          }
          if x > 0 && y > 0 {
            currVal := Wrap(currVal + table[y - 1, x - 1]);
          }
          if currVal != s.Pixel(x, y) {
            return false;
          }
          assert currVal == Difference(x, y) == GetRegionSum(x, y, x, y);
        }
      }
      return true;
    }
  }
}
