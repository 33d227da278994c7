/** 8-bit pixels, the images they are stored in, and sums over rectangles of them. */
module Pixels {
  import opened Arithmetic

  type Byte = x: int | 0 <= x < 256

  /** Source pixels: `width` by `height` of them, rows `stride` apart in a flat buffer. */
  datatype Source = Source(data: seq<Byte>, stride: nat, width: nat, height: nat) {
    predicate Valid() {
      width <= stride && (height > 0 ==> (height - 1) * stride + width <= |data|)
    }

    /** The n pixels from (x, y) on lie in the rectangle. */
    predicate InRow(x: int, y: int, n: nat) {
      0 <= y < height && 0 <= x && x + n <= width
    }

    lemma InBuffer(x: int, y: int, n: nat)
      requires Valid() && InRow(x, y, n)
      ensures 0 <= y * stride + x && y * stride + x + n <= |data|
    {
      ProductMonotone(y, height - 1, stride);
      NonNegativeProduct(y, stride);
    }

    function Pixel(x: int, y: int): Byte
      requires Valid() && InRow(x, y, 1)
    {
      InBuffer(x, y, 1);
      data[y * stride + x]
    }
  }

  /** Sum of the first n pixels from (x, y) on. */
  function RowSum(s: Source, x: int, y: int, n: nat): (sum: nat)
    requires s.Valid() && s.InRow(x, y, n)
    ensures sum <= 255 * n
  {
    if n == 0 then 0 else RowSum(s, x, y, n - 1) + s.Pixel(x + n - 1, y)
  }

  /** Sum over `rows` rows of `columns` pixels, top left corner (x, y). */
  function RectSum(s: Source, x: int, y: int, columns: nat, rows: nat): (sum: nat)
    requires s.Valid() && 0 <= x && x + columns <= s.width && 0 <= y && y + rows <= s.height
    ensures sum <= 255 * columns * rows
  {
    if rows == 0 then 0
    else
      Distribute(rows - 1, 1, 255 * columns);
      RectSum(s, x, y, columns, rows - 1) + RowSum(s, x, y + rows - 1, columns)
  }

  lemma {:induction false} SplitRow(s: Source, x: int, y: int, left: nat, right: nat)
    requires s.Valid() && s.InRow(x, y, left + right)
    ensures RowSum(s, x, y, left + right) == RowSum(s, x, y, left) + RowSum(s, x + left, y, right)
  {
    if right > 0 {
      SplitRow(s, x, y, left, right - 1);
      assert left + right - 1 == left + (right - 1);
    }
  }

  /** Two rectangles side by side. */
  lemma {:induction false} SplitColumns(s: Source, x: int, y: int, left: nat, right: nat, rows: nat)
    requires s.Valid() && 0 <= x && x + left + right <= s.width && 0 <= y && y + rows <= s.height
    ensures RectSum(s, x, y, left + right, rows) == RectSum(s, x, y, left, rows) + RectSum(s, x + left, y, right, rows)
  {
    if rows > 0 {
      SplitColumns(s, x, y, left, right, rows - 1);
      SplitRow(s, x, y + rows - 1, left, right);
    }
  }

  /** One rectangle above the other. */
  lemma {:induction false} SplitRows(s: Source, x: int, y: int, columns: nat, top: nat, bottom: nat)
    requires s.Valid() && 0 <= x && x + columns <= s.width && 0 <= y && y + top + bottom <= s.height
    ensures RectSum(s, x, y, columns, top + bottom)
         == RectSum(s, x, y, columns, top) + RectSum(s, x, y + top, columns, bottom)
  {
    if bottom > 0 {
      SplitRows(s, x, y, columns, top, bottom - 1);
      assert top + bottom - 1 == top + (bottom - 1);
    }
  }
}
