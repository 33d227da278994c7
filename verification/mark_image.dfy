/** Marking a disc of pixels without square roots (MarkImage in image_utils.h). */
module Marking {

  function Square(a: int): int {
    a * a
  }

  function Abs(a: int): nat {
    if a < 0 then -a else a
  }

  lemma SquareOrder(a: nat, b: nat)
    ensures a < b <==> Square(a) < Square(b)
  {
    if a < b {
      assert (b - a) * (b + a) == b * b - a * a;
      Positive(b - a, b + a);
    } else if b < a {
      assert (a - b) * (a + b) == a * a - b * b;
      Positive(a - b, a + b);
    }
  }

  lemma Positive(a: int, b: int)
    requires a > 0 && b > 0
    ensures a * b > 0
  {
  }

  lemma SquareAbs(a: int)
    ensures Square(Abs(a)) == Square(a) >= 0
  {
    assert (-a) * (-a) == a * a;
    if a > 0 {
      Positive(a, a);
    } else if a < 0 {
      Positive(-a, -a);
    }
  }

  /** The least d >= from that reaches the circle in the row at distance dy. */
  function WidthFrom(radius: nat, dy: nat, from: nat): (d: nat)
    requires dy <= radius && from <= radius
    ensures from <= d <= radius && Square(dy) + Square(d) >= Square(radius)
    ensures forall e :: from <= e < d ==> Square(dy) + Square(e) < Square(radius)
    decreases radius - from
  {
    SquareAbs(dy);
    if Square(dy) + Square(from) >= Square(radius) then from else WidthFrom(radius, dy, from + 1)
  }

  /** Half width of the disc in the row at distance dy: the least d >= 0 with d^2 + dy^2 >= r^2. */
  function Width(radius: nat, dy: nat): (d: nat)
    requires dy <= radius
    ensures d <= radius && Square(dy) + Square(d) >= Square(radius)
    ensures forall e :: 0 <= e < d ==> Square(dy) + Square(e) < Square(radius)
  {
    WidthFrom(radius, dy, 0)
  }

  predicate Marked(x: int, y: int, radius: int, px: int, py: int) {
    radius >= 0 && Abs(py - y) <= radius && Abs(px - x) <= Width(radius, Abs(py - y))
  }

  /** Starting the search at r - dy skips no smaller answer. */
  lemma SearchStartIsSafe(radius: nat, dy: nat)
    requires dy <= radius
    ensures WidthFrom(radius, dy, radius - dy) == Width(radius, dy)
  {
    var d, w := WidthFrom(radius, dy, radius - dy), Width(radius, dy);
    if w < radius - dy {
      SquareOrder(w, radius - dy);
      BelowCircle(radius, dy);
    }
  }

  lemma BelowCircle(radius: nat, dy: nat)
    requires dy <= radius
    ensures Square(dy) + Square(radius - dy) <= Square(radius)
  {
    var rest := radius - dy;
    assert Square(dy + rest) == Square(dy) + Square(rest) + 2 * (dy * rest);
    assert dy * rest >= 0;
  }

  /** Rows further from the centre are no wider, so clamping a row to the border adds nothing. */
  lemma WidthAntitone(radius: nat, a: nat, b: nat)
    requires a <= b <= radius
    ensures Width(radius, b) <= Width(radius, a)
  {
    SquareOrder(a, b);
    var w := Width(radius, a);
    assert Square(b) + Square(w) >= Square(radius);
  }

  /** The marked pixels without any search: one step towards the centre column is inside the circle. */
  lemma MarkedIsDisc(x: int, y: int, radius: nat, px: int, py: int)
    ensures Marked(x, y, radius, px, py) <==>
            Abs(py - y) <= radius && (px == x || Square(Abs(px - x) - 1) + Square(py - y) < Square(radius))
  {
    var dx, dy := Abs(px - x), Abs(py - y);
    SquareAbs(py - y);
    if dy <= radius && dx > 0 {
      var w := Width(radius, dy);
      if dx > w {
        SquareOrder(w, dx - 1);
      }
    }
  }

  /** The whole disc is marked: an unmarked pixel is further away than the radius. */
  lemma UnmarkedIsFar(x: int, y: int, radius: nat, px: int, py: int)
    requires !Marked(x, y, radius, px, py)
    ensures Square(px - x) + Square(py - y) > Square(radius)
  {
    var dx, dy := Abs(px - x), Abs(py - y);
    SquareAbs(px - x);
    SquareAbs(py - y);
    if dy > radius {
      SquareOrder(radius, dy);
    } else {
      SquareOrder(Width(radius, dy), dx);
    }
  }

  /** The centre always marks itself. */
  lemma CenterMarked(x: int, y: int, radius: nat)
    ensures Marked(x, y, radius, x, y)
  {
  }

  // ---------------------------------------------------------------------------------------

  ghost predicate ValidPixel(img: array2<bool>, x: int, y: int) {
    0 <= x < img.Length1 && 0 <= y < img.Length0
  }

  /** Marks columns [from, to] of one row. */
  method MarkRow(img: array2<bool>, row: nat, from: nat, to: int)
    requires row < img.Length0 && to < img.Length1
    modifies img
    ensures forall px, py :: 0 <= px < img.Length1 && 0 <= py < img.Length0 ==>
              img[py, px] == (old(img[py, px]) || (py == row && from <= px <= to))
  {
    forall px | from <= px <= to {
      img[row, px] := true;
    }
  }

  /** Which pixels rows at a distance below dy have marked. */
  ghost predicate MarkedAbove(x: int, y: int, radius: int, dy: int, px: int, py: int) {
    Abs(py - y) < dy && Marked(x, y, radius, px, py)
  }

  method MarkImage(x: int, y: int, radius: int, img: array2<bool>)
    requires ValidPixel(img, x, y)
    modifies img
    ensures forall px, py :: ValidPixel(img, px, py) ==>
              img[py, px] == (old(img[py, px]) || Marked(x, y, radius, px, py))
  {
    hide Width, WidthFrom, Square;
    var squaredRadius := Square(radius);
    var dY := 0;
    while dY <= radius
      invariant 0 <= dY && (radius >= 0 ==> dY <= radius + 1)
      invariant forall px, py :: ValidPixel(img, px, py) ==>
                  img[py, px] == (old(img[py, px]) || MarkedAbove(x, y, radius, dY, px, py))
    {
      var minY := if y - dY > 0 then y - dY else 0;
      var maxY := if y + dY > img.Length0 - 1 then img.Length0 - 1 else y + dY;
      var dX := SearchWidth(radius, dY, squaredRadius);
      var minX := if x - dX > 0 then x - dX else 0;
      var maxX := if x + dX > img.Length1 - 1 then img.Length1 - 1 else x + dX;
      MarkRow(img, minY, minX, maxX);
      MarkRow(img, maxY, minX, maxX);
      forall px, py | ValidPixel(img, px, py)
        ensures MarkedAbove(x, y, radius, dY + 1, px, py) <==>
                MarkedAbove(x, y, radius, dY, px, py) || ((py == minY || py == maxY) && minX <= px <= maxX)
      {
        RowMarks(x, y, radius, dY, px, py, img.Length0);
      }
      dY := dY + 1;
    }
  }

  /** The inner loop: the first d from r - dy on that reaches the circle. */
  method SearchWidth(radius: nat, dY: nat, squaredRadius: int) returns (dX: nat)
    requires dY <= radius && squaredRadius == Square(radius)
    ensures dX == Width(radius, dY)
  {
    SearchStartIsSafe(radius, dY);
    var squaredYDist := dY * dY;
    dX := radius - dY;
    while dX <= radius
      invariant radius - dY <= dX <= radius
      invariant WidthFrom(radius, dY, dX) == Width(radius, dY)
    {
      if squaredYDist + dX * dX >= squaredRadius {
        break;
      }
      dX := dX + 1;
    }
  }

  /** A row clamped to the border lies nearer to the centre, where the disc is at least as wide. */
  lemma RowMarks(x: int, y: int, radius: nat, dY: nat, px: int, py: int, height: nat)
    requires dY <= radius && 0 <= py < height && 0 <= y < height
    ensures var minY := if y - dY > 0 then y - dY else 0;
      var maxY := if y + dY > height - 1 then height - 1 else y + dY;
      MarkedAbove(x, y, radius, dY + 1, px, py) <==>
      MarkedAbove(x, y, radius, dY, px, py) || ((py == minY || py == maxY) && Abs(px - x) <= Width(radius, dY))
  {
    hide Width;
    if Abs(py - y) <= dY {
      WidthAntitone(radius, Abs(py - y), dY);
    }
  }
}
