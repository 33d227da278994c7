/** Points and boxes in exact arithmetic (geom.h). */
module Geometry {

  datatype Point = Point(x: real, y: real)

  datatype Box = Box(left: real, top: real, right: real, bottom: real) {

    /** What every BoundingBox constructor checks. */
    predicate Valid() {
      left < right && top < bottom
    }

    function Width(): real {
      right - left
    }

    function Height(): real {
      bottom - top
    }

    function Center(): Point {
      Point((left + right) / 2.0, (top + bottom) / 2.0)
    }

    /** Edges are inside. */
    predicate Contains(p: Point) {
      left <= p.x <= right && top <= p.y <= bottom
    }

    function Shift(d: Point): Box {
      Box(left + d.x, top + d.y, right + d.x, bottom + d.y)
    }

    /** Scales about the centre. */
    function Scale(sx: real, sy: real): Box {
      var c := Center();
      var hw := Width() / 2.0;
      var hh := Height() / 2.0;
      Box(c.x - hw * sx, c.y - hh * sy, c.x + hw * sx, c.y + hh * sy)
    }
  }

  function Square(a: real): real {
    a * a
  }

  lemma ScaleKeepsCenterAndValidity(b: Box, sx: real, sy: real)
    requires b.Valid() && sx > 0.0 && sy > 0.0
    ensures b.Scale(sx, sy).Valid()
    ensures b.Scale(sx, sy).Center() == b.Center()
    ensures b.Scale(sx, sy).Width() == b.Width() * sx
    ensures b.Scale(sx, sy).Height() == b.Height() * sy
  {
    var hw := b.Width() / 2.0;
    var hh := b.Height() / 2.0;
    assert hw > 0.0 && hh > 0.0;
    assert hw * sx > 0.0 && hh * sy > 0.0;
    assert hw * sx + hw * sx == b.Width() * sx;
    assert hh * sy + hh * sy == b.Height() * sy;
  }
}
