/**
 * The small value types the simulation borrows from Qt: integer points and
 * polygons (QPoint, QPolygon), integer rectangles with Qt's inclusive corner
 * convention (QRect), and 2-D vectors (QVector2D, idealised over the reals).
 * Also the two integer roundings the core relies on: C++ division by two,
 * which truncates toward zero, and the rounding of a vector to a point.
 */
module Geometry {

  /** An integer point (QPoint). */
  datatype Point = Point(x: int, y: int)

  /** A 2-D vector (QVector2D), with real components instead of floats. */
  datatype Vec2 = Vec2(x: real, y: real)

  const Zero: Vec2 := Vec2(0.0, 0.0)

  function Add(u: Vec2, v: Vec2): Vec2
  {
    Vec2(u.x + v.x, u.y + v.y)
  }

  function Sub(u: Vec2, v: Vec2): Vec2
  {
    Vec2(u.x - v.x, u.y - v.y)
  }

  function Scale(k: real, v: Vec2): Vec2
  {
    Vec2(k * v.x, k * v.y)
  }

  function LengthSquared(v: Vec2): (r: real)
    ensures r >= 0.0
  {
    v.x * v.x + v.y * v.y
  }

  /** The vector with the coordinates of an integer point (QVector2D(QPoint)). */
  function ToVec(p: Point): Vec2
  {
    Vec2(p.x as real, p.y as real)
  }

  /** `a / 2` on C++ ints: the quotient is truncated toward zero. */
  function HalfTowardZero(a: int): (r: int)
    ensures 0 <= a ==> 0 <= a - 2 * r <= 1
    ensures a < 0 ==> -1 <= a - 2 * r <= 0
  {
    if a >= 0 then a / 2 else -((-a) / 2)
  }

  /**
   * Rounding of one coordinate to the nearest integer, as QVector2D::toPoint
   * does. Exact halves round upward here; the rounding only has to be some
   * fixed function of the position for the broad phase.
   */
  function Round(v: real): (r: int)
    ensures v - 0.5 < r as real <= v + 0.5
  {
    (v + 0.5).Floor
  }

  function RoundPoint(v: Vec2): Point
  {
    Point(Round(v.x), Round(v.y))
  }

  /**
   * An integer rectangle stored as its inclusive corners, as QRect stores
   * them: left() and right() are the smallest and largest column it covers,
   * top() and bottom() the smallest and largest row.
   */
  datatype Rect = Rect(left: int, top: int, right: int, bottom: int)

  function Translate(r: Rect, d: Point): Rect
  {
    Rect(r.left + d.x, r.top + d.y, r.right + d.x, r.bottom + d.y)
  }

  function PointSub(p: Point, q: Point): Point
  {
    Point(p.x - q.x, p.y - q.y)
  }

  function TopLeft(r: Rect): Point
  {
    Point(r.left, r.top)
  }

  /** QRect::center(): the midpoint of the corners, each halved with truncation. */
  function Center(r: Rect): Point
  {
    Point(HalfTowardZero(r.left + r.right), HalfTowardZero(r.top + r.bottom))
  }

  function Min(a: int, b: int): int
  {
    if a <= b then a else b
  }

  function Max(a: int, b: int): int
  {
    if a >= b then a else b
  }

  /** The smallest rectangle holding the rectangle r and the point p. */
  function Extend(r: Rect, p: Point): Rect
  {
    Rect(Min(r.left, p.x), Min(r.top, p.y), Max(r.right, p.x), Max(r.bottom, p.y))
  }

  /**
   * QPolygon::boundingRect(): the corners start at the first vertex and are
   * widened by each later vertex in turn. A polygon without vertices gives
   * QRect(0, 0, 0, 0), whose right() and bottom() are -1.
   */
  function BoundingRect(s: seq<Point>): (r: Rect)
    ensures |s| > 0 ==> r.left <= r.right && r.top <= r.bottom
    ensures |s| == 0 ==> r.right == r.left - 1 && r.bottom == r.top - 1
  {
    if |s| == 0 then Rect(0, 0, -1, -1)
    else if |s| == 1 then Rect(s[0].x, s[0].y, s[0].x, s[0].y)
    else Extend(BoundingRect(s[..|s| - 1]), s[|s| - 1])
  }

  /** Every vertex lies inside the bounding rectangle, corners included. */
  lemma {:induction false} BoundingRectContains(s: seq<Point>)
    ensures forall i :: 0 <= i < |s| ==>
      BoundingRect(s).left <= s[i].x <= BoundingRect(s).right &&
      BoundingRect(s).top <= s[i].y <= BoundingRect(s).bottom
  {
    if |s| > 1 {
      var t := s[..|s| - 1];
      BoundingRectContains(t);
      assert forall i :: 0 <= i < |t| ==> s[i] == t[i];
    }
  }

  /** The bounding rectangle is the smallest: a vertex lies on each of its four edges. */
  lemma {:induction false} BoundingRectTight(s: seq<Point>)
    requires |s| > 0
    ensures exists i :: 0 <= i < |s| && s[i].x == BoundingRect(s).left
    ensures exists i :: 0 <= i < |s| && s[i].x == BoundingRect(s).right
    ensures exists i :: 0 <= i < |s| && s[i].y == BoundingRect(s).top
    ensures exists i :: 0 <= i < |s| && s[i].y == BoundingRect(s).bottom
  {
    if |s| == 1 {
      assert s[0].x == BoundingRect(s).left;
    } else {
      var t := s[..|s| - 1];
      var last := |s| - 1;
      BoundingRectTight(t);
      assert forall i :: 0 <= i < |t| ==> s[i] == t[i];
      var box := BoundingRect(t);
      var il :| 0 <= il < |t| && t[il].x == box.left;
      var ir :| 0 <= ir < |t| && t[ir].x == box.right;
      var it :| 0 <= it < |t| && t[it].y == box.top;
      var ib :| 0 <= ib < |t| && t[ib].y == box.bottom;
      assert s[if box.left <= s[last].x then il else last].x == BoundingRect(s).left;
      assert s[if box.right >= s[last].x then ir else last].x == BoundingRect(s).right;
      assert s[if box.top <= s[last].y then it else last].y == BoundingRect(s).top;
      assert s[if box.bottom >= s[last].y then ib else last].y == BoundingRect(s).bottom;
    }
  }
}
