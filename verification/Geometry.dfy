/** The rectangle algebra that the bounds tree is built on.  Coordinates are exact reals. */
module Geometry {

  datatype Point = Point(x: real, y: real) {
    function Max(other: Point): Point {
      Point(if x > other.x then x else other.x, if y > other.y then y else other.y)
    }

    function Min(other: Point): Point {
      Point(if x <= other.x then x else other.x, if y <= other.y then y else other.y)
    }
  }

  datatype Size = Size(width: real, height: real)

  datatype Bounds = Bounds(origin: Point, size: Size) {

    function BottomRight(): Point {
      Point(origin.x + size.width, origin.y + size.height)
    }

    static function FromCorners(topLeft: Point, bottomRight: Point): (b: Bounds)
      ensures b.origin == topLeft && b.BottomRight() == bottomRight
    {
      Bounds(topLeft, Size(bottomRight.x - topLeft.x, bottomRight.y - topLeft.y))
    }

    /** Corner-wise containment; a partial order, whatever the signs of the sizes. */
    predicate Covers(inner: Bounds) {
      && origin.x <= inner.origin.x
      && origin.y <= inner.origin.y
      && inner.BottomRight().x <= BottomRight().x
      && inner.BottomRight().y <= BottomRight().y
    }

    function Union(other: Bounds): (u: Bounds)
      ensures u.Covers(this) && u.Covers(other)
    {
      FromCorners(origin.Min(other.origin), BottomRight().Max(other.BottomRight()))
    }

    predicate Intersects(other: Bounds) {
      && origin.x < other.BottomRight().x
      && BottomRight().x > other.origin.x
      && origin.y < other.BottomRight().y
      && BottomRight().y > other.origin.y
    }

    function HalfPerimeter(): real {
      size.width + size.height
    }

    /** `p` lies strictly inside. */
    predicate Inside(p: Point) {
      && origin.x < p.x < BottomRight().x
      && origin.y < p.y < BottomRight().y
    }
  }

  /** The union is the least upper bound of its arguments, for sizes of either sign. */
  lemma UnionIsLeast(a: Bounds, b: Bounds, c: Bounds)
    ensures c.Covers(a.Union(b)) <==> c.Covers(a) && c.Covers(b)
  {
  }

  /** Antisymmetry: the least upper bound is unique. */
  lemma CoversAntisymmetric(a: Bounds, b: Bounds)
    requires a.Covers(b) && b.Covers(a)
    ensures a == b
  {
    assert a.origin == b.origin;
    assert a.size.width == b.BottomRight().x - b.origin.x;
  }

  /** Covering is all that spatial pruning needs. */
  lemma CoverKeepsIntersection(query: Bounds, outer: Bounds, inner: Bounds)
    requires outer.Covers(inner)
    requires query.Intersects(inner)
    ensures query.Intersects(outer)
  {
  }

  /** `Intersects` is the geometric notion: two rectangles share an interior point exactly when
      both have an interior and `Intersects` holds. */
  lemma IntersectsIffSharedPoint(a: Bounds, b: Bounds)
    ensures (exists p: Point :: a.Inside(p) && b.Inside(p)) <==>
            a.Intersects(b) && a.size.width > 0.0 && a.size.height > 0.0
                            && b.size.width > 0.0 && b.size.height > 0.0
  {
    if a.Intersects(b) && a.size.width > 0.0 && a.size.height > 0.0 && b.size.width > 0.0 && b.size.height > 0.0 {
      var topLeft := a.origin.Max(b.origin);
      var bottomRight := a.BottomRight().Min(b.BottomRight());
      var p := Point((topLeft.x + bottomRight.x) / 2.0, (topLeft.y + bottomRight.y) / 2.0);
      assert a.Inside(p) && b.Inside(p);
    }
  }
}
