/** Points, displacements and rectangles (mir::geometry), over unbounded integers. */
module Geometry {
  import opened Basics

  datatype Point = Point(x: int, y: int)

  datatype Displacement = Displacement(dx: int, dy: int)

  datatype Rectangle = Rectangle(topLeft: Point, size: Size)
  {
    function Left(): int { topLeft.x }
    function Top(): int { topLeft.y }
    function Right(): int { topLeft.x + size.width }
    function Bottom(): int { topLeft.y + size.height }
  }

  const EMPTY := Rectangle(Point(0, 0), Size(0, 0))

  function Plus(p: Point, d: Displacement): Point
  {
    Point(p.x + d.dx, p.y + d.dy)
  }

  function Minus(a: Point, b: Point): Displacement
  {
    Displacement(a.x - b.x, a.y - b.y)
  }

  /** The half-open box [topLeft, bottomRight). */
  predicate Holds(r: Rectangle, p: Point)
  {
    r.size.width != 0 && r.size.height != 0 && r.Left() <= p.x < r.Right() && r.Top() <= p.y < r.Bottom()
  }

  predicate Encloses(outer: Rectangle, inner: Rectangle)
  {
    && inner.Left() >= outer.Left() && inner.Right() <= outer.Right()
    && inner.Top() >= outer.Top() && inner.Bottom() <= outer.Bottom()
  }

  /** Enclosing, on points: for a rectangle that holds some point, every one of its points is held. */
  lemma EnclosesIff(outer: Rectangle, inner: Rectangle)
    requires exists p :: Holds(inner, p)
    ensures Encloses(outer, inner) <==> forall p :: Holds(inner, p) ==> Holds(outer, p)
  {
    var p :| Holds(inner, p);
    var first, last := inner.topLeft, Point(inner.Right() - 1, inner.Bottom() - 1);
    assert Holds(inner, first) && Holds(inner, last);
  }

  function Max(a: int, b: int): int { if a < b then b else a }

  function Min(a: int, b: int): int { if b < a then b else a }

  /** The common part of two rectangles: exactly the points in both. */
  function Intersection(a: Rectangle, b: Rectangle): (r: Rectangle)
    ensures forall p :: Holds(r, p) <==> Holds(a, p) && Holds(b, p)
    ensures r == EMPTY <==> forall p :: !(Holds(a, p) && Holds(b, p))
  {
    var left, right := Max(a.Left(), b.Left()), Min(a.Right(), b.Right());
    var top, bottom := Max(a.Top(), b.Top()), Min(a.Bottom(), b.Bottom());
    if left < right && top < bottom then
      var r := Rectangle(Point(left, top), Size(right - left, bottom - top));
      assert Holds(r, r.topLeft);
      r
    else EMPTY
  }
}
