/**
 * Axis-aligned rectangles as `java.awt.geom.Rectangle2D.Float` uses them:
 * top-left corner, width and height. Overlap is strict and needs positive
 * area on both sides; the intersection is the rectangle between the larger
 * minima and the smaller maxima.
 */
module Geometry {
  import opened Vectors

  datatype Rect = Rect(x: real, y: real, width: real, height: real)

  predicate IsEmpty(r: Rect) {
    r.width <= 0.0 || r.height <= 0.0
  }

  function MaxX(r: Rect): real { r.x + r.width }
  function MaxY(r: Rect): real { r.y + r.height }
  function CenterX(r: Rect): real { r.x + r.width / 2.0 }
  function CenterY(r: Rect): real { r.y + r.height / 2.0 }

  function Min(a: real, b: real): real { if a <= b then a else b }
  function Max(a: real, b: real): real { if a >= b then a else b }

  /** `intersects`: both rectangles non-empty and overlapping on both axes with positive length. */
  predicate Intersects(a: Rect, b: Rect) {
    !IsEmpty(a) && !IsEmpty(b)
    && b.x + b.width > a.x && b.y + b.height > a.y
    && b.x < a.x + a.width && b.y < a.y + a.height
  }

  /** `createIntersection`: from the larger minima to the smaller maxima (negative extents when apart). */
  function Intersection(a: Rect, b: Rect): (r: Rect)
    ensures r.x == Max(a.x, b.x) && r.y == Max(a.y, b.y)
    ensures MaxX(r) == Min(MaxX(a), MaxX(b)) && MaxY(r) == Min(MaxY(a), MaxY(b))
  {
    var x1, y1 := Max(a.x, b.x), Max(a.y, b.y);
    var x2, y2 := Min(MaxX(a), MaxX(b)), Min(MaxY(a), MaxY(b));
    Rect(x1, y1, x2 - x1, y2 - y1)
  }

  /** `contains(x, y)`: the half-open box [x, x + width) × [y, y + height). */
  predicate ContainsPoint(r: Rect, p: Vec) {
    p.x >= r.x && p.y >= r.y && p.x < r.x + r.width && p.y < r.y + r.height
  }

  /** Overlap is symmetric, and so is the intersection. */
  lemma IntersectsSymmetric(a: Rect, b: Rect)
    ensures Intersects(a, b) <==> Intersects(b, a)
    ensures Intersection(a, b) == Intersection(b, a)
  {
  }

  /** Two non-empty rectangles overlap exactly when their intersection is non-empty. */
  lemma IntersectsIffNonEmptyIntersection(a: Rect, b: Rect)
    requires !IsEmpty(a) && !IsEmpty(b)
    ensures Intersects(a, b) <==> !IsEmpty(Intersection(a, b))
  {
  }

  /** A point lies in the intersection exactly when it lies in both rectangles. */
  lemma IntersectionContainsPoint(a: Rect, b: Rect, p: Vec)
    ensures ContainsPoint(Intersection(a, b), p) <==> ContainsPoint(a, p) && ContainsPoint(b, p)
  {
  }

  /** Overlapping rectangles share a point: the intersection's top-left corner. */
  lemma IntersectsShareCorner(a: Rect, b: Rect)
    requires Intersects(a, b)
    ensures ContainsPoint(a, Vec(Intersection(a, b).x, Intersection(a, b).y))
    ensures ContainsPoint(b, Vec(Intersection(a, b).x, Intersection(a, b).y))
  {
  }
}
