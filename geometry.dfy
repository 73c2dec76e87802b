/**
 * Points and rectangular hit regions in canvas-local logical pixels.
 *
 * The scene builds each interactive region as a `Path2D` holding one
 * rectangle and asks the drawing context whether a point lies in it.
 * Here that query is rectangle containment with a closed edge convention:
 * a point ON the boundary of the rectangle counts as inside, as the canvas
 * treats points on a path. A rectangle whose width or height is negative
 * covers the same area as its normalised counterpart.
 */
module Geometry {
  datatype Point = Point(x: real, y: real)

  /** The arguments of `Path2D.rect(x, y, w, h)`. */
  datatype Rect = Rect(x: real, y: real, w: real, h: real)

  /** v lies on the closed segment between a and b, whichever is smaller. */
  predicate Between(v: real, a: real, b: real) {
    (a <= v <= b) || (b <= v <= a)
  }

  /** The point-in-path query on a rectangular path, edges included. */
  predicate Contains(r: Rect, p: Point) {
    Between(p.x, r.x, r.x + r.w) && Between(p.y, r.y, r.y + r.h)
  }

  /** No point lies in both rectangles. */
  ghost predicate Disjoint(a: Rect, b: Rect) {
    forall p :: !(Contains(a, p) && Contains(b, p))
  }

  /** Two rectangles of non-negative width, one strictly left of the other, share no point. */
  lemma SeparatedHorizontally(a: Rect, b: Rect)
    requires a.w >= 0.0 && b.w >= 0.0
    requires a.x + a.w < b.x
    ensures Disjoint(a, b)
  {
    forall p
      ensures !(Contains(a, p) && Contains(b, p))
    {
    }
  }

  /** Two rectangles of non-negative height, one strictly above the other, share no point. */
  lemma SeparatedVertically(a: Rect, b: Rect)
    requires a.h >= 0.0 && b.h >= 0.0
    requires a.y + a.h < b.y
    ensures Disjoint(a, b)
  {
    forall p
      ensures !(Contains(a, p) && Contains(b, p))
    {
    }
  }
}
