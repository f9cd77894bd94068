/**
 * The enclosing box of a region in image-normalised coordinates: a box is
 * its own enclosing box, a point encloses itself in a box of size zero.
 */
module RegionTools {
  import opened Common
  import opened AnnotatorTypes

  /** The closed rectangle `r` holds q. */
  predicate InRect(r: Rect, q: Pt)
  {
    r.x <= q.x <= r.x + r.w && r.y <= q.y <= r.y + r.h
  }

  /** The points a region covers: a point covers itself, a box its closed area. */
  predicate InShape(s: Shape, q: Pt)
  {
    match s
    case Point(x, y) => q == Pt(x, y)
    case Box(x, y, w, h) => x <= q.x <= x + w && y <= q.y <= y + h
  }

  /**
   * `getEnclosingBox`: a box keeps its x, y, w, h, a point gets size zero.
   * The origin is always the region's own x, y.
   */
  function EnclosingBox(r: Region): (b: Rect)
    ensures b.x == r.shape.x && b.y == r.shape.y
    ensures r.shape.Point? ==> b.w == 0.0 && b.h == 0.0
  {
    match r.shape
    case Box(x, y, w, h) => Rect(x, y, w, h)
    case Point(x, y) => Rect(x, y, 0.0, 0.0)
  }

  /**
   * The enclosing box covers exactly the points the region covers, for
   * points as well as boxes.
   */
  lemma EnclosingBoxIsExact(r: Region, q: Pt)
    ensures InRect(EnclosingBox(r), q) <==> InShape(r.shape, q)
  {
    if r.shape.Point? && InRect(EnclosingBox(r), q) {
      assert q.x == r.shape.x && q.y == r.shape.y;
    }
  }

  /**
   * A region whose size is not negative has an enclosing box of non-negative
   * size that contains the region's origin.
   */
  lemma EnclosingBoxContainsOrigin(r: Region)
    requires SizeNonNegative(r.shape)
    ensures EnclosingBox(r).w >= 0.0 && EnclosingBox(r).h >= 0.0
    ensures InRect(EnclosingBox(r), Pt(r.shape.x, r.shape.y))
  {
  }
}
