/**
 * Projection of a region's enclosing box onto the canvas: the box is scaled
 * from normalised to content pixels, grown by a margin, and mapped back to
 * device pixels through the inverse of the viewport matrix.
 *
 * Its width and height are divided by the matrix's diagonal entries, which
 * may be zero; that quotient is kept as an IEEE-style extended number so that
 * the highlight box's guard against a zero or infinite size can be stated.
 */
module ProjectRegionBox {
  import opened Common
  import opened AnnotatorTypes
  import opened Matrices
  import opened RegionTools

  /** A quotient as JavaScript computes it: finite, an infinity, or NaN. */
  datatype Extended = Finite(v: real) | PosInfinity | NegInfinity | NotANumber

  /**
   * `x / y` on numbers: the exact quotient when y is not 0; otherwise an
   * infinity of the sign of x, or NaN for 0 / 0.
   */
  function Divide(x: real, y: real): (q: Extended)
    ensures q.Finite? <==> y != 0.0
    ensures q.Finite? ==> q.v * y == x
    ensures q == PosInfinity <==> y == 0.0 && x > 0.0
    ensures q == NegInfinity <==> y == 0.0 && x < 0.0
    ensures q == NotANumber <==> y == 0.0 && x == 0.0
  {
    if y != 0.0 then Finite(x / y)
    else if x > 0.0 then PosInfinity
    else if x < 0.0 then NegInfinity
    else NotANumber
  }

  /** The projected box: a device-pixel corner and a size that may not be finite. */
  datatype PBox = PBox(x: real, y: real, w: Extended, h: Extended)

  /** The margin around a region's content box: 15 pixels for points, 2 for anything else. */
  function Margin(r: Region): (m: real)
    ensures m > 0.0
    ensures r.IsPoint() <==> m == 15.0
    ensures r.IsBox() <==> m == 2.0
  {
    if r.IsPoint() then 15.0 else 2.0
  }

  /** The enclosing box in content pixels, grown by the margin on every side. */
  function ContentBox(r: Region, iw: real, ih: real): Rect
  {
    var b := EnclosingBox(r);
    var m := Margin(r);
    Rect(b.x * iw - m, b.y * ih - m, b.w * iw + m * 2.0, b.h * ih + m * 2.0)
  }

  /**
   * The content box holds every point of the region, scaled to content
   * pixels, at least a margin away from each of its edges; its size is at
   * least twice the margin when the region's size is not negative.
   */
  lemma {:induction false} ContentBoxEnclosesRegion(r: Region, iw: real, ih: real, q: Pt)
    requires iw >= 0.0 && ih >= 0.0
    requires InShape(r.shape, q)
    ensures var c, m := ContentBox(r, iw, ih), Margin(r);
      && c.x + m <= q.x * iw <= c.x + c.w - m
      && c.y + m <= q.y * ih <= c.y + c.h - m
  {
    var b, c, m := EnclosingBox(r), ContentBox(r, iw, ih), Margin(r);
    EnclosingBoxIsExact(r, q);
    assert b.x <= q.x <= b.x + b.w && b.y <= q.y <= b.y + b.h;
    ScaleBetween(b.x, q.x, b.w, iw);
    ScaleBetween(b.y, q.y, b.h, ih);
    assert c.x + m == b.x * iw && c.x + c.w - m == b.x * iw + b.w * iw;
    assert c.y + m == b.y * ih && c.y + c.h - m == b.y * ih + b.h * ih;
  }

  /** Scaling by a non-negative factor keeps a number between the ends of an interval. */
  lemma ScaleBetween(lo: real, v: real, len: real, k: real)
    requires k >= 0.0 && lo <= v <= lo + len
    ensures lo * k <= v * k <= lo * k + len * k
  {
    assert (v - lo) * k >= 0.0;
    assert (lo + len - v) * k >= 0.0;
  }

  /** A region of non-negative size has a content box of at least twice the margin. */
  lemma ContentBoxSize(r: Region, iw: real, ih: real)
    requires SizeNonNegative(r.shape) && iw >= 0.0 && ih >= 0.0
    ensures ContentBox(r, iw, ih).w >= 2.0 * Margin(r) > 0.0
    ensures ContentBox(r, iw, ih).h >= 2.0 * Margin(r) > 0.0
  {
    EnclosingBoxContainsOrigin(r);
    var b := EnclosingBox(r);
    assert b.w * iw >= 0.0 && b.h * ih >= 0.0;
  }

  /**
   * The projection callback: the content box's corner mapped through the
   * inverse matrix, its size divided by `mat.a` and `mat.d`. Inverting a
   * matrix whose determinant is 0 throws.
   */
  function Project(r: Region, m: Affine, iw: real, ih: real): (res: Result<PBox>)
    ensures res.Error? <==> Det(m) == 0.0
  {
    if Det(m) == 0.0 then Error("Matrix not invertible")
    else
      var c := ContentBox(r, iw, ih);
      var corner := Apply(Inv(m), Pt(c.x, c.y));
      Ok(PBox(corner.x, corner.y, Divide(c.w, m.a), Divide(c.h, m.d)))
  }

  /** The projected corner is the device point the matrix takes to the content box's corner. */
  lemma ProjectInvertsMatrix(r: Region, m: Affine, iw: real, ih: real)
    requires Det(m) != 0.0
    ensures var p, c := Project(r, m, iw, ih).value, ContentBox(r, iw, ih);
      Apply(m, Pt(p.x, p.y)) == Pt(c.x, c.y)
  {
    var c := ContentBox(r, iw, ih);
    var corner := Apply(Inv(m), Pt(c.x, c.y));
    var p := Project(r, m, iw, ih).value;
    assert Pt(p.x, p.y) == corner;
    InverseRoundTrip(m, Pt(c.x, c.y));
  }

  /**
   * The projected size is the content size divided by the diagonal entries:
   * by the contract of `Divide`, a projected size times a non-zero entry is
   * the content size.
   */
  lemma ProjectedSizes(r: Region, m: Affine, iw: real, ih: real)
    requires Det(m) != 0.0
    ensures Project(r, m, iw, ih).value.w == Divide(ContentBox(r, iw, ih).w, m.a)
    ensures Project(r, m, iw, ih).value.h == Divide(ContentBox(r, iw, ih).h, m.d)
  {
  }

  /** A point projects to a width of 30 / `mat.a`, never zero when `mat.a` is positive. */
  lemma PointWidth(r: Region, m: Affine, iw: real, ih: real)
    requires r.IsPoint() && Det(m) != 0.0 && m.a > 0.0
    ensures Project(r, m, iw, ih).value.w == Finite(30.0 / m.a)
    ensures 30.0 / m.a > 0.0
  {
    var c := ContentBox(r, iw, ih);
    assert c.w == 30.0;
  }

  /**
   * For a region of non-negative size the projected size is never NaN or
   * negative infinity: it is finite when the diagonal entry is not zero and
   * positive infinity otherwise.
   */
  lemma ProjectedSizeKind(r: Region, m: Affine, iw: real, ih: real)
    requires SizeNonNegative(r.shape) && iw >= 0.0 && ih >= 0.0 && Det(m) != 0.0
    ensures var p := Project(r, m, iw, ih).value;
      && (p.w.Finite? || p.w == PosInfinity) && (p.w == PosInfinity <==> m.a == 0.0)
      && (p.h.Finite? || p.h == PosInfinity) && (p.h == PosInfinity <==> m.d == 0.0)
  {
    ContentBoxSize(r, iw, ih);
  }
}
