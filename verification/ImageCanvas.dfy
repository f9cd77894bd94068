/**
 * The canvas's geometry: the fitted image size, the initial viewport matrix,
 * the on-screen zoom box, where the image sits on the canvas, and which
 * region counts as the highlighted one.
 */
module ImageCanvas {
  import opened Common
  import opened AnnotatorTypes
  import opened Matrices
  import opened Mouse

  // ---------------------------------------------------------------------------
  // Fitting the image into the canvas

  /** `layoutParams.current`: the fitted image size and the canvas it was fitted to. */
  datatype Layout = Layout(iw: real, ih: real, fitScale: real, canvasWidth: real, canvasHeight: real)

  /**
   * The image's natural size divided by the larger of the two ratios
   * natural size / (canvas size − 20).
   */
  function FitLayout(nw: real, nh: real, cw: real, ch: real): Layout
    requires nw > 0.0 && nh >= 0.0 && cw > 20.0 && ch > 20.0
  {
    PositiveQuotient(nw, cw - 20.0);
    var fitScale := Max(nw / (cw - 20.0), nh / (ch - 20.0));
    Layout(nw / fitScale, nh / fitScale, fitScale, cw, ch)
  }

  /**
   * The fitted image lies inside the canvas less its 20-pixel margin, keeps
   * the natural aspect ratio, and touches the margin on at least one axis.
   */
  lemma FitLayoutFits(nw: real, nh: real, cw: real, ch: real)
    requires nw > 0.0 && nh >= 0.0 && cw > 20.0 && ch > 20.0
    ensures var l := FitLayout(nw, nh, cw, ch);
      && 0.0 < l.iw <= cw - 20.0 && 0.0 <= l.ih <= ch - 20.0
      && l.iw * nh == l.ih * nw
      && (l.iw == cw - 20.0 || l.ih == ch - 20.0)
  {
    var a, b := nw / (cw - 20.0), nh / (ch - 20.0);
    PositiveQuotient(nw, cw - 20.0);
    var f := Max(a, b);
    var l := FitLayout(nw, nh, cw, ch);
    assert l.iw == nw / f && l.ih == nh / f;
    FitAxis(nw, cw - 20.0, f);
    FitAxis(nh, ch - 20.0, f);
    SameScale(nw, nh, f);
  }

  /**
   * One axis of the fit: dividing a natural length by a scale at least its own
   * ratio to the room stays within the room, and fills it at that ratio.
   */
  lemma FitAxis(n: real, room: real, f: real)
    requires n >= 0.0 && room > 0.0 && f > 0.0 && f >= n / room
    ensures 0.0 <= n / f <= room
    ensures n > 0.0 && f == n / room ==> n / f == room
  {
    if n > 0.0 {
      PositiveQuotient(n, room);
      QuotientShrinks(n, n / room, f);
      DivideByQuotient(n, room);
    } else {
      assert n / f == 0.0;
    }
  }

  lemma PositiveQuotient(x: real, y: real)
    requires x > 0.0 && y > 0.0
    ensures x / y > 0.0
  {
  }

  /** Dividing by a larger positive number gives a smaller quotient. */
  lemma QuotientShrinks(x: real, a: real, f: real)
    requires x >= 0.0 && 0.0 < a <= f
    ensures x / f <= x / a
  {
    assert x / f * a <= x / f * f;
  }

  lemma DivideByQuotient(x: real, c: real)
    requires x > 0.0 && c > 0.0
    ensures x / (x / c) == c
  {
    assert (x / c) * c == x;
  }

  lemma SameScale(x: real, y: real, f: real)
    requires f > 0.0
    ensures (x / f) * y == (y / f) * x
  {
    assert x / f * f == x && y / f * f == y;
  }

  /** The image counts as loaded once its natural width is known and not 0. */
  predicate ImageLoaded(dims: Option<Size>)
  {
    dims.Some? && dims.value.w != 0.0
  }

  /** The cell holding the layout; each render with a canvas and a loaded image refits it. */
  class LayoutRef {
    var current: Option<Layout>

    constructor ()
      ensures current.None?
    {
      current := None;
    }

    /** The layout computation of a render; the canvas size is absent before it mounts. */
    method Measure(canvas: Option<Size>, dims: Option<Size>)
      requires canvas.Some? ==> canvas.value.w > 20.0 && canvas.value.h > 20.0
      requires dims.Some? ==> dims.value.w >= 0.0 && dims.value.h >= 0.0
      modifies this
      ensures canvas.Some? && ImageLoaded(dims) ==>
        current == Some(FitLayout(dims.value.w, dims.value.h, canvas.value.w, canvas.value.h))
      ensures !(canvas.Some? && ImageLoaded(dims)) ==> current == old(current)
    {
      if canvas.Some? && ImageLoaded(dims) {
        current := Some(FitLayout(dims.value.w, dims.value.h, canvas.value.w, canvas.value.h));
      }
    }
  }

  // ---------------------------------------------------------------------------
  // The initial matrix

  /** The allowed area applies only when it is given and the fitted width is known and not 0. */
  predicate ZoomsOnArea(area: Option<Rect>, size: Option<Size>)
  {
    area.Some? && size.Some? && size.value.w != 0.0
  }

  /** The allowed area's corner in content pixels. */
  function AreaCorner(area: Rect, size: Size): Pt
  {
    Pt(area.x * size.w, area.y * size.h)
  }

  /**
   * `getDefaultMat` of the canvas: the 10-pixel margin shift, then, for an
   * allowed area, a translation to its corner in content pixels and a uniform
   * scale of its width plus 0.05 -- the matrix a box zoom builds.
   */
  function DefaultView(area: Option<Rect>, size: Option<Size>): Affine
  {
    if ZoomsOnArea(area, size) then BoxZoomAffine(AreaCorner(area.value, size.value), area.value.w + 0.05)
    else DefaultMat
  }

  /**
   * Without an allowed area the canvas starts at the pointer hook's default
   * matrix. With one whose width is above -0.05, it is uniform with scale
   * k = w + 0.05 and the device point (10/k, 10/k) shows the area's corner.
   */
  lemma DefaultViewMeaning(area: Option<Rect>, size: Option<Size>)
    ensures !ZoomsOnArea(area, size) ==> DefaultView(area, size) == Affine(1.0, 0.0, 0.0, 1.0, -10.0, -10.0)
    ensures ZoomsOnArea(area, size) && area.value.w + 0.05 > 0.0 ==>
      var k := area.value.w + 0.05;
      && Uniform(DefaultView(area, size)) && DefaultView(area, size).a == k
      && Apply(DefaultView(area, size), Pt(10.0 / k, 10.0 / k)) == AreaCorner(area.value, size.value)
  {
    if ZoomsOnArea(area, size) && area.value.w + 0.05 > 0.0 {
      BoxZoomMeaning(AreaCorner(area.value, size.value), area.value.w + 0.05);
    }
  }

  /** The matrix chain of `getDefaultMat`, on a fresh matrix. */
  method DefaultMatrix(area: Option<Rect>, size: Option<Size>) returns (m: Matrix)
    ensures fresh(m) && m.Value() == DefaultView(area, size)
  {
    if ZoomsOnArea(area, size) {
      m := BoxZoomMatrix(AreaCorner(area.value, size.value), area.value.w + 0.05);
    } else {
      m := Matrix.From(1.0, 0.0, 0.0, 1.0, -10.0, -10.0);
    }
  }

  // ---------------------------------------------------------------------------
  // The zoom box

  /** A uniform matrix's determinant is its scale squared, so it is invertible. */
  lemma UniformInvertible(m: Affine)
    requires Uniform(m)
    ensures Det(m) == m.a * m.a > 0.0
  {
  }

  /**
   * The zoom box in device pixels: the drag's start (a content point) mapped
   * back through the matrix, and the drag's extent divided by the scale.
   */
  function ZoomBoxRect(m: Affine, zs: Pt, ze: Pt): Rect
    requires Uniform(m)
  {
    UniformInvertible(m);
    var c := Apply(Inv(m), zs);
    Rect(c.x, c.y, (ze.x - zs.x) / m.a, (ze.y - zs.y) / m.d)
  }

  /** The device box's opposite corners are the device points that show the drag's two ends. */
  lemma ZoomBoxSpansDrag(m: Affine, zs: Pt, ze: Pt)
    requires Uniform(m)
    ensures var r := ZoomBoxRect(m, zs, ze);
      && Apply(m, Pt(r.x, r.y)) == zs
      && Apply(m, Pt(r.x + r.w, r.y + r.h)).x == ze.x
      && Apply(m, Pt(r.x + r.w, r.y + r.h)).y == ze.y
  {
    var r := ZoomBoxRect(m, zs, ze);
    ZoomBoxCorner(m, zs, ze);
    FarCorner(m, Pt(r.x, r.y), Pt(r.x + r.w, r.y + r.h), r.w, r.h, zs, ze);
  }

  /** A uniform matrix that shows p at s shows p shifted by (t − s)/scale at t. */
  lemma FarCorner(m: Affine, p: Pt, q: Pt, w: real, h: real, s: Pt, t: Pt)
    requires Uniform(m) && Apply(m, p) == s
    requires w == (t.x - s.x) / m.a && h == (t.y - s.y) / m.a
    requires q.x == p.x + w && q.y == p.y + h
    ensures Apply(m, q).x == t.x && Apply(m, q).y == t.y
  {
    UniformApply(m, p);
    UniformApply(m, q);
    Spread(p.x, w, q.x, m.a, m.e, s.x, t.x);
    Spread(p.y, h, q.y, m.a, m.f, s.y, t.y);
  }

  /** The zoom box's corner is where the matrix shows the drag's start; its size is the drag over the scale. */
  lemma ZoomBoxCorner(m: Affine, zs: Pt, ze: Pt)
    requires Uniform(m)
    ensures var r := ZoomBoxRect(m, zs, ze);
      && Apply(m, Pt(r.x, r.y)) == zs
      && r.w == (ze.x - zs.x) / m.a && r.h == (ze.y - zs.y) / m.a
  {
    UniformInvertible(m);
    InverseRoundTrip(m, zs);
  }

  lemma UniformApply(m: Affine, p: Pt)
    requires Uniform(m)
    ensures Apply(m, p).x == p.x * m.a + m.e
    ensures Apply(m, p).y == p.y * m.a + m.f
  {
  }

  /** One axis of `ZoomBoxSpansDrag`. */
  lemma Spread(x: real, w: real, far: real, k: real, e: real, s: real, t: real)
    requires k > 0.0 && x * k + e == s && w == (t - s) / k && far == x + w
    ensures far * k + e == t
  {
    assert w * k == t - s;
  }

  /**
   * The box with negative sizes flipped: the origin moves to the other edge
   * and the size changes sign.
   */
  function Normalized(r: Rect): Rect
  {
    var (x, w) := if r.w < 0.0 then (r.x + r.w, r.w * -1.0) else (r.x, r.w);
    var (y, h) := if r.h < 0.0 then (r.y + r.h, r.h * -1.0) else (r.y, r.h);
    Rect(x, y, w, h)
  }

  /**
   * Normalisation leaves non-negative sizes, spans the same interval on each
   * axis (so it covers the same rectangle), and changes nothing more when
   * applied again.
   */
  lemma NormalizedMeaning(r: Rect)
    ensures var n := Normalized(r);
      && n.w >= 0.0 && n.h >= 0.0
      && n.x == Min(r.x, r.x + r.w) && n.x + n.w == Max(r.x, r.x + r.w)
      && n.y == Min(r.y, r.y + r.h) && n.y + n.h == Max(r.y, r.y + r.h)
      && Normalized(n) == n
  {
  }

  /** The zoom box object, which the canvas normalises in place before drawing. */
  class ZoomBox {
    var x: real
    var y: real
    var w: real
    var h: real

    function Value(): Rect
      reads this
    {
      Rect(x, y, w, h)
    }

    /** Built from the matrix and the drag's two ends, both content points. */
    constructor (m: Affine, zs: Pt, ze: Pt)
      requires Uniform(m)
      ensures Value() == ZoomBoxRect(m, zs, ze)
    {
      UniformInvertible(m);
      var c := Apply(Inv(m), zs);
      x, y := c.x, c.y;
      w := (ze.x - zs.x) / m.a;
      h := (ze.y - zs.y) / m.d;
    }

    /** Flips a negative width or height in place. */
    method Normalize()
      modifies this
      ensures Value() == Normalized(old(Value()))
    {
      if w < 0.0 {
        x := x + w;
        w := w * -1.0;
      }
      if h < 0.0 {
        y := y + h;
        h := h * -1.0;
      }
    }
  }

  // ---------------------------------------------------------------------------
  // Image position and the highlighted region

  /** Where the image's corners appear on the canvas. */
  datatype ImagePosition = ImagePosition(topLeft: Pt, bottomRight: Pt)

  /** `imagePosition`: the content corners (0, 0) and (iw, ih) mapped through the inverse; it throws for a singular matrix. */
  function ImagePositionOf(m: Affine, iw: real, ih: real): (r: Result<ImagePosition>)
    ensures r.Error? <==> Det(m) == 0.0
  {
    if Det(m) == 0.0 then Error("Matrix not invertible")
    else Ok(ImagePosition(Apply(Inv(m), Pt(0.0, 0.0)), Apply(Inv(m), Pt(iw, ih))))
  }

  /** The matrix takes the image position's corners back to the image's own corners. */
  lemma ImagePositionCorners(m: Affine, iw: real, ih: real)
    requires Det(m) != 0.0
    ensures var p := ImagePositionOf(m, iw, ih).value;
      Apply(m, p.topLeft) == Pt(0.0, 0.0) && Apply(m, p.bottomRight) == Pt(iw, ih)
  {
    InverseRoundTrip(m, Pt(0.0, 0.0));
    InverseRoundTrip(m, Pt(iw, ih));
  }

  predicate IsHighlighted(r: Region)
  {
    r.highlighted
  }

  /** `highlightedRegion`: the highlighted region when there is exactly one, else null. */
  function HighlightedRegion(rs: seq<Region>): Option<Region>
  {
    var hs := Filter(rs, IsHighlighted);
    if |hs| != 1 then None else Some(hs[0])
  }

  /** Region k is highlighted and no other region is. */
  predicate OnlyHighlightedAt(rs: seq<Region>, k: int)
  {
    0 <= k < |rs| && rs[k].highlighted && forall j :: 0 <= j < |rs| && j != k ==> !rs[j].highlighted
  }

  /** There is a highlighted region exactly when one region alone is highlighted, and it is that region. */
  lemma HighlightedRegionExact(rs: seq<Region>)
    ensures HighlightedRegion(rs).Some? <==> exists k :: OnlyHighlightedAt(rs, k)
    ensures forall k :: OnlyHighlightedAt(rs, k) ==> HighlightedRegion(rs) == Some(rs[k])
  {
    SingleHighlight(rs);
  }

  /** The highlight filter holds one region exactly when one region alone is highlighted. */
  lemma SingleHighlight(rs: seq<Region>)
    ensures |Filter(rs, IsHighlighted)| == 1 ==>
      exists k :: OnlyHighlightedAt(rs, k) && Filter(rs, IsHighlighted)[0] == rs[k]
    ensures forall k :: OnlyHighlightedAt(rs, k) ==> Filter(rs, IsHighlighted) == [rs[k]]
  {
    if |Filter(rs, IsHighlighted)| == 1 {
      SingletonFilterFound(rs);
    }
    forall k | OnlyHighlightedAt(rs, k) ensures Filter(rs, IsHighlighted) == [rs[k]] {
      OnlyHighlightedFiltered(rs, k);
    }
  }

  /** A one-element highlight filter comes from the one highlighted region. */
  lemma {:induction false} SingletonFilterFound(rs: seq<Region>)
    requires |Filter(rs, IsHighlighted)| == 1
    ensures exists k :: OnlyHighlightedAt(rs, k) && Filter(rs, IsHighlighted)[0] == rs[k]
  {
    var tail := rs[1..];
    var ft := Filter(tail, IsHighlighted);
    assert Filter(rs, IsHighlighted) == (if rs[0].highlighted then [rs[0]] else []) + ft;
    if rs[0].highlighted {
      NoneHighlighted(tail);
      assert OnlyHighlightedAt(rs, 0) by {
        forall j | 0 < j < |rs| ensures !rs[j].highlighted {
          assert rs[j] == tail[j - 1];
        }
      }
    } else {
      SingletonFilterFound(tail);
      var k :| OnlyHighlightedAt(tail, k) && ft[0] == tail[k];
      assert OnlyHighlightedAt(rs, k + 1) by {
        forall j | 0 < j < |rs| ensures rs[j] == tail[j - 1] { }
      }
    }
  }

  /** With only region k highlighted, the filter keeps exactly region k. */
  lemma {:induction false} OnlyHighlightedFiltered(rs: seq<Region>, k: int)
    requires OnlyHighlightedAt(rs, k)
    ensures Filter(rs, IsHighlighted) == [rs[k]]
  {
    var tail := rs[1..];
    var ft := Filter(tail, IsHighlighted);
    assert Filter(rs, IsHighlighted) == (if rs[0].highlighted then [rs[0]] else []) + ft;
    if k == 0 {
      NoneHighlighted(tail);
      forall j | 0 <= j < |tail| ensures !tail[j].highlighted {
        assert tail[j] == rs[j + 1];
      }
    } else {
      assert OnlyHighlightedAt(tail, k - 1) by {
        forall j | 0 <= j < |tail| ensures tail[j] == rs[j + 1] { }
      }
      OnlyHighlightedFiltered(tail, k - 1);
    }
  }

  /** No region survives the highlight filter exactly when none is highlighted. */
  lemma NoneHighlighted(rs: seq<Region>)
    ensures Filter(rs, IsHighlighted) == [] <==> forall j :: 0 <= j < |rs| ==> !rs[j].highlighted
  {
    var f := Filter(rs, IsHighlighted);
    if f != [] {
      var x := f[0];
      assert x in rs && x.highlighted;
      var j :| 0 <= j < |rs| && rs[j] == x;
    } else {
      forall j | 0 <= j < |rs| ensures !rs[j].highlighted {
        assert rs[j] in rs;
      }
    }
  }
}
