/**
 * Pointer routing and the viewport: the canvas's mouse handlers decide per
 * button and tool whether to pan, draw a zoom box, or forward the pointer in
 * image-normalised coordinates to the annotation reducer, and they zoom and
 * pan by mutating one shared matrix in place.
 *
 * The matrix maps device pixels (relative to the canvas) to image-content
 * pixels; dividing a content point by the fitted image size (iw, ih) gives
 * the normalised point the reducer works with.
 */
module Mouse {
  import opened Common
  import opened Matrices

  /** Smallest and largest zoom factor reachable by `zoomIn`. */
  const MinZoom: real := 0.05
  const MaxZoom: real := 2.0
  /** Largest factor a box zoom may set. */
  const MaxBoxZoom: real := 10.0
  /** A zoom box smaller than this (in content pixels) on both axes is a click. */
  const ClickThreshold: real := 10.0

  /** A uniform scale plus a translation with a positive scale: always invertible. */
  predicate Uniform(m: Affine)
  {
    m.b == 0.0 && m.c == 0.0 && m.a == m.d && m.a > 0.0
  }

  /** `getDefaultMat`: shift by the 10-pixel canvas margin, no scaling. */
  const DefaultMat: Affine := Affine(1.0, 0.0, 0.0, 1.0, -10.0, -10.0)

  /** A content point divided by the fitted image size. */
  function Normalize(p: Pt, iw: real, ih: real): Pt
    requires iw > 0.0 && ih > 0.0
  {
    Pt(p.x / iw, p.y / ih)
  }

  function Clamp(x: real, lo: real, hi: real): (r: real)
    requires lo <= hi
    ensures lo <= r <= hi
    ensures lo <= x <= hi ==> r == x
    ensures x > hi ==> r == hi
    ensures x < lo ==> r == lo
  {
    if x > hi then hi else if x < lo then lo else x
  }

  // ---------------------------------------------------------------------------
  // zoomIn

  /** The argument of `zoomIn`: a wheel direction, or an absolute target scale `{to}`. */
  datatype ZoomArg = Step(direction: real) | To(target: real)

  /** The relative scale `zoomIn` applies, given the current `mat.a`. */
  function ZoomScale(z: ZoomArg, a: real): (s: real)
    requires a > 0.0
    ensures ZoomArgOk(z) ==> s > 0.0
  {
    match z
    case To(t) => t / a
    case Step(dir) => 1.0 + 0.2 * dir
  }

  /** What `zoomIn` needs for a positive scale: a positive target, or a direction above -5. */
  predicate ZoomArgOk(z: ZoomArg)
  {
    match z
    case To(t) => t > 0.0
    case Step(dir) => 1.0 + 0.2 * dir > 0.0
  }

  /** The uniform matrix with scale k and offset (e, f). */
  function UniformMat(k: real, e: real, f: real): Affine
  {
    Affine(k, 0.0, 0.0, k, e, f)
  }

  lemma UniformIsUniformMat(m: Affine)
    requires Uniform(m)
    ensures m == UniformMat(m.a, m.e, m.f)
  {
  }

  /**
   * The uniform matrix of scale k' that shows at the device point p what
   * `UniformMat(k, e, f)` shows there: its offset is where the old matrix puts
   * p, moved back by p at the new scale.
   */
  function Recentred(k: real, e: real, f: real, k': real, p: Pt): Affine
  {
    UniformMat(k', k' * -p.x + (k * p.x + e), k' * -p.y + (k * p.y + f))
  }

  /** `Recentred` keeps p a fixed point. */
  lemma RecentredFixesPoint(k: real, e: real, f: real, k': real, p: Pt)
    ensures Apply(Recentred(k, e, f, k', p), p) == Apply(UniformMat(k, e, f), p)
  {
    ApplyUniform(k', k' * -p.x + (k * p.x + e), k' * -p.y + (k * p.y + f), p);
    ApplyUniform(k, e, f, p);
  }

  /** A uniform matrix scales by k and shifts by (e, f). */
  lemma ApplyUniform(k: real, e: real, f: real, p: Pt)
    ensures Apply(UniformMat(k, e, f), p).x == p.x * k + e
    ensures Apply(UniformMat(k, e, f), p).y == p.y * k + f
  {
  }

  /** `Recentred` is the only uniform matrix of scale k' that keeps p fixed. */
  lemma RecentredUnique(k: real, e: real, f: real, k': real, e': real, f': real, p: Pt)
    requires Apply(UniformMat(k', e', f'), p) == Apply(UniformMat(k, e, f), p)
    ensures UniformMat(k', e', f') == Recentred(k, e, f, k', p)
  {
  }

  /**
   * The matrix `zoomIn` leaves behind on a uniform matrix m: its scale is
   * `a·s` clamped to [0.05, 2], recentred so that the device point p keeps
   * showing the content point it showed before.
   */
  function ZoomResult(m: Affine, s: real, p: Pt): Affine
  {
    Recentred(m.a, m.e, m.f, ZoomedScale(m.a, s), p)
  }

  /** The scale after zooming scale a by s: `a·s` clamped to [0.05, 2]. */
  function ZoomedScale(a: real, s: real): real
  {
    Clamp(a * s, MinZoom, MaxZoom)
  }

  /**
   * A zoom on a uniform matrix is uniform, has the clamped scale, and is
   * centred on the cursor: p is a fixed point.
   */
  lemma ZoomResultMeaning(m: Affine, s: real, p: Pt)
    requires Uniform(m)
    ensures Uniform(ZoomResult(m, s, p))
    ensures ZoomResult(m, s, p).a == Clamp(m.a * s, MinZoom, MaxZoom)
    ensures Apply(ZoomResult(m, s, p), p) == Apply(m, p)
  {
    ZoomResultShape(m, s, p);
    ZoomResultFixesCursor(m, s, p);
  }

  /** The uniform shape and the scale of `ZoomResult`. */
  lemma ZoomResultShape(m: Affine, s: real, p: Pt)
    ensures Uniform(ZoomResult(m, s, p))
    ensures ZoomResult(m, s, p).a == Clamp(m.a * s, MinZoom, MaxZoom)
  {
    var k' := ZoomedScale(m.a, s);
    assert ZoomResult(m, s, p) == Recentred(m.a, m.e, m.f, k', p);
    ClampOfProduct(m.a, s, m.a * s);
    RecentredEntries(m.a, m.e, m.f, k', p);
  }

  /** On a uniform matrix, `ZoomResult` keeps the cursor's point fixed. */
  lemma ZoomResultFixesCursor(m: Affine, s: real, p: Pt)
    requires Uniform(m)
    ensures Apply(ZoomResult(m, s, p), p) == Apply(m, p)
  {
    UniformIsUniformMat(m);
    RecentredFixesPoint(m.a, m.e, m.f, ZoomedScale(m.a, s), p);
  }

  /** Translating a uniform matrix keeps its scale and moves its offset by `k·(tx, ty)`. */
  lemma UniformTranslated(k: real, e: real, f: real, tx: real, ty: real)
    ensures Compose(UniformMat(k, e, f), Translation(tx, ty)) == UniformMat(k, k * tx + e, k * ty + f)
  {
    UniformTranslatedEntries(k, e, f, tx, ty);
  }

  lemma UniformTranslatedEntries(k: real, e: real, f: real, tx: real, ty: real)
    ensures Compose(UniformMat(k, e, f), Translation(tx, ty)).a == k
    ensures Compose(UniformMat(k, e, f), Translation(tx, ty)).b == 0.0
    ensures Compose(UniformMat(k, e, f), Translation(tx, ty)).c == 0.0
    ensures Compose(UniformMat(k, e, f), Translation(tx, ty)).d == k
    ensures Compose(UniformMat(k, e, f), Translation(tx, ty)).e == k * tx + e
    ensures Compose(UniformMat(k, e, f), Translation(tx, ty)).f == k * ty + f
  {
  }

  /** Scaling a uniform matrix by s multiplies its scale by s and keeps its offset. */
  lemma UniformScaled(k: real, e: real, f: real, s: real)
    ensures Compose(UniformMat(k, e, f), Scaling(s, s)) == UniformMat(k * s, e, f)
  {
    UniformScaledEntries(k, e, f, s);
  }

  lemma UniformScaledEntries(k: real, e: real, f: real, s: real)
    ensures Compose(UniformMat(k, e, f), Scaling(s, s)).a == k * s
    ensures Compose(UniformMat(k, e, f), Scaling(s, s)).b == 0.0
    ensures Compose(UniformMat(k, e, f), Scaling(s, s)).c == 0.0
    ensures Compose(UniformMat(k, e, f), Scaling(s, s)).d == k * s
    ensures Compose(UniformMat(k, e, f), Scaling(s, s)).e == e
    ensures Compose(UniformMat(k, e, f), Scaling(s, s)).f == f
  {
  }

  /** A clamping step of `zoomIn`: rescaling by `bound / k` sets the scale to `bound`. */
  lemma ClampStep(k: real, e: real, f: real, bound: real)
    requires k > 0.0
    ensures Compose(UniformMat(k, e, f), Scaling(bound / k, bound / k)) == UniformMat(bound, e, f)
  {
    UniformScaled(k, e, f, bound / k);
    assert k * (bound / k) == bound;
  }

  /** `ZoomedScale` depends on the product `a·s` only. */
  lemma ClampOfProduct(a: real, s: real, as': real)
    requires as' == a * s
    ensures Clamp(as', MinZoom, MaxZoom) == ZoomedScale(a, s)
  {
  }

  /**
   * The four steps of `zoomIn` on `UniformMat(k, e, f)`: translate to p,
   * scale, clamp, translate back, end at `ZoomResult`.
   */
  lemma ZoomSteps(k: real, e: real, f: real, s: real, p: Pt, e1: real, f1: real, k': real, r: Affine)
    requires e1 == k * p.x + e && f1 == k * p.y + f
    requires k' == ZoomedScale(k, s)
    requires r == UniformMat(k', k' * -p.x + e1, k' * -p.y + f1)
    ensures r == ZoomResult(UniformMat(k, e, f), s, p)
  {
    ZoomResultUniform(k, e, f, s, p);
    RecentredEntries(k, e, f, k', p);
  }

  /** On a uniform matrix, `ZoomResult` recentres with the zoomed scale. */
  lemma ZoomResultUniform(k: real, e: real, f: real, s: real, p: Pt)
    ensures ZoomResult(UniformMat(k, e, f), s, p) == Recentred(k, e, f, ZoomedScale(k, s), p)
  {
  }

  lemma RecentredEntries(k: real, e: real, f: real, k': real, p: Pt)
    ensures Recentred(k, e, f, k', p).a == k' && Recentred(k, e, f, k', p).d == k'
    ensures Recentred(k, e, f, k', p).b == 0.0 && Recentred(k, e, f, k', p).c == 0.0
    ensures Recentred(k, e, f, k', p).e == k' * -p.x + (k * p.x + e)
    ensures Recentred(k, e, f, k', p).f == k' * -p.y + (k * p.y + f)
  {
  }

  /** An absolute zoom `{to: t}` sets the scale to t clamped to [0.05, 2]. */
  lemma ZoomToTarget(m: Affine, t: real, p: Pt)
    requires Uniform(m) && t > 0.0
    ensures ZoomResult(m, ZoomScale(To(t), m.a), p).a == Clamp(t, MinZoom, MaxZoom)
  {
    assert m.a * (t / m.a) == t;
  }

  /** The wheel's direction: the sign of `deltaY`. */
  function WheelDirection(deltaY: real): (dir: real)
    ensures dir == 1.0 || dir == -1.0 || dir == 0.0
    ensures dir > 0.0 <==> deltaY > 0.0
    ensures dir < 0.0 <==> deltaY < 0.0
  {
    if deltaY > 0.0 then 1.0 else if deltaY < 0.0 then -1.0 else 0.0
  }

  /** One wheel notch scales by 1.2, 0.8 or 1; whatever the tool, it is a valid zoom. */
  lemma WheelScale(deltaY: real, a: real)
    requires a > 0.0
    ensures var s := ZoomScale(Step(WheelDirection(deltaY)), a);
      && ZoomArgOk(Step(WheelDirection(deltaY)))
      && (deltaY > 0.0 ==> s == 1.2) && (deltaY < 0.0 ==> s == 0.8) && (deltaY == 0.0 ==> s == 1.0)
  {
  }

  /** n wheel notches in the zoom-in direction at p. */
  function WheelZooms(m: Affine, p: Pt, n: nat): Affine
  {
    if n == 0 then m else ZoomResult(WheelZooms(m, p, n - 1), 1.2, p)
  }

  /**
   * Repeated zoom-in wheel events keep the scale within [0.05, 2]; starting
   * from scale 1, four notches already reach 2 and every further notch stays
   * there.
   */
  lemma {:induction false} WheelZoomSaturates(m: Affine, p: Pt, n: nat)
    requires Uniform(m) && m.a == 1.0
    ensures Uniform(WheelZooms(m, p, n))
    ensures MinZoom <= WheelZooms(m, p, n).a <= MaxZoom
    ensures n <= 3 ==> WheelZooms(m, p, n).a == [1.0, 1.2, 1.44, 1.728][n]
    ensures n >= 4 ==> WheelZooms(m, p, n).a == MaxZoom
  {
    if n > 0 {
      WheelZoomSaturates(m, p, n - 1);
      ZoomResultMeaning(WheelZooms(m, p, n - 1), 1.2, p);
    }
  }

  // ---------------------------------------------------------------------------
  // Box zoom and panning

  /**
   * The matrix a box zoom sets: the default matrix translated to the sorted
   * start corner and scaled by the fit scale clamped to [0.05, 10]. It does
   * not depend on the matrix in force before.
   */
  function BoxZoomAffine(lo: Pt, s: real): Affine
  {
    Compose(Compose(DefaultMat, Translation(lo.x, lo.y)), Scaling(s, s))
  }

  /** The fit scale of a sorted zoom box, clamped to [0.05, 10]. */
  function BoxZoomScale(lo: Pt, hi: Pt, iw: real, ih: real): (s: real)
    requires iw > 0.0 && ih > 0.0
    ensures MinZoom <= s <= MaxBoxZoom
  {
    Clamp(Min((hi.x - lo.x) / iw, (hi.y - lo.y) / ih), MinZoom, MaxBoxZoom)
  }

  /**
   * A box zoom yields a uniform matrix of scale s that puts the zoom box's
   * start corner at device point (10/s, 10/s), the canvas margin.
   */
  lemma BoxZoomMeaning(lo: Pt, s: real)
    requires s > 0.0
    ensures var r := BoxZoomAffine(lo, s);
      Uniform(r) && r.a == s && Apply(r, Pt(10.0 / s, 10.0 / s)) == lo
  {
    var r := BoxZoomAffine(lo, s);
    assert r == Affine(s, 0.0, 0.0, s, lo.x - 10.0, lo.y - 10.0);
    assert s * (10.0 / s) == 10.0;
  }

  /**
   * Panning: after translating by (prev − cur), the device point `cur` shows
   * the content point `prev` showed before, so the image follows the pointer.
   */
  lemma PanFollowsPointer(m: Affine, prev: Pt, cur: Pt)
    ensures Apply(Compose(m, Translation(prev.x - cur.x, prev.y - cur.y)), cur) == Apply(m, prev)
  {
    TranslateMeaning(m, prev.x - cur.x, prev.y - cur.y, cur);
    assert Pt(cur.x + (prev.x - cur.x), cur.y + (prev.y - cur.y)) == prev;
  }

  /** Panning keeps a uniform matrix uniform, with the same scale. */
  lemma PanKeepsUniform(m: Affine, dx: real, dy: real)
    requires Uniform(m)
    ensures Uniform(Compose(m, Translation(dx, dy))) && Compose(m, Translation(dx, dy)).a == m.a
  {
    UniformIsUniformMat(m);
    UniformTranslated(m.a, m.e, m.f, dx, dy);
  }

  // ---------------------------------------------------------------------------
  // The controller

  /** What a mouse button press does, in order of precedence. */
  datatype DownRoute = StartDrag | StartZoomBox | ForwardDown | IgnoreDown

  /**
   * The mouse-down precedence: middle or right button, or the primary button
   * with the pan tool, drags; else the primary button with the zoom tool starts
   * a zoom box; else the primary button is forwarded; other buttons do nothing.
   */
  function RouteMouseDown(button: int, dragWithPrimary: bool, zoomWithPrimary: bool): (r: DownRoute)
    ensures r == StartDrag <==> button == 1 || button == 2 || (button == 0 && dragWithPrimary)
    ensures r == StartZoomBox <==> button == 0 && !dragWithPrimary && zoomWithPrimary
    ensures r == ForwardDown <==> button == 0 && !dragWithPrimary && !zoomWithPrimary
  {
    if button == 1 || button == 2 || (button == 0 && dragWithPrimary) then StartDrag
    else if zoomWithPrimary && button == 0 then StartZoomBox
    else if button == 0 then ForwardDown
    else IgnoreDown
  }

  /** Whether a mouse-up ends a drag: the same buttons that start one. */
  predicate EndsDrag(button: int, dragWithPrimary: bool)
  {
    button == 1 || button == 2 || (button == 0 && dragWithPrimary)
  }

  /** The default matrix translated to lo and scaled by s, as a fresh matrix. */
  method BoxZoomMatrix(lo: Pt, s: real) returns (m: Matrix)
    ensures fresh(m) && m.Value() == BoxZoomAffine(lo, s)
  {
    m := Matrix.From(1.0, 0.0, 0.0, 1.0, -10.0, -10.0);
    assert m.Value() == DefaultMat;
    m.Translate(lo.x, lo.y);
    m.ScaleU(s);
  }

  /**
   * The state of one canvas's pointer handlers: the shared matrix, the last
   * two pointer positions, and the transient drag and zoom-box flags. The
   * tool flags and the fitted image size (iw, ih) are inputs.
   */
  class Viewport {
    var mat: Matrix
    var mouse: Pt
    var prevMouse: Pt
    var dragging: bool
    var zoomStart: Option<Pt>
    var zoomEnd: Option<Pt>
    const zoomWithPrimary: bool
    const dragWithPrimary: bool
    const iw: real
    const ih: real

    /** The matrix is uniform with a positive scale, and the image has a size. */
    predicate Valid()
      reads this, mat
    {
      Uniform(mat.Value()) && iw > 0.0 && ih > 0.0
    }

    /** A viewport starts at the default matrix, not dragging, with no zoom box. */
    constructor (zoomWithPrimary: bool, dragWithPrimary: bool, iw: real, ih: real)
      requires iw > 0.0 && ih > 0.0
      ensures Valid() && fresh(mat)
      ensures mat.Value() == DefaultMat && !dragging && zoomStart.None? && zoomEnd.None?
      ensures mouse == Pt(0.0, 0.0) && prevMouse == Pt(0.0, 0.0)
      ensures this.zoomWithPrimary == zoomWithPrimary && this.dragWithPrimary == dragWithPrimary
      ensures this.iw == iw && this.ih == ih
    {
      this.zoomWithPrimary := zoomWithPrimary;
      this.dragWithPrimary := dragWithPrimary;
      this.iw := iw;
      this.ih := ih;
      mouse := Pt(0.0, 0.0);
      prevMouse := Pt(0.0, 0.0);
      dragging := false;
      zoomStart := None;
      zoomEnd := None;
      var m := Matrix.From(1.0, 0.0, 0.0, 1.0, -10.0, -10.0);
      mat := m;
    }

    /** `zoomIn`: zooms the shared matrix in place about the device point p. */
    method ZoomIn(z: ZoomArg, p: Pt)
      requires Valid() && ZoomArgOk(z)
      modifies mat
      ensures Valid()
      ensures mat.Value() == ZoomResult(old(mat.Value()), ZoomScale(z, old(mat.a)), p)
    {
      var scale := ZoomScale(z, mat.a);
      ghost var m0, k, e, f := mat.Value(), mat.a, mat.e, mat.f;
      TranslateUniform(p.x, p.y);
      ghost var e1, f1 := k * p.x + e, k * p.y + f;
      assert mat.Value() == UniformMat(k, e1, f1);
      ScaleClamped(scale);
      ghost var k' := ZoomedScale(k, scale);
      assert mat.Value() == UniformMat(k', e1, f1);
      TranslateUniform(-p.x, -p.y);
      assert mat.Value() == UniformMat(k', k' * -p.x + e1, k' * -p.y + f1);
      UniformIsUniformMat(m0);
      ZoomSteps(k, e, f, scale, p, e1, f1, k', mat.Value());
    }

    /** `mat.translate` on a uniform matrix, stated on the scale and offset. */
    method TranslateUniform(tx: real, ty: real)
      requires Uniform(mat.Value())
      modifies mat
      ensures mat.Value() == UniformMat(old(mat.a), old(mat.a) * tx + old(mat.e), old(mat.a) * ty + old(mat.f))
    {
      UniformIsUniformMat(mat.Value());
      UniformTranslated(mat.a, mat.e, mat.f, tx, ty);
      mat.Translate(tx, ty);
    }

    /** `mat.scaleU` on a uniform matrix, stated on the scale and offset. */
    method ScaleUniform(s: real)
      requires Uniform(mat.Value()) && s > 0.0
      modifies mat
      ensures mat.Value() == UniformMat(old(mat.a) * s, old(mat.e), old(mat.f))
      ensures Uniform(mat.Value())
    {
      UniformIsUniformMat(mat.Value());
      UniformScaled(mat.a, mat.e, mat.f, s);
      mat.ScaleU(s);
    }

    /** The scaling and clamping part of `zoomIn`. */
    method ScaleClamped(s: real)
      requires Uniform(mat.Value()) && s > 0.0
      modifies mat
      ensures mat.Value() == UniformMat(ZoomedScale(old(mat.a), s), old(mat.e), old(mat.f))
    {
      ghost var k := mat.a;
      ScaleUniform(s);
      ghost var ks := mat.a;
      assert ks == k * s;
      ClampZoom();
      ClampOfProduct(k, s, ks);
    }

    /** The clamping part of `zoomIn`: a scale above 2 or below 0.05 is rescaled to that bound. */
    method ClampZoom()
      requires Uniform(mat.Value())
      modifies mat
      ensures mat.Value() == UniformMat(Clamp(old(mat.a), MinZoom, MaxZoom), old(mat.e), old(mat.f))
    {
      ghost var e, f := mat.e, mat.f;
      UniformIsUniformMat(mat.Value());
      if mat.a > MaxZoom {
        ClampStep(mat.a, e, f, MaxZoom);
        mat.ScaleU(MaxZoom / mat.a);
      }
      if mat.a < MinZoom {
        ClampStep(mat.a, e, f, MinZoom);
        mat.ScaleU(MinZoom / mat.a);
      }
    }

    /**
     * `onMouseMove`: records the pointer (client position minus the canvas's
     * top-left), extends an active zoom box to the projected point, forwards
     * the normalised projected point, and while dragging pans so the image
     * follows the pointer.
     */
    method MouseMove(client: Pt, canvasTopLeft: Pt) returns (forwarded: Pt)
      requires Valid()
      modifies this, mat
      ensures Valid() && mat == old(mat)
      ensures prevMouse == old(mouse) && mouse == Pt(client.x - canvasTopLeft.x, client.y - canvasTopLeft.y)
      ensures forwarded == Normalize(Apply(old(mat.Value()), mouse), iw, ih)
      ensures zoomEnd == if zoomWithPrimary && zoomStart.Some? then Some(Apply(old(mat.Value()), mouse)) else old(zoomEnd)
      ensures zoomStart == old(zoomStart) && dragging == old(dragging)
      ensures !dragging ==> mat.Value() == old(mat.Value())
      ensures dragging ==> mat.Value() == Compose(old(mat.Value()), Translation(prevMouse.x - mouse.x, prevMouse.y - mouse.y))
      ensures dragging ==> Apply(mat.Value(), mouse) == Apply(old(mat.Value()), prevMouse)
    {
      prevMouse := mouse;
      mouse := Pt(client.x - canvasTopLeft.x, client.y - canvasTopLeft.y);
      var proj := mat.ApplyToPoint(mouse);
      if zoomWithPrimary && zoomStart.Some? {
        zoomEnd := Some(proj);
      }
      forwarded := Pt(proj.x / iw, proj.y / ih);
      if dragging {
        ghost var m0 := mat.Value();
        mat.Translate(prevMouse.x - mouse.x, prevMouse.y - mouse.y);
        PanFollowsPointer(m0, prevMouse, mouse);
        PanKeepsUniform(m0, prevMouse.x - mouse.x, prevMouse.y - mouse.y);
      }
    }

    /**
     * `onMouseDown`: by the precedence of `RouteMouseDown`, starts a drag,
     * opens a zoom box at the projected pointer, or forwards the normalised
     * projected pointer; only the forwarding case returns a point.
     */
    method MouseDown(button: int) returns (forwarded: Option<Pt>)
      requires Valid()
      modifies this
      ensures Valid() && mat == old(mat) && mouse == old(mouse) && prevMouse == old(prevMouse)
      ensures var route := RouteMouseDown(button, dragWithPrimary, zoomWithPrimary);
        var proj := Apply(mat.Value(), mouse);
        && (route == StartDrag ==> dragging && zoomStart == old(zoomStart) && zoomEnd == old(zoomEnd))
        && (route != StartDrag ==> dragging == old(dragging))
        && (route == StartZoomBox ==> zoomStart == Some(proj) && zoomEnd == Some(proj))
        && (route != StartZoomBox ==> zoomStart == old(zoomStart) && zoomEnd == old(zoomEnd))
        && (forwarded.Some? <==> route == ForwardDown)
        && (route == ForwardDown ==> forwarded == Some(Normalize(proj, iw, ih)))
    {
      if button == 1 || button == 2 || (button == 0 && dragWithPrimary) {
        dragging := true;
        return None;
      }
      var proj := mat.ApplyToPoint(mouse);
      if zoomWithPrimary && button == 0 {
        zoomStart := Some(proj);
        zoomEnd := Some(proj);
        return None;
      }
      if button == 0 {
        forwarded := Some(Pt(proj.x / iw, proj.y / ih));
      } else {
        forwarded := None;
      }
    }

    /**
     * `onMouseUp`. With a zoom box open, a box under 10 content pixels on both
     * axes toggles the zoom about the pointer (to 1 below scale 1, else to
     * 0.25); a larger box sets the matrix to the box zoom of its sorted corners.
     * The box is then closed. Afterwards the drag buttons end the drag; the
     * primary button otherwise forwards the normalised projected point, which
     * after a box zoom is the sorted far corner, because sorting the corners
     * swaps coordinates inside the projected point itself.
     */
    method MouseUp(button: int) returns (forwarded: Option<Pt>)
      requires Valid()
      modifies this, mat
      ensures Valid() && mouse == old(mouse) && prevMouse == old(prevMouse)
      ensures old(zoomStart).Some? ==> zoomStart.None? && zoomEnd.None?
      ensures old(zoomStart).None? ==> zoomStart == old(zoomStart) && zoomEnd == old(zoomEnd) && mat.Value() == old(mat.Value())
      ensures dragging == (old(dragging) && !EndsDrag(button, dragWithPrimary))
      ensures forwarded.Some? <==> button == 0 && !dragWithPrimary
      ensures var proj := Apply(old(mat.Value()), mouse);
        old(zoomStart).Some? ==>
          var zs := old(zoomStart).value;
          if Abs(zs.x - proj.x) < ClickThreshold && Abs(zs.y - proj.y) < ClickThreshold then
            && mat.Value() == ZoomResult(old(mat.Value()), ZoomScale(To(if old(mat.a) < 1.0 then 1.0 else 0.25), old(mat.a)), mouse)
            && (forwarded.Some? ==> forwarded == Some(Normalize(proj, iw, ih)))
          else
            var lo, hi := Pt(Min(zs.x, proj.x), Min(zs.y, proj.y)), Pt(Max(zs.x, proj.x), Max(zs.y, proj.y));
            && mat.Value() == BoxZoomAffine(lo, BoxZoomScale(lo, hi, iw, ih))
            && (forwarded.Some? ==> forwarded == Some(Normalize(hi, iw, ih)))
      ensures old(zoomStart).None? && forwarded.Some? ==>
        forwarded == Some(Normalize(Apply(old(mat.Value()), mouse), iw, ih))
    {
      var proj := mat.ApplyToPoint(mouse);
      if zoomStart.Some? {
        var zs := zoomStart.value;
        if Abs(zs.x - proj.x) < ClickThreshold && Abs(zs.y - proj.y) < ClickThreshold {
          ToggleZoom();
        } else {
          proj := BoxZoom(zs, proj);
        }
        zoomStart := None;
        zoomEnd := None;
      }
      if button == 1 || button == 2 || (button == 0 && dragWithPrimary) {
        dragging := false;
        return None;
      }
      if button == 0 {
        forwarded := Some(Pt(proj.x / iw, proj.y / ih));
      } else {
        forwarded := None;
      }
    }

    /** The click case of `onMouseUp`: zoom about the pointer to 1 below scale 1, else to 0.25. */
    method ToggleZoom()
      requires Valid()
      modifies mat
      ensures Valid()
      ensures mat.Value() == ZoomResult(old(mat.Value()), ZoomScale(To(if old(mat.a) < 1.0 then 1.0 else 0.25), old(mat.a)), mouse)
    {
      if mat.a < 1.0 {
        ZoomIn(To(1.0), mouse);
      } else {
        ZoomIn(To(0.25), mouse);
      }
    }

    /**
     * The box case of `onMouseUp`: sorts the corners zs and ze (swapping
     * coordinates between them), and replaces the matrix by a fresh one: the
     * default matrix translated to the low corner and scaled by the fit scale
     * clamped to [0.05, 10]. Returns the sorted far corner, which is what the
     * projected point holds after the swaps.
     */
    method BoxZoom(zs: Pt, ze: Pt) returns (hi: Pt)
      requires Valid()
      modifies this
      ensures Valid() && fresh(mat)
      ensures hi == Pt(Max(zs.x, ze.x), Max(zs.y, ze.y))
      ensures var lo := Pt(Min(zs.x, ze.x), Min(zs.y, ze.y));
        mat.Value() == BoxZoomAffine(lo, BoxZoomScale(lo, hi, iw, ih))
      ensures mouse == old(mouse) && prevMouse == old(prevMouse) && dragging == old(dragging)
      ensures zoomStart == old(zoomStart) && zoomEnd == old(zoomEnd)
    {
      var lo := zs;
      hi := ze;
      if lo.x > hi.x {
        lo, hi := lo.(x := hi.x), hi.(x := lo.x);
      }
      if lo.y > hi.y {
        lo, hi := lo.(y := hi.y), hi.(y := lo.y);
      }
      assert lo == Pt(Min(zs.x, ze.x), Min(zs.y, ze.y));
      var scale := FitScale(lo, hi);
      var newMat := BoxZoomMatrix(lo, scale);
      mat := newMat.Clone();
      BoxZoomMeaning(lo, scale);
    }

    /** The fit scale of the sorted zoom box, clamped to [0.05, 10]. */
    method FitScale(lo: Pt, hi: Pt) returns (scale: real)
      requires iw > 0.0 && ih > 0.0
      ensures scale == BoxZoomScale(lo, hi, iw, ih)
    {
      scale := Min((hi.x - lo.x) / iw, (hi.y - lo.y) / ih);
      if scale < MinZoom {
        scale := MinZoom;
      }
      if scale > MaxBoxZoom {
        scale := MaxBoxZoom;
      }
    }

    /** `onWheel`: zooms about the pointer by one notch in the sign of `deltaY`, whatever the tool. */
    method Wheel(deltaY: real)
      requires Valid()
      modifies mat
      ensures Valid()
      ensures mat.Value() == ZoomResult(old(mat.Value()), ZoomScale(Step(WheelDirection(deltaY)), old(mat.a)), mouse)
    {
      var direction := if deltaY > 0.0 then 1.0 else if deltaY < 0.0 then -1.0 else 0.0;
      ZoomIn(Step(direction), mouse);
    }
  }
}
