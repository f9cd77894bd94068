/**
 * The dashed highlight drawn over a region: when it is drawn, where, and
 * what a mouse press on it does.
 */
module HighlightBox {
  import opened Common
  import opened AnnotatorTypes
  import opened AnnotatorActions
  import opened ProjectRegionBox

  /** JavaScript truthiness of a number: 0 and NaN are falsy. */
  predicate Truthy(n: Extended)
  {
    match n
    case Finite(v) => v != 0.0
    case NotANumber => false
    case _ => true
  }

  /**
   * The render guard: nothing is drawn when the projected width or height is
   * falsy or positive infinity, or when the region is unfinished.
   */
  predicate Renders(pbox: PBox, unfinished: bool)
  {
    && Truthy(pbox.w) && pbox.w != PosInfinity
    && Truthy(pbox.h) && pbox.h != PosInfinity
    && !unfinished
  }

  /** A drawn box has a non-zero width and height that are finite or negative infinity. */
  lemma RendersMeans(pbox: PBox, unfinished: bool)
    ensures Renders(pbox, unfinished) <==>
      && !unfinished
      && ((pbox.w.Finite? && pbox.w.v != 0.0) || pbox.w == NegInfinity)
      && ((pbox.h.Finite? && pbox.h.v != 0.0) || pbox.h == NegInfinity)
  {
  }

  /**
   * For a region of non-negative size the guard rejects exactly the zero
   * scales: the box is drawn iff both diagonal entries are non-zero (and the
   * region is finished), and then its size is finite and positive when the
   * entries are.
   */
  lemma GuardMatchesScale(r: Region, m: Matrices.Affine, iw: real, ih: real, unfinished: bool)
    requires SizeNonNegative(r.shape) && iw >= 0.0 && ih >= 0.0 && Matrices.Det(m) != 0.0
    ensures var p := Project(r, m, iw, ih).value;
      && (Renders(p, unfinished) <==> !unfinished && m.a != 0.0 && m.d != 0.0)
      && (Renders(p, unfinished) ==> p.w.Finite? && p.h.Finite?)
      && (Renders(p, unfinished) && m.a > 0.0 && m.d > 0.0 ==> p.w.v > 0.0 && p.h.v > 0.0)
  {
    var p := Project(r, m, iw, ih).value;
    var c := ContentBox(r, iw, ih);
    ProjectedSizes(r, m, iw, ih);
    ContentBoxSize(r, iw, ih);
    GuardOnSizes(p, c.w, c.h, m.a, m.d, unfinished);
  }

  /** The guard on a box whose sizes are positive content sizes divided by a and d. */
  lemma GuardOnSizes(p: PBox, cw: real, ch: real, a: real, d: real, unfinished: bool)
    requires p.w == Divide(cw, a) && p.h == Divide(ch, d) && cw > 0.0 && ch > 0.0
    ensures Renders(p, unfinished) <==> !unfinished && a != 0.0 && d != 0.0
    ensures Renders(p, unfinished) ==> p.w.Finite? && p.h.Finite?
    ensures Renders(p, unfinished) && a > 0.0 && d > 0.0 ==> p.w.v > 0.0 && p.h.v > 0.0
  {
    if a > 0.0 {
      SignOfQuotient(p.w.v, a, cw);
    }
    if d > 0.0 {
      SignOfQuotient(p.h.v, d, ch);
    }
  }

  /** A number that times a positive factor gives a positive product is positive. */
  lemma SignOfQuotient(q: real, k: real, prod: real)
    requires k > 0.0 && q * k == prod && prod > 0.0
    ensures q > 0.0
  {
  }

  /** The absolutely positioned rectangle of the highlight. */
  datatype Style = Style(left: real, top: real, width: real, height: real)

  /**
   * `styleCoords`: a point gets a 60×60 square centred on the projected box's
   * centre; any other region the projected box grown by 5 on every side.
   */
  function StyleCoords(r: Region, x: real, y: real, w: real, h: real): (s: Style)
    ensures r.IsPoint() ==>
      && s.width == 60.0 && s.height == 60.0
      && s.left + s.width / 2.0 == x + w / 2.0 && s.top + s.height / 2.0 == y + h / 2.0
    ensures !r.IsPoint() ==>
      && s.left + 5.0 == x && s.left + s.width == x + w + 5.0
      && s.top + 5.0 == y && s.top + s.height == y + h + 5.0
  {
    if r.IsPoint() then Style(x + w / 2.0 - 30.0, y + h / 2.0 - 30.0, 60.0, 60.0)
    else Style(x - 5.0, y - 5.0, w + 10.0, h + 10.0)
  }

  /**
   * What a press on the highlight does. With no handler installed and pointer
   * events on, the press reaches nothing: the highlight is not inside the
   * element that carries the canvas's mouse handlers, so the event does not
   * bubble to them.
   */
  datatype Press = MovePoint(r: Region) | PickRegion(r: Region) | ForwardToCanvas | NoHandler

  /** The press handler exists only when neither the zoom nor the pan tool owns the primary button. */
  predicate HasMouseDownHandler(zoomWithPrimary: bool, dragWithPrimary: bool)
  {
    !zoomWithPrimary && !dragWithPrimary
  }

  /**
   * `onMouseDown`, installed only when neither the zoom nor the pan tool owns
   * the primary button: the primary button on an unlocked, highlighted point
   * starts moving it; else the primary button selects the region unless a
   * create tool owns it; anything else goes to the canvas's own handler.
   */
  function OnMouseDown(r: Region, button: int, createWithPrimary: bool, zoomWithPrimary: bool, dragWithPrimary: bool): (p: Press)
    ensures p.NoHandler? <==> !HasMouseDownHandler(zoomWithPrimary, dragWithPrimary)
    ensures p.MovePoint? <==>
      HasMouseDownHandler(zoomWithPrimary, dragWithPrimary) && !r.locked && r.IsPoint() && r.highlighted && button == 0
    ensures p.PickRegion? <==>
      HasMouseDownHandler(zoomWithPrimary, dragWithPrimary)
      && button == 0 && !createWithPrimary && !(!r.locked && r.IsPoint() && r.highlighted)
    ensures p.ForwardToCanvas? <==>
      HasMouseDownHandler(zoomWithPrimary, dragWithPrimary)
      && (button != 0 || (createWithPrimary && !(!r.locked && r.IsPoint() && r.highlighted)))
    ensures p.MovePoint? || p.PickRegion? ==> p.r == r
  {
    if !HasMouseDownHandler(zoomWithPrimary, dragWithPrimary) then NoHandler
    else if !r.locked && r.IsPoint() && r.highlighted && button == 0 then MovePoint(r)
    else if button == 0 && !createWithPrimary then PickRegion(r)
    else ForwardToCanvas
  }

  /** The reducer action a press dispatches, if any. */
  function PressAction(p: Press): (a: Option<Action>)
    ensures p.MovePoint? ==> a == Some(BeginMovePointAction(p.r))
    ensures p.PickRegion? ==> a == Some(SelectRegionAction(p.r))
    ensures p.ForwardToCanvas? || p.NoHandler? ==> a.None?
  {
    match p
    case MovePoint(r) => Some(BeginMovePoint(r))
    case PickRegion(r) => Some(SelectRegion(r))
    case ForwardToCanvas => None
    case NoHandler => None
  }

  /**
   * Under the zoom or pan tool a press on the highlight dispatches nothing to
   * the reducer, whatever the button and the region.
   */
  lemma PanOrZoomPressDispatchesNothing(r: Region, button: int, createWithPrimary: bool, zoomWithPrimary: bool, dragWithPrimary: bool)
    requires zoomWithPrimary || dragWithPrimary
    ensures PressAction(OnMouseDown(r, button, createWithPrimary, zoomWithPrimary, dragWithPrimary)).None?
  {
  }

  /**
   * `pointerEvents: "none"`: the press passes through the highlight to the
   * canvas beneath. A highlighted box always lets presses through; a
   * highlighted point never does; any other region does while the zoom, pan
   * or create tool owns the primary button.
   */
  predicate PassesThrough(r: Region, createWithPrimary: bool, zoomWithPrimary: bool, dragWithPrimary: bool)
  {
    if r.highlighted then !r.IsPoint()
    else zoomWithPrimary || dragWithPrimary || createWithPrimary
  }

  /** Where a press on the highlight's area goes once pointer events are taken into account. */
  function PressOn(r: Region, button: int, createWithPrimary: bool, zoomWithPrimary: bool, dragWithPrimary: bool): Press
  {
    if PassesThrough(r, createWithPrimary, zoomWithPrimary, dragWithPrimary) then ForwardToCanvas
    else OnMouseDown(r, button, createWithPrimary, zoomWithPrimary, dragWithPrimary)
  }

  /**
   * The routing of a press: a highlighted box never handles it, a press is
   * lost only on a highlighted point under the zoom or pan tool, and a press
   * selects exactly when it is primary, no tool owns the primary button, and
   * the region is an unhighlighted region or a locked highlighted point.
   */
  lemma PressRouting(r: Region, button: int, createWithPrimary: bool, zoomWithPrimary: bool, dragWithPrimary: bool)
    ensures var p := PressOn(r, button, createWithPrimary, zoomWithPrimary, dragWithPrimary);
      && (r.highlighted && !r.IsPoint() ==> p.ForwardToCanvas?)
      && (p.NoHandler? <==> r.highlighted && r.IsPoint() && (zoomWithPrimary || dragWithPrimary))
      && (p.MovePoint? <==>
            r.highlighted && r.IsPoint() && !r.locked && button == 0 && !zoomWithPrimary && !dragWithPrimary)
      && (p.PickRegion? <==>
            button == 0 && !zoomWithPrimary && !dragWithPrimary && !createWithPrimary
            && (!r.highlighted || (r.IsPoint() && r.locked)))
  {
  }
}
