/**
 * The select boxes and transform handles drawn over the regions: which
 * regions get a select box, when a box shows its nine handles, and what a
 * press on a handle tells the reducer.
 */
module TransformBoxes {
  import opened Common
  import opened AnnotatorTypes
  import opened AnnotatorActions
  import opened AnnotatorReducer
  import ReducerProperties

  /** `r.visible || r.visible === undefined`. */
  predicate VisibleOrUnset(r: Region)
  {
    r.visible != Some(false)
  }

  predicate Unlocked(r: Region)
  {
    !r.locked
  }

  predicate Selectable(r: Region)
  {
    VisibleOrUnset(r) && Unlocked(r)
  }

  /** The regions that get a select box: visible (or unset) first, then unlocked. */
  function SelectBoxRegions(rs: seq<Region>): seq<Region>
  {
    Filter(Filter(rs, VisibleOrUnset), Unlocked)
  }

  /**
   * The two filters in a row keep exactly the visible-or-unset, unlocked
   * regions, in their original order.
   */
  lemma SelectBoxRegionsExact(rs: seq<Region>)
    ensures SelectBoxRegions(rs) == Filter(rs, Selectable)
    ensures forall r :: r in SelectBoxRegions(rs) <==> r in rs && r.visible != Some(false) && !r.locked
  {
    FilterTwice(rs, VisibleOrUnset, Unlocked, Selectable);
  }

  /**
   * The handles appear only on a highlighted, unlocked box, when neither the
   * pan nor the zoom tool owns the primary button and the zoom is below 1.2.
   */
  predicate ShowHandles(r: Region, dragWithPrimary: bool, zoomWithPrimary: bool, matA: real)
  {
    r.IsBox() && !dragWithPrimary && !zoomWithPrimary && !r.locked && r.highlighted && matA < 1.2
  }

  /** The nine handle positions as fractions (px, py) of the box, centre last. */
  const Handles: seq<Pt> := [
    Pt(0.0, 0.0), Pt(0.5, 0.0), Pt(1.0, 0.0), Pt(1.0, 0.5), Pt(1.0, 1.0),
    Pt(0.5, 1.0), Pt(0.0, 1.0), Pt(0.0, 0.5), Pt(0.5, 0.5)]

  /** The index of the centre handle. */
  const Centre: nat := 8

  predicate OnGrid(c: real)
  {
    c == 0.0 || c == 0.5 || c == 1.0
  }

  /** The handles are the nine distinct points of the 3×3 grid {0, ½, 1}². */
  lemma HandlesAreTheGrid()
    ensures |Handles| == 9
    ensures forall i, j :: 0 <= i < j < |Handles| ==> Handles[i] != Handles[j]
    ensures forall i :: 0 <= i < |Handles| ==> OnGrid(Handles[i].x) && OnGrid(Handles[i].y)
    ensures forall px, py :: OnGrid(px) && OnGrid(py) ==> Pt(px, py) in Handles
    ensures Handles[Centre] == Pt(0.5, 0.5)
  {
  }

  /** The freedom a primary press on handle h sends: `[2px − 1, 2py − 1]`. */
  function HandleFreedom(h: Pt): Freedom
  {
    Freedom(h.x * 2.0 - 1.0, h.y * 2.0 - 1.0)
  }

  predicate UnitStep(v: real)
  {
    v == -1.0 || v == 0.0 || v == 1.0
  }

  /**
   * Every handle's freedom has components in {−1, 0, 1}, and only the centre
   * handle sends [0, 0]; distinct handles send distinct freedoms.
   */
  lemma HandleFreedoms(i: nat)
    requires i < |Handles|
    ensures UnitStep(HandleFreedom(Handles[i]).x) && UnitStep(HandleFreedom(Handles[i]).y)
    ensures HandleFreedom(Handles[i]) == Freedom(0.0, 0.0) <==> i == Centre
    ensures forall j :: 0 <= j < |Handles| && j != i ==> HandleFreedom(Handles[j]) != HandleFreedom(Handles[i])
  {
    HandlesAreTheGrid();
  }

  /** `boxCursorMap`, indexed by row 2·py and column 2·px. */
  const BoxCursorMap: seq<seq<string>> := [
    ["nw-resize", "n-resize", "ne-resize"],
    ["w-resize", "grab", "e-resize"],
    ["sw-resize", "s-resize", "se-resize"]]

  /** The table index a grid coordinate selects: 2·c, an integer in 0..2. */
  function GridIndex(c: real): (k: nat)
    requires OnGrid(c)
    ensures k < 3 && k as real == c * 2.0
  {
    (c * 2.0).Floor
  }

  /** The cursor shown over handle h: `boxCursorMap[2py][2px]`, always inside the table. */
  function Cursor(h: Pt): string
    requires OnGrid(h.x) && OnGrid(h.y)
  {
    BoxCursorMap[GridIndex(h.y)][GridIndex(h.x)]
  }

  /**
   * The cursor a freedom calls for, read off the signs of the freedom rather
   * than the handle's place in the table: the moving vertical edge (n or s)
   * then the moving horizontal edge (w or e), or "grab" when nothing resizes.
   */
  function CursorFor(f: Freedom): string
  {
    if f.y < 0.0 then
      (if f.x < 0.0 then "nw-resize" else if f.x > 0.0 then "ne-resize" else "n-resize")
    else if f.y > 0.0 then
      (if f.x < 0.0 then "sw-resize" else if f.x > 0.0 then "se-resize" else "s-resize")
    else
      (if f.x < 0.0 then "w-resize" else if f.x > 0.0 then "e-resize" else "grab")
  }

  /** Every handle's cursor names the edges its freedom moves. */
  lemma CursorMatchesFreedom(i: nat)
    requires i < |Handles|
    ensures OnGrid(Handles[i].x) && OnGrid(Handles[i].y)
    ensures Cursor(Handles[i]) == CursorFor(HandleFreedom(Handles[i]))
  {
    HandlesAreTheGrid();
  }

  /** What a press on a handle does. */
  datatype HandlePress = Transform(action: Action) | ForwardToCanvas

  /** A primary press begins a box transform with the handle's freedom; any other press goes to the canvas. */
  function HandleMouseDown(r: Region, h: Pt, button: int): (p: HandlePress)
    ensures p.Transform? <==> button == 0
    ensures p.Transform? ==> p.action == BeginBoxTransformationAction(r, HandleFreedom(h))
  {
    if button == 0 then Transform(BeginBoxTransform(r, HandleFreedom(h))) else ForwardToCanvas
  }

  /**
   * A primary press on a shown handle is an action the reducer accepts; the
   * centre handle enters MOVE_REGION on the box and every other handle enters
   * RESIZE_BOX with that handle's freedom.
   */
  lemma HandlePressEntersMode(s: State, r: Region, i: nat, drag: bool, zoom: bool, matA: real, freshId: RegionId)
    requires ShowHandles(r, drag, zoom, matA) && i < |Handles|
    ensures var p := HandleMouseDown(r, Handles[i], 0);
      && p.Transform? && Admissible(s, p.action, freshId)
      && (i == Centre ==> Reduce(s, p.action, freshId).mode == MoveRegion(r.id))
      && (i != Centre ==>
            && Reduce(s, p.action, freshId).mode.ResizeBox?
            && Reduce(s, p.action, freshId).mode.regionId == r.id
            && Reduce(s, p.action, freshId).mode.freedom == HandleFreedom(Handles[i]))
  {
    HandleFreedoms(i);
    var d := HandleFreedom(Handles[i]);
    ReducerProperties.BeginBoxTransformEntersMode(s, r, d, freshId);
  }
}
