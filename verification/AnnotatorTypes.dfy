/**
 * The annotation data model: tools, regions (point or box), images and the
 * editor's gesture mode.
 */
module AnnotatorTypes {
  import opened Common

  /** The five tools of the sidebar. */
  datatype Tool = Select | Pan | Zoom | CreatePoint | CreateBox

  /** Region ids are opaque strings (the source allows `string | number`). */
  type RegionId = string

  /** The geometric part of a region, in image-normalised coordinates. */
  datatype Shape =
    | Point(x: real, y: real)
    | Box(x: real, y: real, w: real, h: real)

  /**
   * A region: the fields every region carries plus its shape. `visible` keeps
   * the difference between `undefined` and `false`, which the select-box
   * filter observes; `locked`, `highlighted` and `editingLabels` are only ever
   * read for their truthiness, so `undefined` is `false`.
   */
  datatype Region = Region(
    id: RegionId,
    cls: Option<string>,
    locked: bool,
    visible: Option<bool>,
    color: string,
    editingLabels: bool,
    highlighted: bool,
    tags: seq<string>,
    shape: Shape)
  {
    predicate IsBox() { shape.Box? }
    predicate IsPoint() { shape.Point? }
  }

  /** Natural pixel size learned when the image finishes loading. */
  datatype Size = Size(w: real, h: real)

  /** An image with its regions; a missing `regions` list is the empty list. */
  datatype AnnotationImage = AnnotationImage(
    src: string,
    name: string,
    regions: seq<Region>,
    pixelSize: Option<Size>)

  /** A resize freedom `[xFree, yFree]`; each component is -1, 0 or +1 in practice. */
  datatype Freedom = Freedom(x: real, y: real)

  /**
   * The gesture mode: `null` (Idle), moving a region, or resizing a box.
   * `editLabelEditorAfter` and `isNew` are optional flags: absent is false.
   */
  datatype Mode =
    | Idle
    | MoveRegion(regionId: RegionId)
    | ResizeBox(regionId: RegionId, freedom: Freedom, original: Rect,
                isNew: bool, editLabelEditorAfter: bool)

  /** The ids of a region list, in order. */
  function Ids(regions: seq<Region>): (ids: seq<RegionId>)
    ensures |ids| == |regions|
    ensures forall i :: 0 <= i < |regions| ==> ids[i] == regions[i].id
  {
    if regions == [] then [] else [regions[0].id] + Ids(regions[1..])
  }

  /** No two regions of the list share an id. */
  predicate UniqueIds(regions: seq<Region>)
  {
    forall i, j :: 0 <= i < j < |regions| ==> regions[i].id != regions[j].id
  }

  /** At most one region of the list is highlighted. */
  predicate AtMostOneHighlighted(regions: seq<Region>)
  {
    forall i, j :: 0 <= i < j < |regions| && regions[i].highlighted ==> !regions[j].highlighted
  }

  /** Every box of the list has a non-negative width and height. */
  predicate BoxesNonNegative(regions: seq<Region>)
  {
    forall i :: 0 <= i < |regions| ==> SizeNonNegative(regions[i].shape)
  }

  predicate SizeNonNegative(s: Shape)
  {
    s.Box? ==> s.w >= 0.0 && s.h >= 0.0
  }
}
