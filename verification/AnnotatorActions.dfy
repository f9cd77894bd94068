/**
 * The reducer's input alphabet: the twelve-variant action union and the
 * creator functions that build each variant.
 */
module AnnotatorActions {
  import opened Common
  import opened AnnotatorTypes

  /** Image metadata reported on load; `duration` is optional. */
  datatype Metadata = Metadata(naturalWidth: real, naturalHeight: real, duration: Option<real>)

  /**
   * One variant per action type; the fields are the variant's `payload`.
   * Header button names are the free-form strings the toolbar sends.
   */
  datatype Action =
    | SelectImage(imageIndex: int)
    | SelectTool(selectedTool: Tool)
    | ImageLoaded(metadata: Metadata)
    | ChangeRegion(region: Region)
    | BeginBoxTransform(box: Region, directions: Freedom)
    | SelectRegion(region: Region)
    | BeginMovePoint(point: Region)
    | DeleteRegion(region: Region)
    | MouseMove(payload: Pt)
    | MouseDown(payload: Pt)
    | MouseUp(payload: Pt)
    | HeaderButtonClicked(buttonName: string)

  /** The `type` tag each variant carries. */
  function TypeTag(a: Action): string
  {
    match a
    case SelectImage(_) => "SELECT_IMAGE"
    case SelectTool(_) => "SELECT_TOOL"
    case ImageLoaded(_) => "IMAGE_LOADED"
    case ChangeRegion(_) => "CHANGE_REGION"
    case BeginBoxTransform(_, _) => "BEGIN_BOX_TRANSFORM"
    case SelectRegion(_) => "SELECT_REGION"
    case BeginMovePoint(_) => "BEGIN_MOVE_POINT"
    case DeleteRegion(_) => "DELETE_REGION"
    case MouseMove(_) => "MOUSE_MOVE"
    case MouseDown(_) => "MOUSE_DOWN"
    case MouseUp(_) => "MOUSE_UP"
    case HeaderButtonClicked(_) => "HEADER_BUTTON_CLICKED"
  }

  /** The twelve tags of the union, in declaration order. */
  const AllTags: seq<string> := [
    "SELECT_IMAGE", "SELECT_TOOL", "IMAGE_LOADED", "CHANGE_REGION",
    "BEGIN_BOX_TRANSFORM", "SELECT_REGION", "BEGIN_MOVE_POINT", "DELETE_REGION",
    "MOUSE_MOVE", "MOUSE_DOWN", "MOUSE_UP", "HEADER_BUTTON_CLICKED"]

  /** Two actions carry the same tag exactly when they are the same variant. */
  predicate SameVariant(a: Action, b: Action)
  {
    match (a, b)
    case (SelectImage(_), SelectImage(_)) => true
    case (SelectTool(_), SelectTool(_)) => true
    case (ImageLoaded(_), ImageLoaded(_)) => true
    case (ChangeRegion(_), ChangeRegion(_)) => true
    case (BeginBoxTransform(_, _), BeginBoxTransform(_, _)) => true
    case (SelectRegion(_), SelectRegion(_)) => true
    case (BeginMovePoint(_), BeginMovePoint(_)) => true
    case (DeleteRegion(_), DeleteRegion(_)) => true
    case (MouseMove(_), MouseMove(_)) => true
    case (MouseDown(_), MouseDown(_)) => true
    case (MouseUp(_), MouseUp(_)) => true
    case (HeaderButtonClicked(_), HeaderButtonClicked(_)) => true
    case _ => false
  }

  /** The position of a variant in the union's declaration order. */
  function TagIndex(a: Action): (i: nat)
    ensures i < 12
  {
    match a
    case SelectImage(_) => 0
    case SelectTool(_) => 1
    case ImageLoaded(_) => 2
    case ChangeRegion(_) => 3
    case BeginBoxTransform(_, _) => 4
    case SelectRegion(_) => 5
    case BeginMovePoint(_) => 6
    case DeleteRegion(_) => 7
    case MouseMove(_) => 8
    case MouseDown(_) => 9
    case MouseUp(_) => 10
    case HeaderButtonClicked(_) => 11
  }

  /** The twelve tags are pairwise distinct. */
  lemma TagsDistinct()
    ensures |AllTags| == 12
    ensures forall i, j :: 0 <= i < j < |AllTags| ==> AllTags[i] != AllTags[j]
  {
  }

  /**
   * The union has exactly twelve variants with pairwise distinct tags, so the
   * reducer's switch on `type` tells every variant apart.
   */
  lemma TagsIdentifyVariants(a: Action, b: Action)
    ensures TypeTag(a) in AllTags
    ensures |AllTags| == 12
    ensures forall i, j :: 0 <= i < j < |AllTags| ==> AllTags[i] != AllTags[j]
    ensures TypeTag(a) == TypeTag(b) <==> SameVariant(a, b)
  {
    TagsDistinct();
    TagAtIndex(a);
    TagAtIndex(b);
    SameVariantSameIndex(a, b);
  }

  /** Each variant's tag sits at its index in `AllTags`. */
  lemma TagAtIndex(a: Action)
    ensures TypeTag(a) == AllTags[TagIndex(a)]
  {
  }

  /** Two actions are the same variant exactly when their indices agree. */
  lemma SameVariantSameIndex(a: Action, b: Action)
    ensures SameVariant(a, b) <==> TagIndex(a) == TagIndex(b)
  {
  }

  function SelectImageAction(selectedImage: int): (a: Action)
    ensures TypeTag(a) == "SELECT_IMAGE" && a.SelectImage? && a.imageIndex == selectedImage
  {
    SelectImage(selectedImage)
  }

  function SelectToolAction(itemName: Tool): (a: Action)
    ensures TypeTag(a) == "SELECT_TOOL" && a.SelectTool? && a.selectedTool == itemName
  {
    SelectTool(itemName)
  }

  function ImageLoadedAction(metadata: Metadata): (a: Action)
    ensures TypeTag(a) == "IMAGE_LOADED" && a.ImageLoaded? && a.metadata == metadata
  {
    ImageLoaded(metadata)
  }

  function ChangeRegionAction(region: Region): (a: Action)
    ensures TypeTag(a) == "CHANGE_REGION" && a.ChangeRegion? && a.region == region
  {
    ChangeRegion(region)
  }

  function BeginBoxTransformationAction(box: Region, directions: Freedom): (a: Action)
    ensures TypeTag(a) == "BEGIN_BOX_TRANSFORM" && a.BeginBoxTransform?
    ensures a.box == box && a.directions == directions
  {
    BeginBoxTransform(box, directions)
  }

  function SelectRegionAction(region: Region): (a: Action)
    ensures TypeTag(a) == "SELECT_REGION" && a.SelectRegion? && a.region == region
  {
    SelectRegion(region)
  }

  function BeginMovePointAction(point: Region): (a: Action)
    ensures TypeTag(a) == "BEGIN_MOVE_POINT" && a.BeginMovePoint? && a.point == point
  {
    BeginMovePoint(point)
  }

  function DeleteRegionAction(region: Region): (a: Action)
    ensures TypeTag(a) == "DELETE_REGION" && a.DeleteRegion? && a.region == region
  {
    DeleteRegion(region)
  }

  function MouseMoveAction(p: Pt): (a: Action)
    ensures TypeTag(a) == "MOUSE_MOVE" && a.MouseMove?
    ensures a.payload.x == p.x && a.payload.y == p.y
  {
    MouseMove(Pt(p.x, p.y))
  }

  function MouseDownAction(p: Pt): (a: Action)
    ensures TypeTag(a) == "MOUSE_DOWN" && a.MouseDown?
    ensures a.payload.x == p.x && a.payload.y == p.y
  {
    MouseDown(Pt(p.x, p.y))
  }

  function MouseUpAction(p: Pt): (a: Action)
    ensures TypeTag(a) == "MOUSE_UP" && a.MouseUp?
    ensures a.payload.x == p.x && a.payload.y == p.y
  {
    MouseUp(Pt(p.x, p.y))
  }

  function SelectHeaderItemAction(buttonName: string): (a: Action)
    ensures TypeTag(a) == "HEADER_BUTTON_CLICKED" && a.HeaderButtonClicked?
    ensures a.buttonName == buttonName
  {
    HeaderButtonClicked(buttonName)
  }
}
