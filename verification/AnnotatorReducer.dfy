/**
 * The annotation reducer: a pure transition function from an editor state and
 * an action to the next editor state. Every case rebuilds the state; region
 * lists of the selected image are replaced, never mutated.
 */
module AnnotatorReducer {
  import opened Common
  import opened AnnotatorTypes
  import opened AnnotatorActions

  /**
   * The editor state. `selectedImage` is `None` when it is undefined, null or
   * NaN: the three behave alike in every case of the reducer.
   */
  datatype State = State(
    mouseDownAt: Option<Pt>,
    selectedTool: Tool,
    selectedCls: Option<string>,
    mode: Mode,
    regionClsList: Option<seq<string>>,
    selectedImage: Option<int>,
    images: seq<AnnotationImage>,
    colors: seq<string>)

  /** The colour used when the palette has no usable first entry. */
  const FallbackColor: string := "#f44336"

  /** Below this displacement a freshly drawn box counts as a click and is discarded. */
  const DiscardThreshold: real := 0.002

  /** At or below this size a resized side flips the freedom of its axis. */
  const FlipThreshold: real := 0.001

  // ---------------------------------------------------------------------------
  // Selected image and its regions

  /** `state.images[state.selectedImage]` is defined. */
  predicate HasSelectedImage(s: State)
  {
    s.selectedImage.Some? && 0 <= s.selectedImage.value < |s.images|
  }

  /** The regions of the selected image (empty when there is none). */
  function Selected(s: State): seq<Region>
  {
    if HasSelectedImage(s) then s.images[s.selectedImage.value].regions else []
  }

  /**
   * The state whose selected image has its region list replaced by `rs`;
   * every other image, and the state when no image is selected, is unchanged.
   */
  function WithRegions(s: State, rs: seq<Region>): (r: State)
    ensures r.(images := s.images) == s && |r.images| == |s.images|
    ensures forall j :: 0 <= j < |s.images| && (!HasSelectedImage(s) || j != s.selectedImage.value)
              ==> r.images[j] == s.images[j]
    ensures HasSelectedImage(s) ==> HasSelectedImage(r) && Selected(r) == rs
    ensures HasSelectedImage(s) ==> r.images[s.selectedImage.value] == s.images[s.selectedImage.value].(regions := rs)
    ensures !HasSelectedImage(s) ==> r == s
  {
    if HasSelectedImage(s) then
      var i := s.selectedImage.value;
      s.(images := s.images[i := s.images[i].(regions := rs)])
    else s
  }

  // ---------------------------------------------------------------------------
  // Region-list edits

  /** Every region with `editingLabels` cleared (BEGIN_BOX_TRANSFORM). */
  function ClearEditing(rs: seq<Region>): (out: seq<Region>)
    ensures |out| == |rs|
    ensures forall k :: 0 <= k < |rs| ==> out[k] == rs[k].(editingLabels := false)
  {
    seq(|rs|, k requires 0 <= k < |rs| => rs[k].(editingLabels := false))
  }

  /** Every region with `editingLabels` and `highlighted` cleared (MOUSE_DOWN). */
  function ClearSelection(rs: seq<Region>): (out: seq<Region>)
    ensures |out| == |rs|
    ensures forall k :: 0 <= k < |rs| ==> out[k] == rs[k].(editingLabels := false, highlighted := false)
  {
    seq(|rs|, k requires 0 <= k < |rs| => rs[k].(editingLabels := false, highlighted := false))
  }

  /** SELECT_REGION: only regions with id `id` are highlighted and editing labels. */
  function SelectOnly(rs: seq<Region>, id: RegionId): (out: seq<Region>)
    ensures |out| == |rs|
    ensures forall k :: 0 <= k < |rs| ==>
      out[k] == rs[k].(highlighted := rs[k].id == id, editingLabels := rs[k].id == id)
  {
    seq(|rs|, k requires 0 <= k < |rs| =>
      rs[k].(highlighted := rs[k].id == id, editingLabels := rs[k].id == id))
  }

  /** Sets `editingLabels` on the regions with id `id` (MOUSE_UP after a new box). */
  function SetEditing(rs: seq<Region>, id: RegionId): (out: seq<Region>)
    ensures |out| == |rs|
    ensures forall k :: 0 <= k < |rs| ==>
      out[k] == if rs[k].id == id then rs[k].(editingLabels := true) else rs[k]
  {
    seq(|rs|, k requires 0 <= k < |rs| =>
      if rs[k].id == id then rs[k].(editingLabels := true) else rs[k])
  }

  /** Replaces every region with id `id` by `r` (CHANGE_REGION). */
  function ReplaceId(rs: seq<Region>, id: RegionId, r: Region): (out: seq<Region>)
    ensures |out| == |rs|
    ensures forall k :: 0 <= k < |rs| ==> out[k] == if rs[k].id == id then r else rs[k]
  {
    seq(|rs|, k requires 0 <= k < |rs| => if rs[k].id == id then r else rs[k])
  }

  /** Gives every region with id `id` the shape `f` makes of its old one. */
  function ReshapeId(rs: seq<Region>, id: RegionId, f: Shape -> Shape): (out: seq<Region>)
    ensures |out| == |rs|
    ensures forall k :: 0 <= k < |rs| ==>
      out[k] == if rs[k].id == id then rs[k].(shape := f(rs[k].shape)) else rs[k]
  {
    seq(|rs|, k requires 0 <= k < |rs| =>
      if rs[k].id == id then rs[k].(shape := f(rs[k].shape)) else rs[k])
  }

  /** The regions whose id is not `id`, in their original order. */
  function RemoveId(rs: seq<Region>, id: RegionId): (out: seq<Region>)
    ensures |out| <= |rs|
    ensures forall r :: r in out <==> r in rs && r.id != id
  {
    if rs == [] then []
    else if rs[0].id == id then RemoveId(rs[1..], id)
    else [rs[0]] + RemoveId(rs[1..], id)
  }

  /**
   * Removal keeps every region of another id as many times as it occurs, and
   * changes nothing when no region has the id.
   */
  lemma RemoveIdCount(rs: seq<Region>, id: RegionId)
    ensures forall r :: multiset(RemoveId(rs, id))[r] == if r.id == id then 0 else multiset(rs)[r]
    ensures (forall k :: 0 <= k < |rs| ==> rs[k].id != id) ==> RemoveId(rs, id) == rs
  {
    forall r ensures multiset(RemoveId(rs, id))[r] == if r.id == id then 0 else multiset(rs)[r] {
      RemoveIdCountOf(rs, id, r);
    }
    if forall k :: 0 <= k < |rs| ==> rs[k].id != id {
      RemoveIdAbsent(rs, id);
    }
  }

  /** The count of one region `r` after removal. */
  lemma {:induction false} RemoveIdCountOf(rs: seq<Region>, id: RegionId, r: Region)
    ensures multiset(RemoveId(rs, id))[r] == if r.id == id then 0 else multiset(rs)[r]
  {
    if rs != [] {
      var head := if rs[0].id == id then [] else [rs[0]];
      RemoveIdCountOf(rs[1..], id, r);
      assert rs == [rs[0]] + rs[1..];
      assert multiset(rs)[r] == multiset([rs[0]])[r] + multiset(rs[1..])[r];
      assert RemoveId(rs, id) == head + RemoveId(rs[1..], id);
      assert multiset(RemoveId(rs, id))[r] == multiset(head)[r] + multiset(RemoveId(rs[1..], id))[r];
    }
  }

  /** A list without the id is kept whole. */
  lemma {:induction false} RemoveIdAbsent(rs: seq<Region>, id: RegionId)
    requires forall k :: 0 <= k < |rs| ==> rs[k].id != id
    ensures RemoveId(rs, id) == rs
  {
    if rs != [] {
      RemoveIdAbsent(rs[1..], id);
      assert rs == [rs[0]] + rs[1..];
    }
  }

  /**
   * Removal distributes over concatenation: the regions kept from `a` come
   * before those kept from `b`, so the kept regions stay in their order.
   */
  lemma {:induction false} RemoveIdAppend(a: seq<Region>, b: seq<Region>, id: RegionId)
    ensures RemoveId(a + b, id) == RemoveId(a, id) + RemoveId(b, id)
  {
    if a == [] {
      assert a + b == b;
    } else {
      assert (a + b)[0] == a[0] && (a + b)[1..] == a[1..] + b;
      RemoveIdAppend(a[1..], b, id);
    }
  }

  /** `regions.find(r => r.id === id)`: the first region with that id. */
  function FindById(rs: seq<Region>, id: RegionId): (r: Region)
    requires exists k :: 0 <= k < |rs| && rs[k].id == id
    ensures r in rs && r.id == id
    ensures exists k :: 0 <= k < |rs| && rs[k] == r && forall j :: 0 <= j < k ==> rs[j].id != id
  {
    if rs[0].id == id then rs[0]
    else
      assert exists k :: 0 <= k < |rs[1..]| && rs[1..][k].id == id by {
        var k :| 0 <= k < |rs| && rs[k].id == id;
        assert rs[1..][k - 1].id == id;
      }
      var r := FindById(rs[1..], id);
      ghost var k :| 0 <= k < |rs[1..]| && rs[1..][k] == r && forall j :: 0 <= j < k ==> rs[1..][j].id != id;
      assert rs[k + 1] == r && forall j :: 0 <= j < k + 1 ==> rs[j].id != id;
      r
  }

  // ---------------------------------------------------------------------------
  // Class and colour

  /** `list.indexOf(cls)`: the first index of `cls`, or -1 (always -1 for an undefined class). */
  function IndexOf(list: seq<string>, cls: Option<string>): (i: int)
    ensures -1 <= i < |list|
    ensures i == -1 <==> cls.None? || cls.value !in list
    ensures i >= 0 ==> list[i] == cls.value && forall j :: 0 <= j < i ==> list[j] != cls.value
  {
    if cls.None? || list == [] then -1
    else if list[0] == cls.value then 0
    else
      var i := IndexOf(list[1..], cls);
      if i == -1 then -1 else i + 1
  }

  /** `regionClsList || []`. */
  function ClassList(s: State): seq<string>
  {
    if s.regionClsList.Some? then s.regionClsList.value else []
  }

  /** The palette lookup is defined: the class is unknown, or the palette is non-empty. */
  predicate ColorsDefined(s: State)
  {
    IndexOf(ClassList(s), s.selectedCls) == -1 || |s.colors| > 0
  }

  /** `colors[0] || "#f44336"`: an absent or empty first entry falls back. */
  function DefaultColor(colors: seq<string>): string
  {
    if |colors| > 0 && colors[0] != "" then colors[0] else FallbackColor
  }

  /** The colour of a region created at mouse-down. */
  function NewRegionColor(s: State): (c: string)
    requires ColorsDefined(s)
    ensures c in s.colors || c == FallbackColor
  {
    var i := IndexOf(ClassList(s), s.selectedCls);
    if i != -1 then s.colors[i % |s.colors|] else DefaultColor(s.colors)
  }

  // ---------------------------------------------------------------------------
  // BEGIN_BOX_TRANSFORM

  /** The box a transform starts from, `{x, y, w, h}` of `box as Box`. */
  function OriginalOf(box: Region): Rect
    requires box.IsBox()
  {
    Rect(box.shape.x, box.shape.y, box.shape.w, box.shape.h)
  }

  function BeginBoxTransformCase(s: State, box: Region, directions: Freedom): State
    requires (directions.x == 0.0 && directions.y == 0.0) || box.IsBox()
  {
    var cleared := WithRegions(s, ClearEditing(Selected(s)));
    if directions.x == 0.0 && directions.y == 0.0 then
      cleared.(mode := MoveRegion(box.id))
    else
      cleared.(mode := ResizeBox(box.id, directions, OriginalOf(box), false, false))
  }

  // ---------------------------------------------------------------------------
  // MOUSE_DOWN

  /** The region a create tool adds at `p` with id `id`, if any. */
  function NewRegion(s: State, p: Pt, id: RegionId): Option<Region>
    requires (s.selectedTool == CreatePoint || s.selectedTool == CreateBox) ==> ColorsDefined(s)
  {
    match s.selectedTool
    case CreatePoint =>
      Some(Region(id, s.selectedCls, false, None, NewRegionColor(s), true, true, [], Point(p.x, p.y)))
    case CreateBox =>
      Some(Region(id, s.selectedCls, false, None, NewRegionColor(s), false, true, [], Box(p.x, p.y, 0.0, 0.0)))
    case _ => None
  }

  /** What MOUSE_DOWN demands: a create tool needs a defined colour. */
  predicate MouseDownReady(s: State)
  {
    HasSelectedImage(s) && (s.selectedTool == CreatePoint || s.selectedTool == CreateBox) ==> ColorsDefined(s)
  }

  function MouseDownCase(s: State, p: Pt, id: RegionId): State
    requires MouseDownReady(s)
  {
    if !HasSelectedImage(s) then s
    else
      var down := s.(mouseDownAt := Some(p));
      var cleared := ClearSelection(Selected(s));
      match NewRegion(s, p, id)
      case None => WithRegions(down, cleared)
      case Some(r) =>
        if s.selectedTool == CreateBox then
          WithRegions(down.(mode := ResizeBox(id, Freedom(1.0, 1.0), Rect(p.x, p.y, 0.0, 0.0), true, true)),
                      cleared + [r])
        else
          WithRegions(down, cleared + [r])
  }

  // ---------------------------------------------------------------------------
  // MOUSE_MOVE

  /**
   * One axis of a resize: the new origin and size from the freedom component,
   * the original origin and size, and the pointer coordinate.
   */
  function ResizeAxis(free: real, o: real, len: real, c: real): (r: (real, real))
  {
    if free == 0.0 then (o, len)
    else if free == -1.0 then
      var d := Min(o + len, c);
      (d, len + (o - d))
    else (o, Max(0.0, len + (c - o - len)))
  }

  /**
   * The freedom after a resize step, as written: the second test rebuilds the
   * pair from the ORIGINAL x component, so when both sides collapse only the
   * y component ends up flipped.
   */
  function FlipFreedom(f: Freedom, dw: real, dh: real): Freedom
  {
    var afterW := if dw <= FlipThreshold then Freedom(f.x * -1.0, f.y) else f;
    if dh <= FlipThreshold then Freedom(f.x, f.y * -1.0) else afterW
  }

  /** The shape a resize step gives the target region. */
  function Resized(sh: Shape, dx: real, dy: real, dw: real, dh: real): Shape
  {
    match sh
    case Box(_, _, _, _) => Box(dx, dy, dw, dh)
    case Point(_, _) => Point(dx, dy)
  }

  /** The shape a move step gives the target region: a box is centred on `p`. */
  function Moved(sh: Shape, p: Pt): Shape
  {
    match sh
    case Box(_, _, w, h) => Box(p.x - w / 2.0, p.y - h / 2.0, w, h)
    case Point(_, _) => Point(p.x, p.y)
  }

  function ResizeCase(s: State, p: Pt): State
    requires s.mode.ResizeBox?
  {
    var m := s.mode;
    var (dx, dw) := ResizeAxis(m.freedom.x, m.original.x, m.original.w, p.x);
    var (dy, dh) := ResizeAxis(m.freedom.y, m.original.y, m.original.h, p.y);
    var flipped := s.(mode := m.(freedom := FlipFreedom(m.freedom, dw, dh)));
    WithRegions(flipped, ReshapeId(Selected(s), m.regionId, sh => Resized(sh, dx, dy, dw, dh)))
  }

  function MoveCase(s: State, p: Pt): State
    requires s.mode.MoveRegion?
  {
    WithRegions(s, ReshapeId(Selected(s), s.mode.regionId, sh => Moved(sh, p)))
  }

  function MouseMoveCase(s: State, p: Pt): State
  {
    if s.mode.Idle? || !HasSelectedImage(s) then s
    else if s.mode.ResizeBox? then ResizeCase(s, p)
    else MoveCase(s, p)
  }

  // ---------------------------------------------------------------------------
  // MOUSE_UP

  /** A new box released within the threshold of its start on either axis. */
  predicate IsDegenerateRelease(m: Mode, p: Pt)
    requires m.ResizeBox?
  {
    m.isNew && (Abs(m.original.x - p.x) < DiscardThreshold || Abs(m.original.y - p.y) < DiscardThreshold)
  }

  function MouseUpCase(s: State, p: Pt): State
  {
    if s.mode.Idle? then s
    else
      var up := s.(mouseDownAt := None);
      match s.mode
      case ResizeBox(id, _, _, _, editAfter) =>
        if IsDegenerateRelease(s.mode, p) then
          WithRegions(up, RemoveId(Selected(up), id)).(mode := Idle)
        else if editAfter then
          WithRegions(up, SetEditing(Selected(up), id)).(mode := Idle)
        else up.(mode := Idle)
      case MoveRegion(_) => up.(mode := Idle)
  }

  // ---------------------------------------------------------------------------
  // CHANGE_REGION

  /** The region CHANGE_REGION replaces: it must exist in the selected image. */
  predicate RegionPresent(s: State, id: RegionId)
  {
    exists k :: 0 <= k < |Selected(s)| && Selected(s)[k].id == id
  }

  /** The class selected after CHANGE_REGION changes the class to `cls`. */
  function ClassAfterChange(s: State, cls: Option<string>): Option<string>
    requires s.regionClsList.Some?
  {
    if IndexOf(s.regionClsList.value, cls) != -1 then cls else s.selectedCls
  }

  /** What CHANGE_REGION demands: the region exists, and a class change can be looked up. */
  predicate ChangeRegionReady(s: State, r: Region)
  {
    && RegionPresent(s, r.id)
    && (FindById(Selected(s), r.id).cls != r.cls ==>
          && s.regionClsList.Some?
          && (IndexOf(s.regionClsList.value, ClassAfterChange(s, r.cls)) != -1 ==> |s.colors| > 0))
  }

  function ChangeRegionCase(s: State, r: Region): State
    requires ChangeRegionReady(s, r)
  {
    var prev := FindById(Selected(s), r.id);
    if prev.cls != r.cls then
      var cls := ClassAfterChange(s, r.cls);
      var i := IndexOf(s.regionClsList.value, cls);
      var r' := if i != -1 then r.(color := s.colors[i % |s.colors|]) else r;
      var s' := s.(selectedCls := cls);
      WithRegions(s', ReplaceId(Selected(s'), r.id, r'))
    else
      WithRegions(s, ReplaceId(Selected(s), r.id, r))
  }

  // ---------------------------------------------------------------------------
  // HEADER_BUTTON_CLICKED

  function HeaderCase(s: State, buttonName: string): State
  {
    if buttonName == "previous" then
      if s.selectedImage.None? || s.selectedImage.value == 0 then s
      else s.(selectedImage := Some(s.selectedImage.value - 1))
    else if buttonName == "next" then
      if s.selectedImage.None? || s.selectedImage.value == |s.images| - 1 then s
      else s.(selectedImage := Some(s.selectedImage.value + 1))
    else s
  }

  // ---------------------------------------------------------------------------
  // The reducer

  /**
   * What the reducer demands of an action: a box transform with a non-zero
   * freedom is given a box, a create tool has a colour, a changed region
   * exists, and a created region's id (a random string in the source) is not
   * already used in the selected image.
   */
  predicate Admissible(s: State, a: Action, freshId: RegionId)
  {
    match a
    case BeginBoxTransform(box, d) => (d.x == 0.0 && d.y == 0.0) || box.IsBox()
    case MouseDown(_) => MouseDownReady(s) && (forall k :: 0 <= k < |Selected(s)| ==> Selected(s)[k].id != freshId)
    case ChangeRegion(r) => ChangeRegionReady(s, r)
    case _ => true
  }

  /** `AnnotatorReducer(state, action)`; `freshId` stands for `getRandomId()`. */
  function Reduce(s: State, a: Action, freshId: RegionId): State
    requires Admissible(s, a, freshId)
  {
    match a
    case SelectTool(t) => s.(selectedTool := t)
    case ImageLoaded(md) =>
      if HasSelectedImage(s) then
        var i := s.selectedImage.value;
        s.(images := s.images[i := s.images[i].(pixelSize := Some(Size(md.naturalWidth, md.naturalHeight)))])
      else s
    case BeginMovePoint(point) => s.(mode := MoveRegion(point.id))
    case BeginBoxTransform(box, d) => BeginBoxTransformCase(s, box, d)
    case MouseDown(p) => MouseDownCase(s, p, freshId)
    case MouseMove(p) => MouseMoveCase(s, p)
    case MouseUp(p) => MouseUpCase(s, p)
    case DeleteRegion(r) => WithRegions(s, RemoveId(Selected(s), r.id))
    case ChangeRegion(r) => ChangeRegionCase(s, r)
    case SelectRegion(r) => WithRegions(s, SelectOnly(Selected(s), r.id))
    case SelectImage(i) => s.(selectedImage := Some(i))
    case HeaderButtonClicked(name) => HeaderCase(s, name)
  }
}
