/**
 * Properties of the annotation reducer: what each action does to the
 * selected image and the mode, what it leaves alone, and the invariants
 * (non-negative box sizes, unique ids per image) that every action keeps.
 */
module ReducerProperties {
  import opened Common
  import opened AnnotatorTypes
  import opened AnnotatorActions
  import opened AnnotatorReducer

  /** Images other than the selected one are the same in `s` and `t`. */
  predicate OtherImagesUnchanged(s: State, t: State)
  {
    |t.images| == |s.images| &&
    forall j :: 0 <= j < |s.images| && (!HasSelectedImage(s) || j != s.selectedImage.value)
      ==> t.images[j] == s.images[j]
  }

  /** Only the region list of the selected image differs between `s` and `t`. */
  predicate OnlySelectedRegionsChanged(s: State, t: State)
  {
    && OtherImagesUnchanged(s, t)
    && t.(images := s.images) == s
    && (HasSelectedImage(s) ==>
          HasSelectedImage(t) &&
          t.images[s.selectedImage.value].(regions := Selected(s)) == s.images[s.selectedImage.value])
  }

  // ---------------------------------------------------------------------------
  // SELECT_REGION

  /**
   * After SELECT_REGION, exactly the regions of the selected image whose id is
   * the target's are highlighted and editing labels; nothing else of any region
   * changes, and no other image or state field changes. With unique ids, at
   * most one region is highlighted afterwards.
   */
  lemma SelectRegionSelectsExactlyTarget(s: State, target: Region, freshId: RegionId)
    ensures var t := Reduce(s, SelectRegion(target), freshId);
      && OnlySelectedRegionsChanged(s, t)
      && |Selected(t)| == |Selected(s)|
      && (forall k :: 0 <= k < |Selected(s)| ==>
            && (Selected(t)[k].highlighted <==> Selected(s)[k].id == target.id)
            && (Selected(t)[k].editingLabels <==> Selected(s)[k].id == target.id)
            && Selected(t)[k].(highlighted := false, editingLabels := false)
               == Selected(s)[k].(highlighted := false, editingLabels := false))
      && (UniqueIds(Selected(s)) ==>
            forall k, l :: (0 <= k < |Selected(t)| && 0 <= l < |Selected(t)| &&
              Selected(t)[k].highlighted && Selected(t)[l].highlighted) ==> k == l)
  {
    var t := Reduce(s, SelectRegion(target), freshId);
    if !HasSelectedImage(s) {
      assert t == s;
    }
  }

  // ---------------------------------------------------------------------------
  // MOUSE_DOWN

  /** MOUSE_DOWN without a selected image returns the state unchanged. */
  lemma MouseDownWithoutImageIsNoOp(s: State, p: Pt, freshId: RegionId)
    requires Admissible(s, MouseDown(p), freshId)
    requires !HasSelectedImage(s)
    ensures Reduce(s, MouseDown(p), freshId) == s
  {
  }

  /** Whether the tool creates a region on mouse-down. */
  predicate IsCreateTool(t: Tool)
  {
    t == CreatePoint || t == CreateBox
  }

  /**
   * MOUSE_DOWN with a selected image records the press point, clears the
   * highlight and label editing of every existing region of the selected
   * image, and appends exactly one region for a create tool and none
   * otherwise. Only the create-box tool changes the mode.
   */
  lemma MouseDownClearsAndAppends(s: State, p: Pt, freshId: RegionId)
    requires Admissible(s, MouseDown(p), freshId)
    requires HasSelectedImage(s)
    ensures var t := Reduce(s, MouseDown(p), freshId);
      && t.mouseDownAt == Some(p)
      && OtherImagesUnchanged(s, t)
      && HasSelectedImage(t)
      && |Selected(t)| == |Selected(s)| + (if IsCreateTool(s.selectedTool) then 1 else 0)
      && (forall k :: 0 <= k < |Selected(s)| ==>
            Selected(t)[k] == Selected(s)[k].(editingLabels := false, highlighted := false))
      && (s.selectedTool != CreateBox ==> t.mode == s.mode)
      && t.(mouseDownAt := s.mouseDownAt, mode := s.mode, images := s.images) == s
  {
  }

  /**
   * The colour of a new region: the palette entry at the class's first index
   * (modulo the palette length) when the selected class is in the class list,
   * otherwise the first palette entry, or "#f44336" when there is none.
   */
  lemma NewRegionColorRule(s: State)
    requires ColorsDefined(s)
    ensures s.selectedCls.Some? && s.selectedCls.value in ClassList(s) ==>
      exists i :: 0 <= i < |ClassList(s)| && ClassList(s)[i] == s.selectedCls.value
        && (forall j :: 0 <= j < i ==> ClassList(s)[j] != s.selectedCls.value)
        && NewRegionColor(s) == s.colors[i % |s.colors|]
    ensures s.selectedCls.None? || s.selectedCls.value !in ClassList(s) ==>
      NewRegionColor(s) == if |s.colors| > 0 && s.colors[0] != "" then s.colors[0] else "#f44336"
    ensures NewRegionColor(s) in s.colors || NewRegionColor(s) == "#f44336"
  {
    var i := IndexOf(ClassList(s), s.selectedCls);
    if i != -1 {
      assert NewRegionColor(s) == s.colors[i % |s.colors|];
    }
  }

  /**
   * create-point appends a highlighted point at the press position, editing
   * its labels, with the new id, the selected class and the palette colour;
   * the mode is left as it was.
   */
  lemma CreatePointAppendsPoint(s: State, p: Pt, freshId: RegionId)
    requires Admissible(s, MouseDown(p), freshId)
    requires HasSelectedImage(s) && s.selectedTool == CreatePoint
    ensures var t := Reduce(s, MouseDown(p), freshId);
      && |Selected(t)| == |Selected(s)| + 1
      && Selected(t)[|Selected(s)|]
         == Region(freshId, s.selectedCls, false, None, NewRegionColor(s), true, true, [], Point(p.x, p.y))
      && t.mode == s.mode
  {
    var down := s.(mouseDownAt := Some(p));
    var r := Region(freshId, s.selectedCls, false, None, NewRegionColor(s), true, true, [], Point(p.x, p.y));
    var out := ClearSelection(Selected(s)) + [r];
    assert Reduce(s, MouseDown(p), freshId) == WithRegions(down, out);
    assert HasSelectedImage(down);
  }

  /**
   * create-box appends a highlighted zero-size box at the press position, not
   * yet editing labels, and enters RESIZE_BOX on it with freedom [1, 1], the
   * original box (x, y, 0, 0), and both `isNew` and `editLabelEditorAfter` set.
   */
  lemma CreateBoxEntersResize(s: State, p: Pt, freshId: RegionId)
    requires Admissible(s, MouseDown(p), freshId)
    requires HasSelectedImage(s) && s.selectedTool == CreateBox
    ensures var t := Reduce(s, MouseDown(p), freshId);
      && |Selected(t)| == |Selected(s)| + 1
      && Selected(t)[|Selected(s)|]
         == Region(freshId, s.selectedCls, false, None, NewRegionColor(s), false, true, [], Box(p.x, p.y, 0.0, 0.0))
      && t.mode == ResizeBox(freshId, Freedom(1.0, 1.0), Rect(p.x, p.y, 0.0, 0.0), true, true)
  {
    var down := s.(mouseDownAt := Some(p), mode := ResizeBox(freshId, Freedom(1.0, 1.0), Rect(p.x, p.y, 0.0, 0.0), true, true));
    var r := Region(freshId, s.selectedCls, false, None, NewRegionColor(s), false, true, [], Box(p.x, p.y, 0.0, 0.0));
    var out := ClearSelection(Selected(s)) + [r];
    assert Reduce(s, MouseDown(p), freshId) == WithRegions(down, out);
    assert HasSelectedImage(down);
  }

  // ---------------------------------------------------------------------------
  // BEGIN_MOVE_POINT and BEGIN_BOX_TRANSFORM

  /**
   * A box transform with freedom [0, 0] enters MOVE_REGION; any other freedom
   * enters RESIZE_BOX with the box's current geometry as the original and
   * neither `isNew` nor `editLabelEditorAfter`. Either way every region of the
   * selected image stops editing labels, and nothing else changes.
   */
  lemma BeginBoxTransformEntersMode(s: State, box: Region, d: Freedom, freshId: RegionId)
    requires Admissible(s, BeginBoxTransform(box, d), freshId)
    ensures var t := Reduce(s, BeginBoxTransform(box, d), freshId);
      && OtherImagesUnchanged(s, t)
      && |Selected(t)| == |Selected(s)|
      && (forall k :: 0 <= k < |Selected(s)| ==> Selected(t)[k] == Selected(s)[k].(editingLabels := false))
      && (d.x == 0.0 && d.y == 0.0 ==> t.mode == MoveRegion(box.id))
      && (!(d.x == 0.0 && d.y == 0.0) ==>
            box.IsBox() && t.mode == ResizeBox(box.id, d, Rect(box.shape.x, box.shape.y, box.shape.w, box.shape.h), false, false))
      && t.(mode := s.mode, images := s.images) == s
  {
  }

  /** BEGIN_MOVE_POINT enters MOVE_REGION on the point and changes nothing else. */
  lemma BeginMovePointEntersMove(s: State, point: Region, freshId: RegionId)
    ensures Reduce(s, BeginMovePoint(point), freshId) == s.(mode := MoveRegion(point.id))
  {
  }

  // ---------------------------------------------------------------------------
  // MOUSE_MOVE

  /**
   * One resize axis. Freedom 0 keeps the original origin and size; -1 keeps
   * the far edge `o + len` fixed and moves the near edge to the pointer while
   * the pointer stays before the far edge; +1 (and any other value) keeps the
   * origin and puts the far edge at the pointer while the pointer stays after
   * the origin. The size is never negative when the original size is not.
   */
  lemma {:induction false} ResizeAxisMeaning(free: real, o: real, len: real, c: real)
    ensures var (d, sz) := ResizeAxis(free, o, len, c);
      && (free == 0.0 ==> d == o && sz == len)
      && (free == -1.0 ==> d + sz == o + len && d <= o + len && (c <= o + len ==> d == c))
      && (free != 0.0 && free != -1.0 ==> d == o && (c >= o ==> d + sz == c) && (c <= o ==> sz == 0.0))
      && (len >= 0.0 ==> sz >= 0.0)
  {
  }

  /**
   * The freedom update after a resize step: a collapsed height flips y and
   * keeps the ORIGINAL x component (so a collapse of both sides at once loses
   * the x flip); a collapsed width alone flips x; otherwise nothing flips.
   */
  lemma FlipFreedomCases(f: Freedom, dw: real, dh: real)
    ensures dh <= 0.001 ==> FlipFreedom(f, dw, dh) == Freedom(f.x, -f.y)
    ensures dh > 0.001 && dw <= 0.001 ==> FlipFreedom(f, dw, dh) == Freedom(-f.x, f.y)
    ensures dh > 0.001 && dw > 0.001 ==> FlipFreedom(f, dw, dh) == f
  {
  }

  /**
   * A RESIZE_BOX mouse move changes only the regions whose id is the mode's
   * target, and of those only the geometry, which becomes the per-axis resize
   * of the original box; the freedom is updated by `FlipFreedom`. A target box
   * whose original size is non-negative keeps a non-negative size.
   */
  lemma ResizeMoveTouchesOnlyTarget(s: State, p: Pt, freshId: RegionId)
    requires s.mode.ResizeBox? && HasSelectedImage(s)
    ensures var t := Reduce(s, MouseMove(p), freshId);
      var m := s.mode;
      var (dx, dw) := ResizeAxis(m.freedom.x, m.original.x, m.original.w, p.x);
      var (dy, dh) := ResizeAxis(m.freedom.y, m.original.y, m.original.h, p.y);
      && OtherImagesUnchanged(s, t)
      && t.mode == m.(freedom := FlipFreedom(m.freedom, dw, dh))
      && t.(mode := s.mode, images := s.images) == s
      && |Selected(t)| == |Selected(s)|
      && (forall k :: 0 <= k < |Selected(s)| && Selected(s)[k].id != m.regionId ==> Selected(t)[k] == Selected(s)[k])
      && (forall k :: 0 <= k < |Selected(s)| && Selected(s)[k].id == m.regionId ==>
            Selected(t)[k] == Selected(s)[k].(shape := Resized(Selected(s)[k].shape, dx, dy, dw, dh)))
      && (m.original.w >= 0.0 && m.original.h >= 0.0 ==> dw >= 0.0 && dh >= 0.0)
  {
    var m := s.mode;
    var (dx, dw) := ResizeAxis(m.freedom.x, m.original.x, m.original.w, p.x);
    var (dy, dh) := ResizeAxis(m.freedom.y, m.original.y, m.original.h, p.y);
    var flipped := s.(mode := m.(freedom := FlipFreedom(m.freedom, dw, dh)));
    var rs := ReshapeId(Selected(s), m.regionId, sh => Resized(sh, dx, dy, dw, dh));
    assert Reduce(s, MouseMove(p), freshId) == WithRegions(flipped, rs);
    assert HasSelectedImage(flipped) && Selected(flipped) == Selected(s);
    ResizeAxisMeaning(m.freedom.x, m.original.x, m.original.w, p.x);
    ResizeAxisMeaning(m.freedom.y, m.original.y, m.original.h, p.y);
  }

  /**
   * A MOVE_REGION mouse move recentres a target box on the pointer, keeping
   * its size, and puts a target point at the pointer; every other region and
   * the mode stay as they were.
   */
  lemma MoveRegionRecentres(s: State, p: Pt, freshId: RegionId)
    requires s.mode.MoveRegion? && HasSelectedImage(s)
    ensures var t := Reduce(s, MouseMove(p), freshId);
      && OtherImagesUnchanged(s, t)
      && t.(images := s.images) == s
      && |Selected(t)| == |Selected(s)|
      && forall k :: 0 <= k < |Selected(s)| ==>
        var r, r' := Selected(s)[k], Selected(t)[k];
        && r'.(shape := r.shape) == r
        && (r.id != s.mode.regionId ==> r' == r)
        && (r.id == s.mode.regionId && r.IsBox() ==>
              r'.IsBox() && r'.shape.w == r.shape.w && r'.shape.h == r.shape.h
              && r'.shape.x + r'.shape.w / 2.0 == p.x && r'.shape.y + r'.shape.h / 2.0 == p.y)
        && (r.id == s.mode.regionId && r.IsPoint() ==> r'.shape == Point(p.x, p.y))
  {
  }

  /** With no gesture in progress, or no selected image, MOUSE_MOVE is a no-op. */
  lemma MouseMoveIdleIsNoOp(s: State, p: Pt, freshId: RegionId)
    requires s.mode.Idle? || !HasSelectedImage(s)
    ensures Reduce(s, MouseMove(p), freshId) == s
  {
  }

  // ---------------------------------------------------------------------------
  // MOUSE_UP

  /**
   * MOUSE_UP: a no-op when Idle. Otherwise the gesture ends (mode Idle, no
   * press point). A new box released within 0.002 of its start on either axis
   * is removed; otherwise a box created for labelling starts editing its
   * labels; all other regions are untouched.
   */
  lemma MouseUpEndsGesture(s: State, p: Pt, freshId: RegionId)
    ensures var t := Reduce(s, MouseUp(p), freshId);
      && (s.mode.Idle? ==> t == s)
      && (!s.mode.Idle? ==>
            && t.mode.Idle? && t.mouseDownAt.None? && OtherImagesUnchanged(s, t)
            && t.(mode := s.mode, mouseDownAt := s.mouseDownAt, images := s.images) == s)
      && (s.mode.MoveRegion? ==> Selected(t) == Selected(s))
      && (s.mode.ResizeBox? && s.mode.isNew &&
          (Abs(s.mode.original.x - p.x) < 0.002 || Abs(s.mode.original.y - p.y) < 0.002) ==>
            forall r :: r in Selected(t) <==> r in Selected(s) && r.id != s.mode.regionId)
      && (s.mode.ResizeBox? && !IsDegenerateRelease(s.mode, p) && s.mode.editLabelEditorAfter ==>
            |Selected(t)| == |Selected(s)| &&
            forall k :: 0 <= k < |Selected(s)| ==>
              Selected(t)[k] == if Selected(s)[k].id == s.mode.regionId
                                then Selected(s)[k].(editingLabels := true) else Selected(s)[k])
      && (s.mode.ResizeBox? && !IsDegenerateRelease(s.mode, p) && !s.mode.editLabelEditorAfter ==>
            Selected(t) == Selected(s))
  {
    var t := Reduce(s, MouseUp(p), freshId);
    if !s.mode.Idle? {
      var up := s.(mouseDownAt := None);
      assert Selected(up) == Selected(s);
    }
  }

  /**
   * A create-box press released within 0.002 of the press point on either axis
   * adds no region: the selected image ends with its old regions, merely
   * deselected, and the editor is Idle again.
   */
  lemma DegenerateBoxIsDiscarded(s: State, p: Pt, q: Pt, freshId: RegionId)
    requires Admissible(s, MouseDown(p), freshId)
    requires HasSelectedImage(s) && s.selectedTool == CreateBox
    requires Abs(p.x - q.x) < 0.002 || Abs(p.y - q.y) < 0.002
    ensures var t := Reduce(Reduce(s, MouseDown(p), freshId), MouseUp(q), freshId);
      && Selected(t) == ClearSelection(Selected(s))
      && t.mode.Idle? && t.mouseDownAt.None?
  {
    var t1 := Reduce(s, MouseDown(p), freshId);
    CreateBoxEntersResize(s, p, freshId);
    MouseDownClearsAndAppends(s, p, freshId);
    var r := Selected(t1)[|Selected(s)|];
    var cleared := ClearSelection(Selected(s));
    assert Selected(t1) == cleared + [r];
    assert r.id == freshId;
    RemoveLastFresh(cleared, r);
    assert IsDegenerateRelease(t1.mode, q);
    DegenerateReleaseRemoves(t1, q, freshId);
  }

  /** A degenerate release in ResizeBox mode removes the resized region's id and returns to Idle. */
  lemma DegenerateReleaseRemoves(s: State, q: Pt, freshId: RegionId)
    requires HasSelectedImage(s) && s.mode.ResizeBox? && IsDegenerateRelease(s.mode, q)
    ensures var t := Reduce(s, MouseUp(q), freshId);
      && Selected(t) == RemoveId(Selected(s), s.mode.regionId)
      && t.mode.Idle? && t.mouseDownAt.None?
  {
    var up := s.(mouseDownAt := None);
    assert Selected(up) == Selected(s);
    assert MouseUpCase(s, q) == WithRegions(up, RemoveId(Selected(up), s.mode.regionId)).(mode := Idle);
  }

  /** Removing the id of an appended region whose id is fresh restores the list. */
  lemma {:induction false} RemoveLastFresh(rs: seq<Region>, r: Region)
    requires forall k :: 0 <= k < |rs| ==> rs[k].id != r.id
    ensures RemoveId(rs + [r], r.id) == rs
  {
    if rs != [] {
      assert (rs + [r])[1..] == rs[1..] + [r];
      RemoveLastFresh(rs[1..], r);
    }
  }

  // ---------------------------------------------------------------------------
  // DELETE_REGION, CHANGE_REGION, SELECT_IMAGE, HEADER_BUTTON_CLICKED

  /**
   * DELETE_REGION removes from the selected image exactly the regions with the
   * target's id and keeps every other region as often as it occurred; the kept
   * regions stay in order (what is kept before any position comes before what
   * is kept after it), a list without the id is left as it is, and nothing
   * else changes. It is valid in any mode.
   */
  lemma DeleteRegionRemovesTarget(s: State, target: Region, freshId: RegionId)
    ensures var t := Reduce(s, DeleteRegion(target), freshId);
      && OnlySelectedRegionsChanged(s, t)
      && (forall r :: r in Selected(t) <==> r in Selected(s) && r.id != target.id)
      && (forall r :: multiset(Selected(t))[r] == if r.id == target.id then 0 else multiset(Selected(s))[r])
      && (forall k :: 0 <= k <= |Selected(s)| ==>
            Selected(t) == RemoveId(Selected(s)[..k], target.id) + RemoveId(Selected(s)[k..], target.id))
      && ((forall k :: 0 <= k < |Selected(s)| ==> Selected(s)[k].id != target.id) ==> Selected(t) == Selected(s))
  {
    var rs := Selected(s);
    assert Reduce(s, DeleteRegion(target), freshId) == WithRegions(s, RemoveId(rs, target.id));
    if HasSelectedImage(s) {
      RemoveIdCount(rs, target.id);
      RemoveIdSplits(rs, target.id);
    }
  }

  /** Removal from a list is removal from any prefix followed by removal from the rest. */
  lemma RemoveIdSplits(rs: seq<Region>, id: RegionId)
    ensures forall k :: 0 <= k <= |rs| ==> RemoveId(rs, id) == RemoveId(rs[..k], id) + RemoveId(rs[k..], id)
  {
    forall k | 0 <= k <= |rs| ensures RemoveId(rs, id) == RemoveId(rs[..k], id) + RemoveId(rs[k..], id) {
      assert rs == rs[..k] + rs[k..];
      RemoveIdAppend(rs[..k], rs[k..], id);
    }
  }

  /**
   * CHANGE_REGION recolours a region whose class changes. A known new class
   * becomes the selected class, and the stored region takes the palette
   * colour of the class's first index. An unknown new class leaves the
   * selected class as it was, and the colour is that of the still-selected
   * class if it is known, the payload's otherwise; on that branch the stored
   * class and colour can disagree. An unchanged class stores the payload as
   * given. Every region with the id is replaced, every other region is kept.
   */
  lemma ChangeRegionKeepsClassAndColour(s: State, r: Region, freshId: RegionId)
    requires Admissible(s, ChangeRegion(r), freshId)
    ensures var t := Reduce(s, ChangeRegion(r), freshId);
      var prev := FindById(Selected(s), r.id);
      && OtherImagesUnchanged(s, t)
      && |Selected(t)| == |Selected(s)|
      && (forall k :: 0 <= k < |Selected(s)| && Selected(s)[k].id != r.id ==> Selected(t)[k] == Selected(s)[k])
      && (forall k :: 0 <= k < |Selected(s)| && Selected(s)[k].id == r.id ==>
            Selected(t)[k].(color := r.color) == r)
      && (prev.cls == r.cls ==> t == WithRegions(s, ReplaceId(Selected(s), r.id, r)))
      && (prev.cls != r.cls && r.cls.Some? && r.cls.value in s.regionClsList.value ==>
            t.selectedCls == r.cls &&
            forall k :: 0 <= k < |Selected(s)| && Selected(s)[k].id == r.id ==>
              exists i :: 0 <= i < |s.regionClsList.value| && s.regionClsList.value[i] == r.cls.value
                && (forall j :: 0 <= j < i ==> s.regionClsList.value[j] != r.cls.value)
                && Selected(t)[k].color == s.colors[i % |s.colors|])
      && (prev.cls != r.cls && (r.cls.None? || r.cls.value !in s.regionClsList.value) ==>
            t.selectedCls == s.selectedCls &&
            var i := IndexOf(s.regionClsList.value, s.selectedCls);
            forall k :: 0 <= k < |Selected(s)| && Selected(s)[k].id == r.id ==>
              Selected(t)[k].color == if i != -1 then s.colors[i % |s.colors|] else r.color)
  {
    assert Reduce(s, ChangeRegion(r), freshId) == ChangeRegionCase(s, r);
    ChangeRegionCaseEdits(s, r);
    if FindById(Selected(s), r.id).cls != r.cls {
      ChangeRegionCaseRecolours(s, r);
    }
  }

  /** The list edit of CHANGE_REGION: the regions with the id become r, up to colour. */
  lemma ChangeRegionCaseEdits(s: State, r: Region)
    requires ChangeRegionReady(s, r)
    ensures var t := ChangeRegionCase(s, r);
      && OtherImagesUnchanged(s, t)
      && |Selected(t)| == |Selected(s)|
      && (forall k :: 0 <= k < |Selected(s)| && Selected(s)[k].id != r.id ==> Selected(t)[k] == Selected(s)[k])
      && (forall k :: 0 <= k < |Selected(s)| && Selected(s)[k].id == r.id ==>
            Selected(t)[k].(color := r.color) == r)
  {
    var prev := FindById(Selected(s), r.id);
    if prev.cls != r.cls {
      var cls := ClassAfterChange(s, r.cls);
      var s' := s.(selectedCls := cls);
      assert Selected(s') == Selected(s);
    }
  }

  /** The colour rule of CHANGE_REGION when the class changes. */
  lemma ChangeRegionCaseRecolours(s: State, r: Region)
    requires ChangeRegionReady(s, r) && FindById(Selected(s), r.id).cls != r.cls
    ensures var t := ChangeRegionCase(s, r);
      && (r.cls.Some? && r.cls.value in s.regionClsList.value ==>
            t.selectedCls == r.cls &&
            forall k :: 0 <= k < |Selected(s)| && Selected(s)[k].id == r.id ==>
              exists i :: 0 <= i < |s.regionClsList.value| && s.regionClsList.value[i] == r.cls.value
                && (forall j :: 0 <= j < i ==> s.regionClsList.value[j] != r.cls.value)
                && Selected(t)[k].color == s.colors[i % |s.colors|])
      && (r.cls.None? || r.cls.value !in s.regionClsList.value ==>
            t.selectedCls == s.selectedCls &&
            var i := IndexOf(s.regionClsList.value, s.selectedCls);
            forall k :: 0 <= k < |Selected(s)| && Selected(s)[k].id == r.id ==>
              Selected(t)[k].color == if i != -1 then s.colors[i % |s.colors|] else r.color)
  {
    var cls := ClassAfterChange(s, r.cls);
    var s' := s.(selectedCls := cls);
    assert Selected(s') == Selected(s);
    var i := IndexOf(s.regionClsList.value, cls);
    var r' := if i != -1 then r.(color := s.colors[i % |s.colors|]) else r;
    assert ChangeRegionCase(s, r) == WithRegions(s', ReplaceId(Selected(s'), r.id, r'));
  }

  /** SELECT_TOOL only switches the tool; the mode and every region are kept. */
  lemma SelectToolKeepsMode(s: State, tool: Tool, freshId: RegionId)
    ensures Reduce(s, SelectTool(tool), freshId) == s.(selectedTool := tool)
  {
  }

  /**
   * IMAGE_LOADED records the natural size as the selected image's pixel size;
   * its regions, every other image and every other state field are kept.
   */
  lemma ImageLoadedRecordsSize(s: State, md: Metadata, freshId: RegionId)
    ensures var t := Reduce(s, ImageLoaded(md), freshId);
      && OtherImagesUnchanged(s, t) && t.(images := s.images) == s
      && (HasSelectedImage(s) ==>
            && t.images[s.selectedImage.value].pixelSize == Some(Size(md.naturalWidth, md.naturalHeight))
            && t.images[s.selectedImage.value].(pixelSize := s.images[s.selectedImage.value].pixelSize)
               == s.images[s.selectedImage.value])
      && (!HasSelectedImage(s) ==> t == s)
  {
  }

  /** SELECT_IMAGE only switches the selected image; the mode is kept. */
  lemma SelectImageKeepsMode(s: State, i: int, freshId: RegionId)
    ensures Reduce(s, SelectImage(i), freshId) == s.(selectedImage := Some(i))
  {
  }

  /**
   * Image navigation: "previous" at the first image and "next" at the last are
   * no-ops; otherwise they step by one. From a valid index the selected index
   * stays valid.
   */
  lemma HeaderNavigationClamps(s: State, name: string, freshId: RegionId)
    requires HasSelectedImage(s)
    ensures var t := Reduce(s, HeaderButtonClicked(name), freshId);
      && HasSelectedImage(t)
      && t.(selectedImage := s.selectedImage) == s
      && (name == "previous" ==>
            t.selectedImage.value == if s.selectedImage.value == 0 then 0 else s.selectedImage.value - 1)
      && (name == "next" ==>
            t.selectedImage.value == if s.selectedImage.value == |s.images| - 1
                                     then s.selectedImage.value else s.selectedImage.value + 1)
      && (name != "previous" && name != "next" ==> t == s)
  {
  }

  /**
   * `t` has as many images as `s`, each with the same source and name, and
   * the same class list and palette.
   */
  predicate SameConfiguration(s: State, t: State)
  {
    && |t.images| == |s.images|
    && t.regionClsList == s.regionClsList && t.colors == s.colors
    && forall j :: 0 <= j < |s.images| ==> t.images[j].src == s.images[j].src && t.images[j].name == s.images[j].name
  }

  lemma WithRegionsSameConfiguration(s: State, rs: seq<Region>)
    ensures SameConfiguration(s, WithRegions(s, rs))
  {
  }

  /**
   * No action adds or removes an image, renames one or changes its source, and
   * none changes the class list or the palette.
   */
  lemma ReduceKeepsConfiguration(s: State, a: Action, freshId: RegionId)
    requires Admissible(s, a, freshId)
    ensures SameConfiguration(s, Reduce(s, a, freshId))
  {
    var rs := Selected(s);
    match a
    case SelectTool(_) =>
    case ImageLoaded(_) =>
    case BeginMovePoint(_) =>
    case SelectImage(_) =>
    case HeaderButtonClicked(name) =>
      assert Reduce(s, a, freshId) == HeaderCase(s, name);
    case BeginBoxTransform(box, d) =>
      WithRegionsSameConfiguration(s, ClearEditing(rs));
    case MouseDown(p) =>
      assert Reduce(s, a, freshId) == MouseDownCase(s, p, freshId);
      MouseDownSameConfiguration(s, p, freshId);
    case MouseMove(p) =>
      assert Reduce(s, a, freshId) == MouseMoveCase(s, p);
      MouseMoveSameConfiguration(s, p);
    case MouseUp(p) =>
      assert Reduce(s, a, freshId) == MouseUpCase(s, p);
      MouseUpSameConfiguration(s, p);
    case DeleteRegion(r) =>
      WithRegionsSameConfiguration(s, RemoveId(rs, r.id));
    case ChangeRegion(r) =>
      assert Reduce(s, a, freshId) == ChangeRegionCase(s, r);
      ChangeRegionSameConfiguration(s, r);
    case SelectRegion(r) =>
      WithRegionsSameConfiguration(s, SelectOnly(rs, r.id));
  }

  lemma MouseDownSameConfiguration(s: State, p: Pt, freshId: RegionId)
    requires MouseDownReady(s)
    ensures SameConfiguration(s, MouseDownCase(s, p, freshId))
  {
    if HasSelectedImage(s) {
      var down := s.(mouseDownAt := Some(p));
      var cleared := ClearSelection(Selected(s));
      WithRegionsSameConfiguration(down, cleared);
      match NewRegion(s, p, freshId)
      case None =>
      case Some(r) =>
        WithRegionsSameConfiguration(down, cleared + [r]);
        WithRegionsSameConfiguration(down.(mode := ResizeBox(freshId, Freedom(1.0, 1.0), Rect(p.x, p.y, 0.0, 0.0), true, true)), cleared + [r]);
    }
  }

  lemma MouseMoveSameConfiguration(s: State, p: Pt)
    ensures SameConfiguration(s, MouseMoveCase(s, p))
  {
    if !s.mode.Idle? && HasSelectedImage(s) {
      if s.mode.ResizeBox? {
        var m := s.mode;
        var (dx, dw) := ResizeAxis(m.freedom.x, m.original.x, m.original.w, p.x);
        var (dy, dh) := ResizeAxis(m.freedom.y, m.original.y, m.original.h, p.y);
        var flipped := s.(mode := m.(freedom := FlipFreedom(m.freedom, dw, dh)));
        var out := ReshapeId(Selected(s), m.regionId, sh => Resized(sh, dx, dy, dw, dh));
        assert ResizeCase(s, p) == WithRegions(flipped, out);
        WithRegionsSameConfiguration(flipped, out);
      } else {
        WithRegionsSameConfiguration(s, ReshapeId(Selected(s), s.mode.regionId, sh => Moved(sh, p)));
      }
    }
  }

  lemma MouseUpSameConfiguration(s: State, p: Pt)
    ensures SameConfiguration(s, MouseUpCase(s, p))
  {
    if !s.mode.Idle? {
      var up := s.(mouseDownAt := None);
      WithRegionsSameConfiguration(up, RemoveId(Selected(up), s.mode.regionId));
      WithRegionsSameConfiguration(up, SetEditing(Selected(up), s.mode.regionId));
    }
  }

  lemma ChangeRegionSameConfiguration(s: State, r: Region)
    requires ChangeRegionReady(s, r)
    ensures SameConfiguration(s, ChangeRegionCase(s, r))
  {
    var prev := FindById(Selected(s), r.id);
    if prev.cls != r.cls {
      var cls := ClassAfterChange(s, r.cls);
      var i := IndexOf(s.regionClsList.value, cls);
      var r' := if i != -1 then r.(color := s.colors[i % |s.colors|]) else r;
      var s' := s.(selectedCls := cls);
      assert ChangeRegionCase(s, r) == WithRegions(s', ReplaceId(Selected(s'), r.id, r'));
      WithRegionsSameConfiguration(s', ReplaceId(Selected(s'), r.id, r'));
    } else {
      WithRegionsSameConfiguration(s, ReplaceId(Selected(s), r.id, r));
    }
  }

  // ---------------------------------------------------------------------------
  // Invariants kept by every action

  /**
   * The editor invariant: in every image, boxes have non-negative sizes,
   * region ids are unique and at most one region is highlighted; a resize in
   * progress starts from a non-negative box.
   */
  predicate Inv(s: State)
  {
    && (forall j :: 0 <= j < |s.images| ==>
          && BoxesNonNegative(s.images[j].regions)
          && UniqueIds(s.images[j].regions)
          && AtMostOneHighlighted(s.images[j].regions))
    && (s.mode.ResizeBox? ==> s.mode.original.w >= 0.0 && s.mode.original.h >= 0.0)
  }

  /** Every region of the list with id `id` is highlighted. */
  predicate HighlightedWithId(rs: seq<Region>, id: RegionId)
  {
    forall k :: 0 <= k < |rs| && rs[k].id == id ==> rs[k].highlighted
  }

  /**
   * Regions an action brings in from outside keep the invariant too: they have
   * non-negative sizes, and a CHANGE_REGION payload is highlighted only if the
   * region it replaces is (the label editor sends the edited region back with
   * its flags as they were).
   */
  predicate ActionRegionsOk(s: State, a: Action)
  {
    match a
    case ChangeRegion(r) => SizeNonNegative(r.shape) && (r.highlighted ==> HighlightedWithId(Selected(s), r.id))
    case BeginBoxTransform(box, _) => SizeNonNegative(box.shape)
    case _ => true
  }

  /** A list edit that keeps ids and highlights position by position keeps both invariants. */
  lemma SameIdsStayUnique(rs: seq<Region>, out: seq<Region>)
    requires |out| == |rs| && UniqueIds(rs) && AtMostOneHighlighted(rs)
    requires forall k :: 0 <= k < |rs| ==> out[k].id == rs[k].id && out[k].highlighted == rs[k].highlighted
    ensures UniqueIds(out) && AtMostOneHighlighted(out)
  {
  }

  /** Removing regions keeps ids unique, at most one region highlighted and sizes non-negative. */
  lemma {:induction false} RemoveIdKeepsInv(rs: seq<Region>, id: RegionId)
    requires UniqueIds(rs) && BoxesNonNegative(rs) && AtMostOneHighlighted(rs)
    ensures UniqueIds(RemoveId(rs, id)) && BoxesNonNegative(RemoveId(rs, id))
    ensures AtMostOneHighlighted(RemoveId(rs, id))
  {
    if rs != [] {
      RemoveIdKeepsInv(rs[1..], id);
      var tail := RemoveId(rs[1..], id);
      if rs[0].id != id {
        assert RemoveId(rs, id) == [rs[0]] + tail;
        forall k | 0 <= k < |tail| ensures rs[0].id != tail[k].id && (rs[0].highlighted ==> !tail[k].highlighted) {
          assert tail[k] in rs[1..];
          var j :| 0 <= j < |rs[1..]| && rs[1..][j] == tail[k];
          assert rs[j + 1] == tail[k];
        }
      }
    }
  }

  /** The invariant holds of a state whose only change is the selected image's regions. */
  lemma WithRegionsKeepsInv(s: State, rs: seq<Region>)
    requires Inv(s) && BoxesNonNegative(rs) && UniqueIds(rs) && AtMostOneHighlighted(rs)
    ensures Inv(WithRegions(s, rs))
  {
  }

  lemma MouseDownKeepsInv(s: State, p: Pt, freshId: RegionId)
    requires Inv(s) && Admissible(s, MouseDown(p), freshId)
    ensures Inv(Reduce(s, MouseDown(p), freshId))
  {
    if HasSelectedImage(s) {
      var rs := Selected(s);
      var down := s.(mouseDownAt := Some(p));
      var cleared := ClearSelection(rs);
      assert UniqueIds(cleared) && AtMostOneHighlighted(cleared);
      match NewRegion(s, p, freshId)
      case None =>
        WithRegionsKeepsInv(down, cleared);
      case Some(r) =>
        var out := cleared + [r];
        assert UniqueIds(out);
        assert AtMostOneHighlighted(out) by {
          forall i | 0 <= i < |cleared| ensures !out[i].highlighted {
            assert out[i] == cleared[i];
          }
        }
        if s.selectedTool == CreateBox {
          WithRegionsKeepsInv(down.(mode := ResizeBox(freshId, Freedom(1.0, 1.0), Rect(p.x, p.y, 0.0, 0.0), true, true)), out);
        } else {
          WithRegionsKeepsInv(down, out);
        }
    }
  }

  lemma MouseMoveKeepsInv(s: State, p: Pt, freshId: RegionId)
    requires Inv(s)
    ensures Inv(Reduce(s, MouseMove(p), freshId))
  {
    if !s.mode.Idle? && HasSelectedImage(s) {
      if s.mode.ResizeBox? {
        assert Reduce(s, MouseMove(p), freshId) == ResizeCase(s, p);
        ResizeKeepsInv(s, p);
      } else {
        assert Reduce(s, MouseMove(p), freshId) == MoveCase(s, p);
        MoveKeepsInv(s, p);
      }
    }
  }

  /** A resize step gives the target a non-negative size when the original box had one. */
  lemma ResizeKeepsInv(s: State, p: Pt)
    requires Inv(s) && s.mode.ResizeBox? && HasSelectedImage(s)
    ensures Inv(ResizeCase(s, p))
  {
    var m := s.mode;
    var (dx, dw) := ResizeAxis(m.freedom.x, m.original.x, m.original.w, p.x);
    var (dy, dh) := ResizeAxis(m.freedom.y, m.original.y, m.original.h, p.y);
    ResizeAxisMeaning(m.freedom.x, m.original.x, m.original.w, p.x);
    ResizeAxisMeaning(m.freedom.y, m.original.y, m.original.h, p.y);
    var rs := Selected(s);
    var flipped := s.(mode := m.(freedom := FlipFreedom(m.freedom, dw, dh)));
    var out := ReshapeId(rs, m.regionId, sh => Resized(sh, dx, dy, dw, dh));
    assert ResizeCase(s, p) == WithRegions(flipped, out);
    forall k | 0 <= k < |out| ensures SizeNonNegative(out[k].shape) {
      assert SizeNonNegative(rs[k].shape);
    }
    SameIdsStayUnique(rs, out);
    assert Inv(flipped);
    WithRegionsKeepsInv(flipped, out);
  }

  /** A move step keeps every size. */
  lemma MoveKeepsInv(s: State, p: Pt)
    requires Inv(s) && s.mode.MoveRegion? && HasSelectedImage(s)
    ensures Inv(MoveCase(s, p))
  {
    var rs := Selected(s);
    var out := ReshapeId(rs, s.mode.regionId, sh => Moved(sh, p));
    assert MoveCase(s, p) == WithRegions(s, out);
    forall k | 0 <= k < |out| ensures SizeNonNegative(out[k].shape) {
      assert SizeNonNegative(rs[k].shape);
    }
    SameIdsStayUnique(rs, out);
    WithRegionsKeepsInv(s, out);
  }

  lemma MouseUpKeepsInv(s: State, p: Pt, freshId: RegionId)
    requires Inv(s)
    ensures Inv(Reduce(s, MouseUp(p), freshId))
  {
    if !s.mode.Idle? {
      var rs := Selected(s);
      var up := s.(mouseDownAt := None);
      assert Selected(up) == rs;
      if s.mode.ResizeBox? {
        RemoveIdKeepsInv(rs, s.mode.regionId);
        WithRegionsKeepsInv(up.(mode := Idle), RemoveId(rs, s.mode.regionId));
        SameIdsStayUnique(rs, SetEditing(rs, s.mode.regionId));
        WithRegionsKeepsInv(up.(mode := Idle), SetEditing(rs, s.mode.regionId));
      }
    }
  }

  lemma ChangeRegionKeepsInv(s: State, r: Region, freshId: RegionId)
    requires Inv(s) && Admissible(s, ChangeRegion(r), freshId) && ActionRegionsOk(s, ChangeRegion(r))
    ensures Inv(Reduce(s, ChangeRegion(r), freshId))
  {
    assert Reduce(s, ChangeRegion(r), freshId) == ChangeRegionCase(s, r);
    var prev := FindById(Selected(s), r.id);
    if prev.cls != r.cls {
      var cls := ClassAfterChange(s, r.cls);
      var i := IndexOf(s.regionClsList.value, cls);
      var r' := if i != -1 then r.(color := s.colors[i % |s.colors|]) else r;
      var s' := s.(selectedCls := cls);
      assert ChangeRegionCase(s, r) == WithRegions(s', ReplaceId(Selected(s'), r.id, r'));
      ReplaceKeepsInv(s', r');
    } else {
      ReplaceKeepsInv(s, r);
    }
  }

  /**
   * Replacing the regions with a given id by one region of that id, with a
   * non-negative size and highlighted only where they were, keeps the invariant.
   */
  lemma ReplaceKeepsInv(s: State, r: Region)
    requires Inv(s) && SizeNonNegative(r.shape) && (r.highlighted ==> HighlightedWithId(Selected(s), r.id))
    ensures Inv(WithRegions(s, ReplaceId(Selected(s), r.id, r)))
  {
    var rs := Selected(s);
    var out := ReplaceId(rs, r.id, r);
    forall k | 0 <= k < |out| ensures SizeNonNegative(out[k].shape) {
      assert SizeNonNegative(rs[k].shape);
    }
    forall k | 0 <= k < |out| ensures out[k].id == rs[k].id && (out[k].highlighted ==> rs[k].highlighted) {
    }
    assert UniqueIds(out);
    assert AtMostOneHighlighted(out) by {
      forall i, j | 0 <= i < j < |out| && out[i].highlighted ensures !out[j].highlighted {
        assert rs[i].highlighted;
      }
    }
    WithRegionsKeepsInv(s, out);
  }

  /**
   * Every admissible action whose incoming regions satisfy `ActionRegionsOk`
   * keeps the editor invariant: no box ever gets a negative width or height,
   * ids stay unique in every image, and at most one region of an image is
   * highlighted.
   */
  lemma ReducePreservesInv(s: State, a: Action, freshId: RegionId)
    requires Inv(s) && Admissible(s, a, freshId) && ActionRegionsOk(s, a)
    ensures Inv(Reduce(s, a, freshId))
  {
    var rs := Selected(s);
    match a
    case SelectTool(_) =>
    case ImageLoaded(md) =>
    case BeginMovePoint(_) =>
    case SelectImage(_) =>
    case HeaderButtonClicked(_) =>
    case BeginBoxTransform(box, d) =>
      SameIdsStayUnique(rs, ClearEditing(rs));
      WithRegionsKeepsInv(s, ClearEditing(rs));
    case MouseDown(p) => MouseDownKeepsInv(s, p, freshId);
    case MouseMove(p) => MouseMoveKeepsInv(s, p, freshId);
    case MouseUp(p) => MouseUpKeepsInv(s, p, freshId);
    case DeleteRegion(r) =>
      RemoveIdKeepsInv(rs, r.id);
      WithRegionsKeepsInv(s, RemoveId(rs, r.id));
    case ChangeRegion(r) => ChangeRegionKeepsInv(s, r, freshId);
    case SelectRegion(r) =>
      SelectOnlyKeepsInv(rs, r.id);
      WithRegionsKeepsInv(s, SelectOnly(rs, r.id));
  }

  /** Selecting by id in a list of unique ids highlights at most one region. */
  lemma SelectOnlyKeepsInv(rs: seq<Region>, id: RegionId)
    requires UniqueIds(rs) && BoxesNonNegative(rs)
    ensures UniqueIds(SelectOnly(rs, id)) && BoxesNonNegative(SelectOnly(rs, id))
    ensures AtMostOneHighlighted(SelectOnly(rs, id))
  {
    var out := SelectOnly(rs, id);
    forall k | 0 <= k < |out| ensures SizeNonNegative(out[k].shape) {
      assert SizeNonNegative(rs[k].shape);
    }
  }

  // ---------------------------------------------------------------------------
  // Worked scenarios

  /** One image with no regions, selected, with the class list ["cat", "not-cat"] and palette ["c0", "c1"]. */
  function ScenarioStart(tool: Tool): State
  {
    State(None, tool, Some("cat"), Idle, Some(["cat", "not-cat"]), Some(0),
          [AnnotationImage("a.png", "a", [], None)], ["c0", "c1"])
  }

  /**
   * Create a point with class "cat" at (0.4, 0.4): it gets colour c0 and is
   * highlighted and editing labels. Relabelling it "not-cat" recolours it c1
   * and makes "not-cat" the selected class.
   */
  lemma ScenarioCreateAndLabelPoint()
    ensures var t1 := Reduce(ScenarioStart(CreatePoint), MouseDown(Pt(0.4, 0.4)), "r1");
      && Selected(t1) == [Region("r1", Some("cat"), false, None, "c0", true, true, [], Point(0.4, 0.4))]
      && t1.mode.Idle?
      && var t2 := Reduce(t1, ChangeRegion(Selected(t1)[0].(cls := Some("not-cat"))), "r2");
      && Selected(t2) == [Region("r1", Some("not-cat"), false, None, "c1", true, true, [], Point(0.4, 0.4))]
      && t2.selectedCls == Some("not-cat")
  {
    ScenarioPointCreated();
    ScenarioPointRelabelled(Reduce(ScenarioStart(CreatePoint), MouseDown(Pt(0.4, 0.4)), "r1"));
  }

  /** The first step of `ScenarioCreateAndLabelPoint`: the point is created. */
  lemma ScenarioPointCreated()
    ensures var t1 := Reduce(ScenarioStart(CreatePoint), MouseDown(Pt(0.4, 0.4)), "r1");
      && HasSelectedImage(t1) && t1.mode.Idle?
      && Selected(t1) == [Region("r1", Some("cat"), false, None, "c0", true, true, [], Point(0.4, 0.4))]
      && t1.regionClsList == Some(["cat", "not-cat"]) && t1.colors == ["c0", "c1"]
  {
    var s := ScenarioStart(CreatePoint);
    assert IndexOf(ClassList(s), s.selectedCls) == 0;
    assert NewRegionColor(s) == "c0";
    CreatePointAppendsPoint(s, Pt(0.4, 0.4), "r1");
    MouseDownClearsAndAppends(s, Pt(0.4, 0.4), "r1");
  }

  /** The second step of `ScenarioCreateAndLabelPoint`: the point is relabelled. */
  lemma ScenarioPointRelabelled(t1: State)
    requires HasSelectedImage(t1)
    requires Selected(t1) == [Region("r1", Some("cat"), false, None, "c0", true, true, [], Point(0.4, 0.4))]
    requires t1.regionClsList == Some(["cat", "not-cat"]) && t1.colors == ["c0", "c1"]
    ensures Admissible(t1, ChangeRegion(Selected(t1)[0].(cls := Some("not-cat"))), "r2")
    ensures var t2 := Reduce(t1, ChangeRegion(Selected(t1)[0].(cls := Some("not-cat"))), "r2");
      && Selected(t2) == [Region("r1", Some("not-cat"), false, None, "c1", true, true, [], Point(0.4, 0.4))]
      && t2.selectedCls == Some("not-cat")
  {
    var p := Selected(t1)[0];
    var r := p.(cls := Some("not-cat"));
    assert FindById(Selected(t1), "r1") == p;
    assert IndexOf(["cat", "not-cat"], Some("not-cat")) == 1;
    assert ClassAfterChange(t1, r.cls) == Some("not-cat");
    var t1' := t1.(selectedCls := Some("not-cat"));
    assert Selected(t1') == [p];
    assert ReplaceId([p], "r1", r.(color := "c1")) == [r.(color := "c1")];
    assert ChangeRegionCase(t1, r) == WithRegions(t1', ReplaceId([p], "r1", r.(color := "c1")));
  }

  /**
   * Draw a box from (0.2, 0.2) to (0.5, 0.5) and release: it is the box
   * (0.2, 0.2, 0.3, 0.3), editing labels. Moving it to (0.6, 0.6) recentres it
   * at (0.45, 0.45) with the same size.
   */
  lemma ScenarioBoxResizeThenMove()
    ensures var t1 := Reduce(ScenarioStart(CreateBox), MouseDown(Pt(0.2, 0.2)), "b1");
      && Admissible(t1, MouseMove(Pt(0.5, 0.5)), "x")
      && var t2 := Reduce(t1, MouseMove(Pt(0.5, 0.5)), "x");
      && var t3 := Reduce(t2, MouseUp(Pt(0.5, 0.5)), "x");
      && |Selected(t3)| == 1 && Selected(t3)[0].shape == Box(0.2, 0.2, 0.3, 0.3)
      && Selected(t3)[0].editingLabels && t3.mode.Idle?
      && Admissible(t3, BeginBoxTransform(Selected(t3)[0], Freedom(0.0, 0.0)), "x")
      && var t4 := Reduce(t3, BeginBoxTransform(Selected(t3)[0], Freedom(0.0, 0.0)), "x");
      && t4.mode == MoveRegion("b1")
      && var t5 := Reduce(t4, MouseMove(Pt(0.6, 0.6)), "x");
      && |Selected(t5)| == 1 && Selected(t5)[0].shape == Box(0.45, 0.45, 0.3, 0.3)
  {
    var t1 := Reduce(ScenarioStart(CreateBox), MouseDown(Pt(0.2, 0.2)), "b1");
    ScenarioBoxPressed();
    var t2 := Reduce(t1, MouseMove(Pt(0.5, 0.5)), "x");
    ScenarioBoxDragged(t1);
    var t3 := Reduce(t2, MouseUp(Pt(0.5, 0.5)), "x");
    ScenarioBoxReleased(t2);
    ScenarioBoxMoved(t3);
  }

  /** The box of `ScenarioBoxResizeThenMove` right after the press. */
  function ScenarioBox(): Region
  {
    Region("b1", Some("cat"), false, None, "c0", false, true, [], Box(0.2, 0.2, 0.0, 0.0))
  }

  /** The press of `ScenarioBoxResizeThenMove` creates the box and enters RESIZE_BOX. */
  lemma ScenarioBoxPressed()
    ensures var t1 := Reduce(ScenarioStart(CreateBox), MouseDown(Pt(0.2, 0.2)), "b1");
      && HasSelectedImage(t1) && Selected(t1) == [ScenarioBox()]
      && t1.mode == ResizeBox("b1", Freedom(1.0, 1.0), Rect(0.2, 0.2, 0.0, 0.0), true, true)
  {
    var s := ScenarioStart(CreateBox);
    assert NewRegionColor(s) == "c0";
    CreateBoxEntersResize(s, Pt(0.2, 0.2), "b1");
    MouseDownClearsAndAppends(s, Pt(0.2, 0.2), "b1");
  }

  /** The drag of `ScenarioBoxResizeThenMove` grows the box to 0.3 by 0.3. */
  lemma ScenarioBoxDragged(t1: State)
    requires HasSelectedImage(t1) && Selected(t1) == [ScenarioBox()]
    requires t1.mode == ResizeBox("b1", Freedom(1.0, 1.0), Rect(0.2, 0.2, 0.0, 0.0), true, true)
    ensures var t2 := Reduce(t1, MouseMove(Pt(0.5, 0.5)), "x");
      && HasSelectedImage(t2) && Selected(t2) == [ScenarioBox().(shape := Box(0.2, 0.2, 0.3, 0.3))]
      && t2.mode == t1.mode
  {
    ResizeMoveTouchesOnlyTarget(t1, Pt(0.5, 0.5), "x");
    assert ResizeAxis(1.0, 0.2, 0.0, 0.5) == (0.2, 0.3);
    var t2 := Reduce(t1, MouseMove(Pt(0.5, 0.5)), "x");
    assert |Selected(t2)| == 1;
  }

  /** The release of `ScenarioBoxResizeThenMove` keeps the box and starts label editing. */
  lemma ScenarioBoxReleased(t2: State)
    requires HasSelectedImage(t2) && Selected(t2) == [ScenarioBox().(shape := Box(0.2, 0.2, 0.3, 0.3))]
    requires t2.mode == ResizeBox("b1", Freedom(1.0, 1.0), Rect(0.2, 0.2, 0.0, 0.0), true, true)
    ensures var t3 := Reduce(t2, MouseUp(Pt(0.5, 0.5)), "x");
      && HasSelectedImage(t3) && t3.mode.Idle?
      && Selected(t3) == [ScenarioBox().(shape := Box(0.2, 0.2, 0.3, 0.3), editingLabels := true)]
  {
    MouseUpEndsGesture(t2, Pt(0.5, 0.5), "x");
    assert !IsDegenerateRelease(t2.mode, Pt(0.5, 0.5));
    var t3 := Reduce(t2, MouseUp(Pt(0.5, 0.5)), "x");
    assert |Selected(t3)| == 1;
  }

  /** The move of `ScenarioBoxResizeThenMove` recentres the box on (0.6, 0.6). */
  lemma ScenarioBoxMoved(t3: State)
    requires HasSelectedImage(t3) && t3.mode.Idle?
    requires Selected(t3) == [ScenarioBox().(shape := Box(0.2, 0.2, 0.3, 0.3), editingLabels := true)]
    ensures Admissible(t3, BeginBoxTransform(Selected(t3)[0], Freedom(0.0, 0.0)), "x")
    ensures var t4 := Reduce(t3, BeginBoxTransform(Selected(t3)[0], Freedom(0.0, 0.0)), "x");
      && t4.mode == MoveRegion("b1")
      && var t5 := Reduce(t4, MouseMove(Pt(0.6, 0.6)), "x");
      && |Selected(t5)| == 1 && Selected(t5)[0].shape == Box(0.45, 0.45, 0.3, 0.3)
  {
    var b3 := Selected(t3)[0];
    BeginBoxTransformEntersMode(t3, b3, Freedom(0.0, 0.0), "x");
    var t4 := Reduce(t3, BeginBoxTransform(b3, Freedom(0.0, 0.0)), "x");
    assert HasSelectedImage(t4);
    MoveRegionRecentres(t4, Pt(0.6, 0.6), "x");
  }

  /**
   * A press and release 0.0004 apart with the create-box tool adds no region
   * and returns to Idle.
   */
  lemma ScenarioDegenerateBox()
    ensures var t := Reduce(Reduce(ScenarioStart(CreateBox), MouseDown(Pt(0.3, 0.3)), "b1"),
                            MouseUp(Pt(0.3004, 0.3004)), "x");
      && Selected(t) == [] && t.mode.Idle?
  {
    DegenerateBoxIsDiscarded(ScenarioStart(CreateBox), Pt(0.3, 0.3), Pt(0.3004, 0.3004), "b1");
  }

  /**
   * Resizing a box of width 0.2 at x = 0.5 by its left edge (freedom -1) to
   * x = 0.45 and then x = 0.55 gives widths 0.25 and 0.15: the far edge 0.7
   * stays fixed and the width never reaches zero, so the freedom never flips.
   */
  lemma ScenarioLeftEdgeResize()
    ensures var s := ScenarioStart(Select).(
              images := [AnnotationImage("a.png", "a",
                [Region("b", None, false, None, "c0", false, false, [], Box(0.5, 0.5, 0.2, 0.1))], None)],
              mode := ResizeBox("b", Freedom(-1.0, 0.0), Rect(0.5, 0.5, 0.2, 0.1), false, false));
      && var t1 := Reduce(s, MouseMove(Pt(0.45, 0.5)), "x");
      && Selected(t1)[0].shape == Box(0.45, 0.5, 0.25, 0.1) && t1.mode.freedom == Freedom(-1.0, 0.0)
      && var t2 := Reduce(t1, MouseMove(Pt(0.55, 0.5)), "x");
      && Selected(t2)[0].shape == Box(0.55, 0.5, 0.15, 0.1) && t2.mode.freedom == Freedom(-1.0, 0.0)
  {
    var s := ScenarioStart(Select).(
      images := [AnnotationImage("a.png", "a",
        [Region("b", None, false, None, "c0", false, false, [], Box(0.5, 0.5, 0.2, 0.1))], None)],
      mode := ResizeBox("b", Freedom(-1.0, 0.0), Rect(0.5, 0.5, 0.2, 0.1), false, false));
    ResizeMoveTouchesOnlyTarget(s, Pt(0.45, 0.5), "x");
    var t1 := Reduce(s, MouseMove(Pt(0.45, 0.5)), "x");
    ResizeMoveTouchesOnlyTarget(t1, Pt(0.55, 0.5), "x");
  }

  /**
   * Dragging the right edge (freedom +1) of a box at x = 0.5, width 0.2, to
   * x = 0.45 collapses the width to 0 and flips the x freedom to -1. Because
   * the original box is not updated, the next move to x = 0.4 resizes from the
   * original far edge 0.7, giving the box (0.4, 0.3).
   */
  lemma ScenarioDragThroughZero()
    ensures var s := ScenarioStart(Select).(
              images := [AnnotationImage("a.png", "a",
                [Region("b", None, false, None, "c0", false, false, [], Box(0.5, 0.5, 0.2, 0.1))], None)],
              mode := ResizeBox("b", Freedom(1.0, 0.0), Rect(0.5, 0.5, 0.2, 0.1), false, false));
      && var t1 := Reduce(s, MouseMove(Pt(0.45, 0.5)), "x");
      && Selected(t1)[0].shape == Box(0.5, 0.5, 0.0, 0.1) && t1.mode.freedom == Freedom(-1.0, 0.0)
      && var t2 := Reduce(t1, MouseMove(Pt(0.4, 0.5)), "x");
      && Selected(t2)[0].shape == Box(0.4, 0.5, 0.3, 0.1) && t2.mode.freedom == Freedom(-1.0, 0.0)
  {
    var s := ScenarioStart(Select).(
      images := [AnnotationImage("a.png", "a",
        [Region("b", None, false, None, "c0", false, false, [], Box(0.5, 0.5, 0.2, 0.1))], None)],
      mode := ResizeBox("b", Freedom(1.0, 0.0), Rect(0.5, 0.5, 0.2, 0.1), false, false));
    ResizeMoveTouchesOnlyTarget(s, Pt(0.45, 0.5), "x");
    var t1 := Reduce(s, MouseMove(Pt(0.45, 0.5)), "x");
    ResizeMoveTouchesOnlyTarget(t1, Pt(0.4, 0.5), "x");
  }

  /** With three images, "previous" at index 0 and "next" at index 2 are no-ops. */
  lemma ScenarioNavigationClamps()
    ensures var s := ScenarioStart(Select).(images := [
              AnnotationImage("a.png", "a", [], None), AnnotationImage("b.png", "b", [], None),
              AnnotationImage("c.png", "c", [], None)]);
      && Reduce(s, HeaderButtonClicked("previous"), "x") == s
      && Reduce(s.(selectedImage := Some(2)), HeaderButtonClicked("next"), "x") == s.(selectedImage := Some(2))
      && Reduce(s, HeaderButtonClicked("next"), "x") == s.(selectedImage := Some(1))
  {
  }
}
