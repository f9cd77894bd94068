# ImageAnnotator interaction engine in Dafny

This project models the interaction engine of ImageAnnotator, a browser
editor in which a user views an image in a pannable, zoomable canvas and
draws, moves, resizes, selects, relabels and deletes point and box regions.
It then proves properties of that model.

The model covers these parts of the program:

- **The annotation reducer** (`AnnotatorReducer`, `AnnotatorActions`,
  `AnnotatorTypes`, `ReducerProperties`). It is a pure transition function
  from an editor state and one of twelve actions to the next state. It
  holds the gesture mode machine (Idle, MOVE_REGION, RESIZE_BOX), region
  creation with class colours, the resize "freedom" vector, the discard of
  degenerate boxes, and image navigation. Every case has a lemma saying
  what it changes and what it leaves alone. Every admissible action keeps
  the editor invariant: boxes never get a negative size, region ids stay
  unique per image, and at most one region per image is highlighted. This
  holds for actions whose payload regions are well formed: a CHANGE_REGION
  or BEGIN_BOX_TRANSFORM region has a non-negative size, and a highlighted
  CHANGE_REGION region is the one already highlighted
  (`ReducerProperties.ActionRegionsOk`). The reducer also never changes the
  image list, the class list or the palette
  (`ReducerProperties.ReduceKeepsConfiguration`).
- **The affine matrix** (`Matrices`). It has a value type `Affine` with its
  algebra: application, product, determinant and inverse. It also has the
  mutable `Matrix` class, whose chaining methods overwrite the six
  coefficients in place.
- **The pointer hook** (`Mouse`). A `Viewport` class owns the shared matrix,
  the pointer positions and the drag and zoom-box flags. It covers:
  - zooming in place about the cursor, clamped to [0.05, 2];
  - wheel zoom;
  - panning that keeps the grabbed point under the pointer;
  - box zoom;
  - the routing of each button to drag, zoom box or the reducer.
- **Canvas geometry** (`ImageCanvas`, `RegionTools`, `ProjectRegionBox`).
  This covers:
  - fitting the image into the canvas;
  - the canvas's initial matrix;
  - the on-screen zoom box and its in-place normalisation;
  - where the image sits on the canvas;
  - which region is "the" highlighted one;
  - enclosing boxes;
  - projecting a region back to device pixels, with JavaScript's division
    by zero kept as an extended number (finite, ±Infinity, NaN).
- **Overlays** (`HighlightBox`, `TransformBoxes`). This covers:
  - when a highlight is drawn, where it is drawn, and what a press on it
    dispatches;
  - which regions get a select box;
  - the nine resize handles, their cursors and the freedom each one sends.
- **Colour strings** (`Colors`). This covers:
  - `#rgb` and `#rrggbb` validation;
  - hex to `rgba(...)` conversion, with a round trip from channels through
    hex code and back;
  - appending an opacity to an `rgb(...)` string;
  - the choice between these conversions.

JavaScript numbers are modelled as exact reals. Functions the program gets
from the browser are parameters of the model:

- `getBoundingClientRect`;
- the canvas's client size;
- the random region id (`freshId`);
- number-to-text formatting;
- the rgb and rgba regular expressions.

## Model

| member | source | states |
|---|---|---|
| AnnotatorActions.TagsIdentifyVariants | src/reducers/annotator/annotatorActions.ts:5-17 | The union has twelve pairwise-distinct `type` tags; two actions share a tag exactly when they are the same variant |
| AnnotatorActions.SelectImageAction | src/reducers/annotator/annotatorActions.ts:26-33 | Builds a SELECT_IMAGE action carrying the given index |
| AnnotatorActions.SelectToolAction | src/reducers/annotator/annotatorActions.ts:41-48 | Builds a SELECT_TOOL action carrying the given tool |
| AnnotatorActions.ImageLoadedAction | src/reducers/annotator/annotatorActions.ts:60-67 | Builds an IMAGE_LOADED action carrying the metadata |
| AnnotatorActions.ChangeRegionAction | src/reducers/annotator/annotatorActions.ts:75-82 | Builds a CHANGE_REGION action carrying the region |
| AnnotatorActions.BeginBoxTransformationAction | src/reducers/annotator/annotatorActions.ts:91-98 | Builds a BEGIN_BOX_TRANSFORM action carrying the box and the freedom |
| AnnotatorActions.SelectRegionAction | src/reducers/annotator/annotatorActions.ts:107-114 | Builds a SELECT_REGION action carrying the region |
| AnnotatorActions.BeginMovePointAction | src/reducers/annotator/annotatorActions.ts:122-129 | Builds a BEGIN_MOVE_POINT action carrying the point |
| AnnotatorActions.DeleteRegionAction | src/reducers/annotator/annotatorActions.ts:137-144 | Builds a DELETE_REGION action carrying the region |
| AnnotatorActions.MouseMoveAction | src/reducers/annotator/annotatorActions.ts:153-161 | Builds a MOUSE_MOVE action carrying the pointer's x and y |
| AnnotatorActions.MouseDownAction | src/reducers/annotator/annotatorActions.ts:170-178 | Builds a MOUSE_DOWN action carrying the pointer's x and y |
| AnnotatorActions.MouseUpAction | src/reducers/annotator/annotatorActions.ts:187-195 | Builds a MOUSE_UP action carrying the pointer's x and y |
| AnnotatorActions.SelectHeaderItemAction | src/reducers/annotator/annotatorActions.ts:204-211 | Builds a HEADER_BUTTON_CLICKED action carrying the button name |
| AnnotatorReducer.WithRegions | src/reducers/annotator/annotatorReducer.ts:166-182 | Replacing the selected image's regions changes only that image's region list; with no selected image the state is unchanged |
| AnnotatorReducer.RemoveId | src/reducers/annotator/annotatorReducer.ts:380-392 | The kept regions are exactly those whose id differs from the target's; order and multiplicity follow from AnnotatorReducer.RemoveIdAppend and AnnotatorReducer.RemoveIdCount |
| AnnotatorReducer.RemoveIdAppend | src/reducers/annotator/annotatorReducer.ts:380-392 | Removal distributes over concatenation, so the kept regions stay in their original order |
| AnnotatorReducer.RemoveIdCount | src/reducers/annotator/annotatorReducer.ts:380-392 | Each region with another id is kept as many times as it occurred, and a list without the id is returned unchanged |
| AnnotatorReducer.FindById | src/reducers/annotator/annotatorReducer.ts:399 | `find` returns the first region carrying the id |
| AnnotatorReducer.IndexOf | src/reducers/annotator/annotatorReducer.ts:113-117 | `indexOf` is -1 exactly when the class is undefined or absent, and otherwise the first index holding it |
| ReducerProperties.SelectToolKeepsMode | src/reducers/annotator/annotatorReducer.ts:27-31 | SELECT_TOOL changes the tool and nothing else, the mode included |
| ReducerProperties.ImageLoadedRecordsSize | src/reducers/annotator/annotatorReducer.ts:33-47 | IMAGE_LOADED sets the selected image's pixel size to the natural size; everything else is kept |
| ReducerProperties.BeginMovePointEntersMove | src/reducers/annotator/annotatorReducer.ts:49-56 | BEGIN_MOVE_POINT enters MOVE_REGION on the point and changes nothing else |
| ReducerProperties.BeginBoxTransformEntersMode | src/reducers/annotator/annotatorReducer.ts:58-98 | Freedom [0, 0] enters MOVE_REGION; any other freedom enters RESIZE_BOX from the box's current geometry; every region stops editing labels |
| ReducerProperties.MouseDownWithoutImageIsNoOp | src/reducers/annotator/annotatorReducer.ts:100-105 | MOUSE_DOWN without a selected image leaves the state unchanged |
| ReducerProperties.MouseDownClearsAndAppends | src/reducers/annotator/annotatorReducer.ts:100-183 | MOUSE_DOWN records the press, clears highlight and label editing on existing regions, and appends one region exactly for a create tool |
| ReducerProperties.NewRegionColorRule | src/reducers/annotator/annotatorReducer.ts:113-117 | A new region takes the palette entry at the class's index modulo the palette length, else the first entry, else "#f44336" |
| ReducerProperties.CreatePointAppendsPoint | src/reducers/annotator/annotatorReducer.ts:121-133 | The create-point tool appends a highlighted, label-editing point at the press with the new id, class and colour; the mode is kept |
| ReducerProperties.CreateBoxEntersResize | src/reducers/annotator/annotatorReducer.ts:135-160 | The create-box tool appends a zero-size highlighted box and enters RESIZE_BOX with freedom [1, 1], marked new |
| ReducerProperties.ResizeAxisMeaning | src/reducers/annotator/annotatorReducer.ts:210-223 | Along one axis, freedom 0 keeps the box, -1 keeps the far edge fixed and +1 keeps the origin fixed; the size never becomes negative |
| ReducerProperties.FlipFreedomCases | src/reducers/annotator/annotatorReducer.ts:227-245 | A collapsed height flips y and restores the original x; otherwise a collapsed width flips x; otherwise nothing flips |
| ReducerProperties.ResizeMoveTouchesOnlyTarget | src/reducers/annotator/annotatorReducer.ts:203-268 | A resize step changes only the target's geometry, per axis from the original box, and keeps its size non-negative |
| ReducerProperties.MoveRegionRecentres | src/reducers/annotator/annotatorReducer.ts:270-298 | A move step centres a target box on the pointer at the same size and puts a target point at the pointer; nothing else changes |
| ReducerProperties.MouseMoveIdleIsNoOp | src/reducers/annotator/annotatorReducer.ts:186-195 | MOUSE_MOVE with no gesture or no selected image changes nothing |
| ReducerProperties.MouseUpEndsGesture | src/reducers/annotator/annotatorReducer.ts:306-377 | MOUSE_UP leaves an idle state unchanged. Otherwise it ends the gesture: a degenerate new box is removed, or a new box starts editing its labels |
| ReducerProperties.DegenerateBoxIsDiscarded | src/reducers/annotator/annotatorReducer.ts:321-338 | A create-box press released within 0.002 on either axis leaves the old regions, deselected, and returns to Idle |
| ReducerProperties.DegenerateReleaseRemoves | src/reducers/annotator/annotatorReducer.ts:321-338 | A degenerate release removes the resized region's id and returns to Idle |
| ReducerProperties.RemoveLastFresh | src/reducers/annotator/annotatorReducer.ts:321-338 | Removing the id of a just-appended region whose id is fresh restores the earlier list |
| ReducerProperties.DeleteRegionRemovesTarget | src/reducers/annotator/annotatorReducer.ts:380-392 | DELETE_REGION removes exactly the regions with the target's id, in any mode; every other region keeps its multiplicity and its order, a list without the id is left as it was, and nothing else changes |
| ReducerProperties.ChangeRegionKeepsClassAndColour | src/reducers/annotator/annotatorReducer.ts:395-428 | On a class change, a known class becomes the selected class and sets the colour from its palette index; an unknown class keeps the selected class and takes that class's palette colour if it is known, else the payload's colour, so class and colour can then disagree; an unchanged class stores the payload as given; the regions with the id are replaced |
| ReducerProperties.ChangeRegionCaseEdits | src/reducers/annotator/annotatorReducer.ts:413-427 | Every region with the id becomes the payload, up to its colour, and every other region is kept |
| ReducerProperties.ChangeRegionCaseRecolours | src/reducers/annotator/annotatorReducer.ts:400-411 | When the class changes, the stored colour is the palette entry of the resulting selected class if that class is known, and the payload's colour otherwise; an unknown new class leaves the selected class as it was |
| ReducerProperties.SelectRegionSelectsExactlyTarget | src/reducers/annotator/annotatorReducer.ts:431-450 | Exactly the regions with the target's id become highlighted and editing labels; with unique ids at most one is highlighted |
| ReducerProperties.SelectImageKeepsMode | src/reducers/annotator/annotatorReducer.ts:453-458 | SELECT_IMAGE only switches the selected image and keeps the mode |
| ReducerProperties.HeaderNavigationClamps | src/reducers/annotator/annotatorReducer.ts:460-483 | "previous" at the first image and "next" at the last are no-ops, other steps move by one, and the index stays valid |
| ReducerProperties.RemoveIdKeepsInv | src/reducers/annotator/annotatorReducer.ts:380-392 | Removing regions keeps ids unique, box sizes non-negative and at most one region highlighted |
| ReducerProperties.MouseDownKeepsInv | src/reducers/annotator/annotatorReducer.ts:100-183 | MOUSE_DOWN keeps the editor invariant |
| ReducerProperties.ResizeKeepsInv | src/reducers/annotator/annotatorReducer.ts:203-268 | A resize step keeps the editor invariant: the resized box never gets a negative size |
| ReducerProperties.MoveKeepsInv | src/reducers/annotator/annotatorReducer.ts:270-298 | A move step keeps the invariant |
| ReducerProperties.MouseMoveKeepsInv | src/reducers/annotator/annotatorReducer.ts:186-303 | MOUSE_MOVE keeps the editor invariant |
| ReducerProperties.MouseUpKeepsInv | src/reducers/annotator/annotatorReducer.ts:306-377 | MOUSE_UP keeps the editor invariant |
| ReducerProperties.ChangeRegionKeepsInv | src/reducers/annotator/annotatorReducer.ts:395-428 | CHANGE_REGION with a non-negative payload, highlighted only if it is the region already highlighted, keeps the editor invariant |
| ReducerProperties.ReplaceKeepsInv | src/reducers/annotator/annotatorReducer.ts:413-427 | Replacing the region with the payload's id keeps ids unique, sizes non-negative and at most one region highlighted |
| ReducerProperties.ReducePreservesInv | src/reducers/annotator/annotatorReducer.ts:21-489 | Every admissible action whose payload regions are well formed (non-negative CHANGE_REGION and BEGIN_BOX_TRANSFORM regions; a highlighted CHANGE_REGION region is the one already highlighted) keeps box sizes non-negative, region ids unique per image, at most one region highlighted per image, and a resize's original box non-negative |
| ReducerProperties.SelectOnlyKeepsInv | src/reducers/annotator/annotatorReducer.ts:431-450 | Selecting a region leaves exactly the regions with its id highlighted, so ids stay unique and at most one region is highlighted |
| ReducerProperties.ReduceKeepsConfiguration | src/reducers/annotator/annotatorReducer.ts:21-489 | No action changes the number of images, their sources and names, the class list or the palette |
| AnnotatorReducer.Reduce | src/reducers/annotator/annotatorReducer.ts:21-489 | Dispatch on the action tag; its meaning is stated case by case by the ReducerProperties lemmas above, by ReducerProperties.ReducePreservesInv and by ReducerProperties.ReduceKeepsConfiguration |
| AnnotatorReducer.NewRegionColor | src/reducers/annotator/annotatorReducer.ts:113-117 | The colour is a palette entry or the fallback "#f44336"; ReducerProperties.NewRegionColorRule states which |
| AnnotatorReducer.ResizeAxis | src/reducers/annotator/annotatorReducer.ts:210-223 | One axis of a resize; its meaning is ReducerProperties.ResizeAxisMeaning |
| AnnotatorReducer.FlipFreedom | src/reducers/annotator/annotatorReducer.ts:227-245 | The freedom flip after a collapse; its meaning is ReducerProperties.FlipFreedomCases |
| AnnotatorReducer.HeaderCase | src/reducers/annotator/annotatorReducer.ts:460-483 | Header navigation; its meaning is ReducerProperties.HeaderNavigationClamps |
| ReducerProperties.ScenarioCreateAndLabelPoint | src/reducers/annotator/annotatorReducer.ts:121-133 | A point created with class "cat" is coloured c0; relabelling it "not-cat" recolours it c1 and selects that class |
| ReducerProperties.ScenarioBoxResizeThenMove | src/reducers/annotator/annotatorReducer.ts:203-298 | Drawing from (0.2, 0.2) to (0.5, 0.5) gives box (0.2, 0.2, 0.3, 0.3); moving to (0.6, 0.6) recentres it at (0.45, 0.45) |
| ReducerProperties.ScenarioDegenerateBox | src/reducers/annotator/annotatorReducer.ts:321-338 | A press and release 0.0004 apart with create-box adds no region and returns to Idle |
| ReducerProperties.ScenarioLeftEdgeResize | src/reducers/annotator/annotatorReducer.ts:210-245 | Dragging a left edge to 0.45 and then 0.55 gives widths 0.25 and 0.15 with the far edge fixed, and no flip |
| ReducerProperties.ScenarioDragThroughZero | src/reducers/annotator/annotatorReducer.ts:210-245 | Collapsing a right edge flips the x freedom; the next step resizes from the original far edge |
| ReducerProperties.ScenarioNavigationClamps | src/reducers/annotator/annotatorReducer.ts:460-483 | With three images, "previous" at 0 and "next" at 2 are no-ops |
| Matrices.ComposeApply | src/matrix.ts:480-495 | The product applies its right factor first: (m·n)(p) = m(n(p)) |
| Matrices.IdentityNeutral | src/matrix.ts:20-25 | The identity is neutral on both sides of the product and fixes every point |
| Matrices.TranslateMeaning | src/matrix.ts:468-470 | `translate` keeps a–d, and the new matrix maps p to where the old one maps p shifted by (tx, ty) |
| Matrices.ApplyTranslation | src/matrix.ts:468-470 | A translation moves every point by (tx, ty) |
| Matrices.ScaleUMeaning | src/matrix.ts:339-341 | `scaleU(k)` multiplies a–d by k and keeps e and f |
| Matrices.DetCompose | src/matrix.ts:212-214 | The determinant of a product is the product of the determinants |
| Matrices.InverseLeft | src/matrix.ts:261-275 | The inverse times the matrix is the identity |
| Matrices.InverseRight | src/matrix.ts:261-275 | The matrix times its inverse is the identity |
| Matrices.InverseIsTwoSided | src/matrix.ts:261-275 | The inverse is a two-sided inverse |
| Matrices.InverseRoundTrip | src/matrix.ts:261-275 | Applying the matrix and then its inverse (or the other way round) returns every point |
| Matrices.InverseDet | src/matrix.ts:261-275 | The inverse's determinant is the reciprocal of the matrix's |
| Matrices.IsIdentityFixesEveryPoint | src/matrix.ts:288-291 | `isIdentity` holds exactly for the identity, which is exactly the matrix that fixes every point |
| Matrices.InvertibleIsStricter | src/matrix.ts:293-295 | `isInvertible` implies a non-zero determinant; some matrix `inverse` accepts is rejected by `isInvertible` |
| Matrices.ApproxEqualReflexiveSymmetric | src/matrix.ts:277-286 | `isEqual` within 1e-14 is reflexive and symmetric |
| Matrices.DivideAllUndone | src/matrix.ts:220-232 | Multiplying each coefficient by k undoes dividing each by k |
| Matrices.LerpEnds | src/matrix.ts:234-244 | Interpolation at 0 gives the receiver and at 1 gives the argument |
| Matrices.Matrix.constructor | src/matrix.ts:20-25 | A new matrix is the identity |
| Matrices.Matrix.From | src/matrix.ts:70-74 | A fresh matrix holding exactly the six values |
| Matrices.Matrix.SetTransform | src/matrix.ts:387-396 | Overwrites the six coefficients with the given values |
| Matrices.Matrix.Reset | src/matrix.ts:321-323 | Returns the matrix to the identity |
| Matrices.Matrix.Transform | src/matrix.ts:480-495 | Right-multiplies the matrix in place by the given coefficients |
| Matrices.Matrix.Multiply | src/matrix.ts:309-311 | Right-multiplies by the argument's values on entry, also when the argument is the receiver |
| Matrices.Matrix.Translate | src/matrix.ts:468-470 | Right-multiplies in place by a translation |
| Matrices.Matrix.ScaleU | src/matrix.ts:339-341 | Right-multiplies in place by a uniform scaling |
| Matrices.Matrix.Scale | src/matrix.ts:343-345 | Right-multiplies in place by an axis scaling |
| Matrices.Matrix.ApplyToPoint | src/matrix.ts:125-131 | Maps a point through the current coefficients; Matrices.ComposeApply and Matrices.IdentityNeutral give its algebra |
| Matrices.Matrix.Determinant | src/matrix.ts:212-214 | The current determinant; Matrices.DetCompose and Matrices.InverseDet give its algebra |
| Matrices.Matrix.IsIdentity | src/matrix.ts:288-291 | Exact identity test; Matrices.IsIdentityFixesEveryPoint gives its meaning |
| Matrices.Matrix.IsInvertible | src/matrix.ts:293-295 | Determinant not within 1e-14 of zero; Matrices.InvertibleIsStricter relates it to `inverse` |
| Matrices.Matrix.IsEqual | src/matrix.ts:277-286 | Coefficient-wise comparison within 1e-14; Matrices.ApproxEqualReflexiveSymmetric gives its properties |
| Matrices.Matrix.ApplyToArray | src/matrix.ts:88-97 | Maps each (x, y) pair of an even-length array through the matrix, keeping its length |
| Matrices.Matrix.Inverse | src/matrix.ts:261-275 | Fails exactly when the determinant is 0; otherwise returns a fresh matrix that undoes the receiver on every point |
| Matrices.Matrix.Clone | src/matrix.ts:146-148 | A distinct matrix with the same values |
| Matrices.Matrix.Concat | src/matrix.ts:150-152 | A fresh matrix holding the product; the receiver is unchanged |
| Matrices.Matrix.DivideScalar | src/matrix.ts:220-232 | Fails and changes nothing exactly when k is 0; otherwise divides every coefficient by k |
| Matrices.Matrix.Interpolate | src/matrix.ts:234-244 | A fresh matrix whose coefficients interpolate linearly between the receiver's and the argument's |
| Mouse.Clamp | src/hooks/useMouse.ts:57-62 | The result lies in [lo, hi]: it is x when x is inside, and otherwise the bound x crosses |
| Mouse.ZoomScale | src/hooks/useMouse.ts:51-53 | A positive target or a direction above -5 gives a positive relative scale |
| Mouse.RecentredFixesPoint | src/hooks/useMouse.ts:56-63 | The recentred matrix shows at p what the old matrix showed there |
| Mouse.RecentredUnique | src/hooks/useMouse.ts:56-63 | It is the only uniform matrix of that scale that keeps p fixed |
| Mouse.ZoomResult | src/hooks/useMouse.ts:49-66 | The matrix after a zoom step; its meaning is Mouse.ZoomResultMeaning |
| Mouse.Normalize | src/hooks/useMouse.ts:85-86 | Divides a projected point by the layout size; Mouse.Viewport.MouseMove, MouseDown and MouseUp forward it |
| Mouse.ZoomResultMeaning | src/hooks/useMouse.ts:49-66 | A zoom keeps the matrix uniform, clamps its scale to [0.05, 2] and keeps the cursor's point fixed |
| Mouse.ZoomResultShape | src/hooks/useMouse.ts:56-63 | The zoomed matrix is uniform and its scale is the old scale times the wheel factor, clamped to [0.05, 2] |
| Mouse.ZoomResultFixesCursor | src/hooks/useMouse.ts:56-63 | For a uniform matrix the zoom maps the cursor's point to the same place as before |
| Mouse.ZoomToTarget | src/hooks/useMouse.ts:49-66 | An absolute zoom `{to: t}` sets the scale to t clamped to [0.05, 2] |
| Mouse.WheelDirection | src/hooks/useMouse.ts:176-180 | The direction is -1, 0 or 1, with the sign of `deltaY` |
| Mouse.WheelScale | src/hooks/useMouse.ts:176-180 | One wheel notch scales by 1.2, 0.8 or 1, always a valid zoom |
| Mouse.WheelZoomSaturates | src/hooks/useMouse.ts:49-66 | Repeated notches from scale 1 give 1.2, 1.44, 1.728 and then stay at 2, always within [0.05, 2] |
| Mouse.BoxZoomScale | src/hooks/useMouse.ts:148-153 | The fit scale of a zoom box is clamped to [0.05, 10] |
| Mouse.BoxZoomMeaning | src/hooks/useMouse.ts:155-159 | A box zoom gives a uniform matrix of scale s that shows the box's corner at the margin point (10/s, 10/s) |
| Mouse.PanFollowsPointer | src/hooks/useMouse.ts:88-94 | After a pan step, the pointer shows the content point the previous pointer showed |
| Mouse.PanKeepsUniform | src/hooks/useMouse.ts:88-94 | Panning keeps a uniform matrix uniform at the same scale |
| Mouse.RouteMouseDown | src/hooks/useMouse.ts:97-119 | Middle, right, or primary with pan drags; otherwise primary with zoom opens a zoom box; otherwise primary is forwarded |
| Mouse.BoxZoomMatrix | src/hooks/useMouse.ts:155-159 | A fresh matrix holding the box-zoom matrix of the corner and scale |
| Mouse.Viewport.constructor | src/hooks/useMouse.ts:25-47 | A viewport starts at the default matrix, not dragging, with no zoom box and the pointer at the origin |
| Mouse.Viewport.ZoomIn | src/hooks/useMouse.ts:49-66 | Zooms the shared matrix in place about p: clamped scale with p kept fixed |
| Mouse.Viewport.ScaleClamped | src/hooks/useMouse.ts:56-62 | Scaling and then clamping leaves the clamped product scale at the same offset |
| Mouse.Viewport.ClampZoom | src/hooks/useMouse.ts:57-62 | A scale above 2 or below 0.05 is rescaled to that bound; the offset is kept |
| Mouse.Viewport.MouseMove | src/hooks/useMouse.ts:69-96 | Records the pointer, extends an open zoom box, forwards the normalised point, and while dragging pans so the image follows the pointer |
| Mouse.Viewport.MouseDown | src/hooks/useMouse.ts:97-119 | By the routing precedence, starts a drag, opens a zoom box at the projected pointer, or forwards the normalised pointer |
| Mouse.Viewport.MouseUp | src/hooks/useMouse.ts:120-175 | Closes an open zoom box by a toggle zoom or a box zoom, ends a drag for the drag buttons, and forwards a primary release |
| Mouse.Viewport.ToggleZoom | src/hooks/useMouse.ts:128-136 | A click-sized zoom box zooms about the pointer to 1 below scale 1, else to 0.25 |
| Mouse.Viewport.BoxZoom | src/hooks/useMouse.ts:137-160 | Sorts the corners and installs a fresh box-zoom matrix; returns the sorted far corner |
| Mouse.Viewport.FitScale | src/hooks/useMouse.ts:148-153 | The fit scale of the sorted box, clamped to [0.05, 10] |
| Mouse.Viewport.Wheel | src/hooks/useMouse.ts:176-180 | Zooms about the pointer by one notch in the sign of `deltaY` |
| RegionTools.EnclosingBox | src/regionTools.ts:3-15 | The box keeps the region's origin; a point gets size zero |
| RegionTools.EnclosingBoxIsExact | src/regionTools.ts:3-15 | The enclosing box covers exactly the points the region covers |
| RegionTools.EnclosingBoxContainsOrigin | src/regionTools.ts:3-15 | A region of non-negative size has a non-negative enclosing box that contains its origin |
| ProjectRegionBox.Divide | src/hooks/useProjectRegionBox.ts:49-50 | Division is finite exactly for a non-zero divisor; otherwise it is ±Infinity by the dividend's sign, or NaN for 0/0 |
| ProjectRegionBox.Margin | src/hooks/useProjectRegionBox.ts:40 | The margin is 15 for points and 2 for boxes |
| ProjectRegionBox.ContentBox | src/hooks/useProjectRegionBox.ts:38-46 | The region's enclosing box in image pixels with its margin; its meaning is ProjectRegionBox.ContentBoxEnclosesRegion and ProjectRegionBox.ContentBoxSize |
| ProjectRegionBox.ContentBoxEnclosesRegion | src/hooks/useProjectRegionBox.ts:38-46 | Every point of the region, in content pixels, lies at least a margin inside the content box |
| ProjectRegionBox.ContentBoxSize | src/hooks/useProjectRegionBox.ts:41-46 | A non-negative region's content box is at least twice the margin wide and high |
| ProjectRegionBox.Project | src/hooks/useProjectRegionBox.ts:37-53 | Projection fails (the inverse throws) exactly for a singular matrix |
| ProjectRegionBox.ProjectInvertsMatrix | src/hooks/useProjectRegionBox.ts:47-51 | The matrix takes the projected corner back to the content box's corner |
| ProjectRegionBox.ProjectedSizes | src/hooks/useProjectRegionBox.ts:49-50 | The projected width and height are the content size divided (IEEE-style) by the matrix's a and d entries, so for a non-zero entry the size times that entry is the content size |
| ProjectRegionBox.PointWidth | src/hooks/useProjectRegionBox.ts:40-51 | A point projects to width 30 / `mat.a`, positive for a positive scale |
| ProjectRegionBox.ProjectedSizeKind | src/hooks/useProjectRegionBox.ts:47-51 | A non-negative region's projected size is finite, or +Infinity exactly when the diagonal entry is 0 |
| HighlightBox.Renders | src/components/HighlightBox.tsx:68-70 | The render guard; its meaning is HighlightBox.RendersMeans |
| HighlightBox.RendersMeans | src/components/HighlightBox.tsx:68-70 | A highlight is drawn exactly when finished, with each side non-zero finite or -Infinity |
| HighlightBox.GuardMatchesScale | src/components/HighlightBox.tsx:68-70 | For a non-negative region the guard draws exactly when both diagonal entries are non-zero; the size is then finite, and positive for positive entries |
| HighlightBox.GuardOnSizes | src/components/HighlightBox.tsx:68-70 | For positive content sizes divided by a and d, the guard passes exactly when the box is finished and both divisors are non-zero |
| HighlightBox.StyleCoords | src/components/HighlightBox.tsx:72-85 | A point gets a 60×60 square centred on the projected box; any other region gets the box grown by 5 on every side |
| HighlightBox.HasMouseDownHandler | src/components/HighlightBox.tsx:103 | The highlight installs a press handler only when neither pan nor zoom owns the primary button |
| HighlightBox.OnMouseDown | src/components/HighlightBox.tsx:103-119 | Without an installed handler the press does nothing; otherwise primary on an unlocked highlighted point moves it, primary selects unless a create tool owns it, and any other press goes to the canvas |
| HighlightBox.PressOn | src/components/HighlightBox.tsx:103-139 | Where a press goes once `pointerEvents` is applied; its meaning is HighlightBox.PressRouting |
| HighlightBox.PressRouting | src/components/HighlightBox.tsx:103-139 | A highlighted box always lets a press through to the canvas; a press is lost only on a highlighted point under pan or zoom; it moves exactly an unlocked highlighted point on primary without pan or zoom; it selects exactly on primary with no tool owning primary, for an unhighlighted region or a locked highlighted point |
| HighlightBox.PanOrZoomPressDispatchesNothing | src/components/HighlightBox.tsx:103-119 | While pan or zoom owns the primary button, a press on a highlight dispatches no reducer action |
| HighlightBox.PressAction | src/components/HighlightBox.tsx:105-117 | Moving dispatches BEGIN_MOVE_POINT, selecting dispatches SELECT_REGION; forwarding and a missing handler dispatch nothing |
| TransformBoxes.SelectBoxRegions | src/components/RegionSelectAndTransformBoxes.tsx:125-127 | The regions that get a select box; its meaning is TransformBoxes.SelectBoxRegionsExact |
| TransformBoxes.ShowHandles | src/components/RegionSelectAndTransformBoxes.tsx:76-81 | Handles show on an unlocked highlighted box while neither pan nor zoom owns the primary button and the scale is below 1.2; TransformBoxes.HandlePressEntersMode uses it |
| TransformBoxes.Cursor | src/components/RegionSelectAndTransformBoxes.tsx:15-19 | The cursor of a handle; its meaning is TransformBoxes.CursorMatchesFreedom |
| TransformBoxes.SelectBoxRegionsExact | src/components/RegionSelectAndTransformBoxes.tsx:125-127 | The two filters keep exactly the visible-or-unset, unlocked regions, in order |
| TransformBoxes.HandlesAreTheGrid | src/components/RegionSelectAndTransformBoxes.tsx:82-91 | The nine handles are the nine distinct points of the grid {0, ½, 1}², with the centre last |
| TransformBoxes.HandleFreedoms | src/components/RegionSelectAndTransformBoxes.tsx:100-104 | Every handle's freedom is in {-1, 0, 1}²; only the centre sends [0, 0]; distinct handles send distinct freedoms |
| TransformBoxes.GridIndex | src/components/RegionSelectAndTransformBoxes.tsx:108 | A grid coordinate selects the table index 2·c, inside the 3×3 table |
| TransformBoxes.CursorMatchesFreedom | src/components/RegionSelectAndTransformBoxes.tsx:15-19 | Every handle's cursor names the edges its freedom moves |
| TransformBoxes.HandleMouseDown | src/components/RegionSelectAndTransformBoxes.tsx:100-104 | A primary press begins a box transform with the handle's freedom; any other press goes to the canvas |
| TransformBoxes.HandlePressEntersMode | src/components/RegionSelectAndTransformBoxes.tsx:76-104 | A primary press on a shown handle is admissible; the centre enters MOVE_REGION and the others enter RESIZE_BOX with their freedom |
| ImageCanvas.FitLayout | src/components/ImageCanvas.tsx:172-193 | The fitted layout; its meaning is ImageCanvas.FitLayoutFits |
| ImageCanvas.FitLayoutFits | src/components/ImageCanvas.tsx:172-193 | The fitted image lies inside the canvas less 20 pixels, keeps the aspect ratio, and touches the margin on one axis |
| ImageCanvas.LayoutRef.constructor | src/components/ImageCanvas.tsx:187-193 | The layout starts unset |
| ImageCanvas.LayoutRef.Measure | src/components/ImageCanvas.tsx:160-193 | With a canvas and a loaded image, the layout becomes the fitted layout; otherwise it is kept |
| ImageCanvas.DefaultView | src/components/ImageCanvas.tsx:54-63 | The initial matrix; its meaning is ImageCanvas.DefaultViewMeaning |
| ImageCanvas.DefaultViewMeaning | src/components/ImageCanvas.tsx:54-63 | Without an area the view is the 10-pixel shift. With an area it is uniform of scale w + 0.05 and shows the area's corner at (10/k, 10/k) |
| ImageCanvas.DefaultMatrix | src/components/ImageCanvas.tsx:54-63 | The chain of matrix calls yields a fresh matrix holding that default view |
| ImageCanvas.ZoomBoxSpansDrag | src/components/ImageCanvas.tsx:258-265 | The device zoom box's opposite corners are the device points that show the drag's two ends |
| ImageCanvas.ZoomBoxCorner | src/components/ImageCanvas.tsx:258-265 | The box's corner is where the matrix shows the drag's start; its size is the drag over the scale |
| ImageCanvas.Normalized | src/components/ImageCanvas.tsx:266-275 | The zoom box with non-negative sides; its meaning is ImageCanvas.NormalizedMeaning |
| ImageCanvas.NormalizedMeaning | src/components/ImageCanvas.tsx:266-275 | Normalising leaves non-negative sizes spanning the same intervals, and normalising again changes nothing |
| ImageCanvas.ZoomBox.constructor | src/components/ImageCanvas.tsx:258-265 | The zoom box object holds the device box of the drag |
| ImageCanvas.ZoomBox.Normalize | src/components/ImageCanvas.tsx:266-275 | Flips a negative width or height in place |
| ImageCanvas.ImagePositionOf | src/components/ImageCanvas.tsx:278-281 | The image position fails (the inverse throws) exactly for a singular matrix |
| ImageCanvas.ImagePositionCorners | src/components/ImageCanvas.tsx:278-281 | The matrix takes the image position's corners back to (0, 0) and (iw, ih) |
| ImageCanvas.HighlightedRegion | src/components/ImageCanvas.tsx:283-287 | The first highlighted region; its meaning is ImageCanvas.HighlightedRegionExact and ImageCanvas.SingleHighlight |
| ImageCanvas.HighlightedRegionExact | src/components/ImageCanvas.tsx:283-287 | There is a highlighted region exactly when one region alone is highlighted, and then it is that region |
| ImageCanvas.SingleHighlight | src/components/ImageCanvas.tsx:284-285 | The highlight filter has length 1 exactly when a single region is highlighted, and then it holds that region |
| Colors.IsValidHex | src/utils/colors.ts:3-6 | "#" then three or six lower-case hex digits; Colors.UppercaseRejected and Colors.HexRoundTrip use it |
| Colors.UppercaseRejected | src/utils/colors.ts:3-6 | A code holding an upper-case letter is never valid |
| Colors.Expand | src/utils/colors.ts:22-25 | A short code's digits are each doubled |
| Colors.ScaleOpacity | src/utils/colors.ts:29-31 | An opacity in (1, 100] is read as a percentage in (0.01, 1]; any other value is kept |
| Colors.HexColor | src/utils/colors.ts:18-31 | An invalid code is an error; otherwise the channels are at most 255 and the opacity is scaled |
| Colors.HexRoundTrip | src/utils/colors.ts:18-33 | Any colour's six-digit code is valid and reads back as the same channels |
| Colors.ShortFormDoubles | src/utils/colors.ts:22-28 | A short code converts to the same colour as its long form, each channel being 17 times its digit |
| Colors.DecimalText | src/utils/colors.ts:32 | A channel's text is a non-empty run of digits without leading zeros |
| Colors.DecimalRoundTrip | src/utils/colors.ts:32 | Reading a channel's text gives the channel back |
| Colors.RgbaTextReadsBack | src/utils/colors.ts:32 | The string opens with "rgba(" and the red channel's digits, which read back as the channel, and closes with the opacity text and ")" |
| Colors.HexToRgba | src/utils/colors.ts:18-33 | Throws exactly for an invalid code; otherwise returns an "rgba(...)" string |
| Colors.FirstIndex | src/utils/colors.ts:38 | The first occurrence of a character, or none exactly when it does not occur |
| Colors.RgbToRgba | src/utils/colors.ts:35-39 | The first ")" is replaced by "," + opacity + ")"; a string with no ")" is returned unchanged |
| Colors.RgbToRgbaUndo | src/utils/colors.ts:35-39 | Cutting the inserted opacity back out restores the input |
| Colors.RgbToRgbaKeepsName | src/utils/colors.ts:35-39 | An "rgb(" string stays an "rgb(" string |
| Colors.EnsureRgba | src/utils/colors.ts:41-51 | An rgba string is kept, an rgb string gets the opacity, a hex code is converted without throwing; anything else gives undefined |
| Common.Filter | src/components/ImageCanvas.tsx:284 | The filter keeps exactly the elements passing the test; order and multiplicity follow from Common.FilterAppend and Common.FilterCount |
| Common.FilterAppend | src/components/RegionSelectAndTransformBoxes.tsx:125-127 | Filtering distributes over concatenation, so kept elements stay in order |
| Common.FilterCount | src/components/RegionSelectAndTransformBoxes.tsx:125-127 | Each kept element keeps its multiplicity, and a list whose elements all pass is returned unchanged |
| Common.FilterTwice | src/components/RegionSelectAndTransformBoxes.tsx:125-127 | Filtering twice equals filtering once by the conjunction |

## Left out

- Input and output are not modelled: the DOM, the canvas element, React
  state and effects, `requestAnimationFrame`, and the image and video
  elements. `getBoundingClientRect` and the canvas's client size are
  parameters. Updates the source batches or defers are applied at once.
- Floating point is not modelled. Numbers are exact reals, so rounding is
  not captured. The 1e-14 tolerance of `isEqual` and `isInvertible` is kept
  as stated.
- The only infinities and NaN modelled are those of `ProjectRegionBox.Divide`.
  The highlight guard observes them.
- Random region ids are a parameter (`freshId`). The reducer requires that
  parameter to be fresh in the selected image. The source draws it at
  random, and a collision is possible there.
- `Matrices.Matrix.ApplyToArray` requires an even-length array. The
  source's handling of a trailing odd coordinate is not modelled.
- `Matrices.Matrix.Inverse` returns `null` where the source throws.
  `Matrices.Matrix.DivideScalar` returns `false` where the source throws.
- Matrix members outside the core are not modelled:
  - the trigonometric and square-root members, because exact reals cannot
    express them: `rotate`, `rotateDeg`, `rotateFromVector`, the `skew`
    family, `decompose`, `interpolateAnim`, `reflectVector`,
    `scaleFromVector`;
  - the DOM, canvas and formatting members: `_x`, `_getPX`,
    `applyToContext`, `applyToElement`, and the `toCSS`, `toCSS3D`,
    `toDOMMatrix`, `toSVGMatrix`, `toString` and `toTypedArray` family;
  - `fromSVGTransformList`, which reads a browser SVG object;
  - the `context` and element bindings of the constructor.
- The polygon and keypoint modes are not modelled: DRAW_POLYGON,
  MOVE_POLYGON_POINT, MOVE_KEYPOINT and RESIZE_KEYPOINTS. No reducer case
  enters them. The reducer's own state types list them.
- The `default` branch of `getEnclosingBox` cannot be reached, because a
  region is a point or a box. The model has no third shape.
- State fields that no modelled case reads are dropped:
  `regionTagList`, `currentImageIndex` and `lastMouseMoveCall`.
- AnnotatorReducer.NewRegionColor requires a non-empty palette when the
  selected class is in the class list. With an empty palette the source
  stores an `undefined` colour (`colors[i % 0]`).
- AnnotatorReducer.ChangeRegionReady requires the payload's region to be
  present in the selected image. The source throws at
  annotatorReducer.ts:400 when it is not.
- ReducerProperties.ChangeRegionKeepsClassAndColour: CHANGE_REGION's new
  colour is written into the incoming payload object in place
  (annotatorReducer.ts:409), so the caller's object changes too. The model
  builds a new region value and leaves the payload as it was.
- Colors.HexToRgba, Colors.RgbToRgba and Colors.EnsureRgba take the opacity
  as a mandatory argument. The source defaults it to 0.7
  (colors.ts:18, 35, 41); the model has no default arguments.
- Mouse.Viewport holds a fixed, positive layout size. The source reads
  `layoutParams.current` on every event instead. Before the first fit,
  a move forwards NaN coordinates (useMouse.ts:85-86), and a primary press
  or release throws while destructuring (useMouse.ts:116, 138, 172); panning
  and the wheel still work. The layout is refitted on every render
  (ImageCanvas.tsx:187), which the model does not track.
- AnnotatorReducer.ClassAfterChange requires a defined class list when
  CHANGE_REGION changes the class. The source's `indexOf` on an undefined
  list throws there.
- AnnotatorReducer.Reduce requires a BEGIN_BOX_TRANSFORM with a non-zero
  freedom to carry a box, which is how the handles call it.
- The resize scenario follows the code, not the intended behaviour.
  Dragging a left edge (freedom -1) right and then left keeps the far edge
  fixed, so the width never passes through zero and the freedom does not
  flip (`ReducerProperties.ScenarioLeftEdgeResize`). A flip needs the
  dragged side itself to collapse (`ReducerProperties.ScenarioDragThroughZero`).
- SELECT_IMAGE does not reset the mode. A gesture in progress continues
  against the newly selected image, as the code does.
- ImageCanvas.FitLayout requires a canvas larger than 20 pixels on both
  sides. Smaller canvases divide by zero or by a negative size in the
  source.
- ImageCanvas.ZoomBoxRect assumes a uniform matrix: a = d > 0 and
  b = c = 0. The viewport keeps that invariant (`Mouse.Viewport.Valid`).
- HighlightBox.StyleCoords takes a finite projected size. The render guard
  alone does not ensure that: it lets a size of -Infinity through
  (`HighlightBox.RendersMeans`). For a region of non-negative size every
  projected size is finite or +Infinity (`ProjectRegionBox.ProjectedSizeKind`),
  and the guard stops +Infinity, so only finite sizes reach it there.
- The handles' pixel positions are not modelled, only their grid
  fractions. The same holds for colours and other styling of the overlays.
- `unfinished` in the highlight guard is a parameter. It comes from the
  surrounding component.
- Formatting a number as text is a parameter (`numberText`). The
  `isValidRgb` and `isValidRgba` regular expressions are parameters too.
- `hex.replace('#', '')` is modelled as dropping the first character.
  `isValidHex` has already required that character to be "#".
- The wiring in `Annotator.tsx` is not part of this model. That file
  connects the canvas callbacks to the reducer's dispatch.
