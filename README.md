# webact2 viewer core in Dafny

A model of the deep-zoom image viewer in webact2 and of the Python tiler's
geometry, with proofs of what the code promises. A tiled image is a
pyramid of layers. Each layer is cut into 256-pixel tiles, and each layer
up from the smallest has √2 times the resolution of the one before. The
viewer keeps a viewport over the scene: a scale, a rotation and a centre,
pinned so the view stays on the image. It draws, for each layer the scale
needs, the tiles the visible area covers, and caches each layer's tiles as
they are first made. Around this sit the geometry the viewer computes with
and the small utilities it is built on. The utilities are a listener
registry, path handling, a package system and base controls.

Modules, one per source file:

- `Geometry`: points, dimensions, segments, rectangles and 3×3 affine
  transforms from `js/geometry.js`, as immutable values.
- `Polygons`: the polygon loops of `js/geometry.js`, as methods proved
  against specification functions. These are bounds, equality, edge
  iteration, point containment and the four-pass clip.
- `Pyramids`: `js/pyramid.js`. Layer count, scale ↔ layer, tile extent,
  grid size, tile column and row, and the `forTiles` enumeration.
- `PyPyramids`: the Python port `tiler/tiler-v02/tiled_image/pyramid.py`.
  It allows any tile size and multiplier, and Python's exceptions become
  `Failure`.
- `Viewports`: `js/viewport.js`, as a class. Its fields are the viewport's
  closure state. Broadcasts are appended to an event log.
- `TiledImages`: `js/tiled_image.js`. `pad` and tile URLs, a `Layer` class
  with its tile grid and `shown` list, and a `TiledImage` class holding the
  layers.
- `Observers`: `js/observers.js`. A broadcaster class whose per-selector
  listener lists live in a map field.
- `Paths`: `js/paths.js`. The `split` and `join` loops, plus `normalize`
  and `parent`.
- `Packages`: `js/packages.js`. Objects as ordered property lists with a
  prototype, and a registry class for `in_package` and `imports`.
- `Controls`: `js/controls.js`. Id counters, and a `Control` class with
  its parent, children and DOM handles.
- `PyGeometry`: the tiler's `rectangle.py`, `transform.py`, `point.py` and
  `dimensions.py`. Rectangle is a class because `setTopLeft` and
  `setDimensions` update it in place.
- Support modules:
  - `NumberTexts`: the decimal text of a number, as JavaScript's `"" + n`.
  - `Numerics`: Min/Max, floor and ceiling, integer powers.
  - `Wrappers`: Option and Result.

Numbers are exact reals. The host's `Math.log`, `Math.sqrt(2)`, `cos`,
`sin` and `π` are a parameter (`HostMath`). It comes with only the laws the
proofs use:
- the logarithm is increasing and turns products into sums;
- √2 squared is 2;
- cos² + sin² = 1.

## Model

| member | source | states |
|---|---|---|
| Geometry.PointEquals | js/geometry.js:28-30 | two points are equal exactly when both coordinates agree |
| Geometry.PinInRectangle | js/geometry.js:32-36 | for a well-formed rectangle the pinned point lies inside it and each coordinate is clamped to the rectangle's edges; a point already inside is returned unchanged |
| Geometry.PointTo | js/geometry.js:55-67 | the segment starts at this point and ends at the destination |
| Geometry.LineEnds | js/geometry.js:106-112 | a segment is the segment from its start point (`lineFrom`) to its end point (`lineTo`) |
| Geometry.DimensionsEquals | js/geometry.js:82-84 | equal exactly when width and height agree |
| Geometry.DimensionsScale | js/geometry.js:86-88 | both width and height are multiplied by the multiplier |
| Geometry.DimensionsRectangle | js/geometry.js:90-92 | the rectangle sits at the origin and has exactly these dimensions |
| Geometry.DimensionsPolygon | js/geometry.js:94-96 | a four-corner polygon from the origin to (width, height) |
| Geometry.LineBounds | js/geometry.js:120-124 | the bounds are well formed, hold both end points, and lie inside every rectangle that holds both end points (the smallest such rectangle) |
| Geometry.YForX | js/geometry.js:126-134 | no answer exactly when x lies outside the segment's x range; a vertical segment answers its start y; otherwise the answer lies on the segment's line and between its end y values |
| Geometry.XForY | js/geometry.js:136-144 | the same for x given y: no answer outside the y range, the start x for a horizontal segment, otherwise a point on the segment's line between the end x values |
| Geometry.InterpolationOnSegment | js/geometry.js:131-132 | the value computed by the slope formula lies on the line through both end points and between the end values |
| Geometry.LineEquals | js/geometry.js:146-149 | equal exactly when all four coordinates agree |
| Geometry.ReversedLine | js/geometry.js:120-124 | reversing a segment keeps its bounds but, by `equals`, gives a different segment whenever its ends differ |
| Geometry.MakeRectangleWidthHeight | js/geometry.js:166-172 | the rectangle's top-left corner is (left, top) and its dimensions are (width, height) |
| Geometry.RectangleDimensions | js/geometry.js:175-178 | width and height are both non-negative exactly when the rectangle's edges are in order |
| Geometry.TopLeft | js/geometry.js:180-182 | of a well-formed rectangle, a corner inside it that no point of it lies above or left of |
| Geometry.BottomRight | js/geometry.js:184-186 | of a well-formed rectangle, a corner inside it that no point of it lies below or right of |
| Geometry.Center | js/geometry.js:188-190 | the centre is equally far from the left and right edges and from the top and bottom edges |
| Geometry.RectangleEquals | js/geometry.js:192-197 | equal exactly when all four edges agree |
| Geometry.ContainsPoint | js/geometry.js:199-202 | a point is contained exactly when it lies in the closed rectangle but not on its right or bottom edge (half-open containment) |
| Geometry.ContainsPointSplit | js/geometry.js:199-202 | cutting a rectangle at a vertical line splits its points between the two halves: every contained point is in exactly one half |
| Geometry.Intersect | js/geometry.js:204-210 | a point is in the intersection exactly when it is in both rectangles, for both half-open and closed containment |
| Geometry.IntersectCommutes | js/geometry.js:204-210 | intersection does not depend on argument order |
| Geometry.Inset | js/geometry.js:212-219 | the inset keeps the centre and well-formedness; each edge moves in by the inset amount, or the rectangle collapses to its centre line when the amount exceeds half the extent; a non-negative inset of a well-formed rectangle stays inside it |
| Geometry.InsetOneArgument | js/geometry.js:213 | a missing inset height means the same as passing the width |
| Geometry.InsetZeroHeight | js/geometry.js:213 | an inset height of 0 is falsy and also falls back to the width |
| Geometry.RectangleScale | js/geometry.js:221-224 | scaling multiplies the top-left corner and both dimensions by the scale |
| Geometry.RectanglePolygon | js/geometry.js:226-233 | the polygon lists the four corners clockwise from the top-left |
| Geometry.Compose | js/geometry.js:432-451 | the composition of two affine transforms is affine |
| Geometry.ComposeProject | js/geometry.js:432-451 | projecting through `a.compose(b)` is projecting through b and then through a |
| Geometry.ComposeTranslations | js/geometry.js:489-491 | composing two translations translates by the summed offsets |
| Geometry.DeterminantCompose | js/geometry.js:432-451 | the determinant of a composition is the product of the determinants |
| Geometry.Inverse | js/geometry.js:455-475 | there is no inverse exactly when the determinant is zero |
| Geometry.InverseProject | js/geometry.js:455-475 | for an affine transform with non-zero determinant, projecting through the transform and then its inverse (or the other way round) returns the original point |
| Geometry.Identity | js/geometry.js:485-487 | the identity matrix is affine |
| Geometry.IdentityProject | js/geometry.js:485-487 | projecting through the identity leaves a point unchanged; its determinant is 1 |
| Geometry.Translate | js/geometry.js:489-491 | a translation is affine |
| Geometry.TranslateProject | js/geometry.js:489-491 | projection adds the offsets; the determinant is 1 |
| Geometry.Scale | js/geometry.js:493-495 | a scaling is affine |
| Geometry.ScaleProject | js/geometry.js:493-495 | projection multiplies each coordinate by its factor; the determinant is the product of the factors |
| Geometry.Rotate | js/geometry.js:497-504 | a rotation is affine |
| Geometry.RotateDeterminant | js/geometry.js:497-504 | a rotation preserves area: its determinant is 1 (given cos² + sin² = 1 from the host) |
| Polygons.BoundsOf | js/geometry.js:260-280 | the bounds of a non-empty point list are well formed, hold every point, and each edge is touched by some point (the tightest box) |
| Polygons.Bounds | js/geometry.js:260-280 | fails with "Invalid operation" exactly when the polygon has no points; otherwise returns the tightest bounding box of its points |
| Polygons.BoundsOfRectanglePolygon | js/geometry.js:226-233 | the bounds of a well-formed rectangle's polygon are the rectangle itself |
| Polygons.ProjectPolygon | js/geometry.js:293-299 | every point is projected through the transform, in order |
| Polygons.ProjectPointsCompose | js/geometry.js:293-299 | projecting a polygon through a composition is projecting it through each transform in turn |
| Polygons.ProjectPointsInverse | js/geometry.js:293-299 | projecting a polygon through an invertible affine transform and then its inverse restores every point |
| Polygons.Equals | js/geometry.js:301-316 | returns what the source decides: equal lengths, and the other polygon read cyclically from the first occurrence of this polygon's first point matches point for point |
| Polygons.EqualsAsWrittenSound | js/geometry.js:301-316 | whatever `equals` accepts is a rotation of the same cycle of points |
| Polygons.EqualsAsWrittenComplete | js/geometry.js:301-316 | when the first point occurs only once, `equals` accepts every rotation |
| Polygons.ReversalNotEqual | js/geometry.js:301-316 | a polygon of three or more distinct points does not equal itself traversed in the opposite direction |
| Polygons.Rotation | js/geometry.js:311-314 | a rotation by k has the same length and puts point (j + k) mod n at position j |
| Polygons.RotationsAreSameCycle | js/geometry.js:301-316 | every rotation of a point list is the same cycle |
| Polygons.EqualsMissesRotation | js/geometry.js:306-308 | a concrete rotation ([A, B, A, C] against [A, C, A, B]) is the same cycle but `equals` rejects it |
| Polygons.CycleEquals | js/geometry.js:301-316 | the corrected equality: true exactly when the two point lists are the same cycle |
| Polygons.ForPoints | js/geometry.js:318-326 | the callback sees every point with its index, in order |
| Polygons.Edges | js/geometry.js:328-343 | a polygon of two or more points has one edge per point, edge i starting at point i |
| Polygons.EdgeAt | js/geometry.js:335-341 | edge i runs to the next point, and the last edge closes back to the first point |
| Polygons.EdgesChain | js/geometry.js:328-343 | the edges form a closed chain: each ends where the next begins |
| Polygons.ForLines | js/geometry.js:328-343 | the callback sees every edge with its index, the closing edge last |
| Polygons.PolygonContainsPoint | js/geometry.js:282-291 | the answer is true exactly when an odd number of edges cross the horizontal line through the point strictly to its right |
| Polygons.HorizontalCrosses | js/geometry.js:136-144 | a horizontal edge counts as a crossing only on its own line, and then at its start x |
| Polygons.VerticalCrosses | js/geometry.js:136-144 | a vertical edge crosses when the point's y lies in its closed y range and the edge is to the right; with the half-open test the range is half-open |
| Polygons.RectangleEdges | js/geometry.js:226-233 | a rectangle's polygon has exactly its four sides as edges, clockwise from the top |
| Polygons.RectanglePolygonContains | js/geometry.js:282-291 | on a rectangle's polygon the crossing test agrees with the rectangle's `containsPoint` everywhere except on the lines through the top and bottom edges, left of the rectangle |
| Polygons.TopLineCountedInside | js/geometry.js:282-291 | a point left of a rectangle on the line through its top edge is counted inside the rectangle's polygon although the rectangle does not contain it |
| Polygons.HalfOpenRectangleContains | js/geometry.js:282-291 | with the half-open edge test, the crossing count on a rectangle's polygon agrees with the rectangle's `containsPoint` for every point |
| Polygons.PolygonContainsPointHalfOpen | js/geometry.js:282-291 | the corrected `containsPoint`: true exactly when an odd number of edges cross with the half-open test |
| Polygons.Crossing | js/geometry.js:351-354 | the point where an edge crosses a clipping line lies on that line and between the edge's end points |
| Polygons.Interpolate | js/geometry.js:353 | the interpolated coordinate lies between the end values whenever the parameter lies between its end values |
| Polygons.ClipPass | js/geometry.js:345-407 | one clipping pass (top, right, bottom or left) emits each point on the kept side, and an intersection point for every edge that crosses the line, in order |
| Polygons.Clip | js/geometry.js:412-420 | clipping runs the top, right, bottom and left passes in turn |
| Polygons.ClipPrefixInside | js/geometry.js:345-407 | every point a pass emits is on the kept side of its line, and the pass keeps points on the kept side of every other line |
| Polygons.ClipWithin | js/geometry.js:412-420 | every point of a clipped polygon lies in the closed boundary rectangle |
| Polygons.ClipPrefixUnchanged | js/geometry.js:345-407 | a pass leaves points that are all on its kept side unchanged |
| Polygons.ClipInsideUnchanged | js/geometry.js:412-420 | clipping a polygon that already lies inside the boundary returns it unchanged |
| Polygons.ClipPrefixOutside | js/geometry.js:345-407 | a pass over points that are all on the far side emits nothing |
| Polygons.ClipOutsideEmpty | js/geometry.js:412-420 | a polygon entirely beyond one boundary line clips to no points |
| Polygons.ClipStaysOutside | js/geometry.js:345-407 | a pass keeps points beyond another boundary line beyond it |
| Pyramids.LogMultiplier | js/pyramid.js:22-23 | the logarithm of the resolution multiplier √2 is positive |
| Pyramids.MakePyramid | js/pyramid.js:27-42 | the pyramid keeps the image size and its layer count is the one `computeLayers` derives |
| Pyramids.StepsOfPower | js/pyramid.js:31-37 | a side exactly k multiplier steps above the tile size is k steps above it by the logarithm formula |
| Pyramids.StepsCover | js/pyramid.js:31-37 | k steps at least the logarithmic step count make a tile side grown k times cover the side |
| Pyramids.StepsShort | js/pyramid.js:31-37 | fewer steps than the logarithmic step count leave the grown tile side short of the side |
| Pyramids.LayerCountOfPowerSize | js/pyramid.js:31-37 | a square image of side 256·√2^k has exactly k + 1 layers |
| Pyramids.TopLayerCoversImage | js/pyramid.js:31-37 | the tile grown by one multiplier per layer above the first covers the longer image side |
| Pyramids.TopLayerIsNeeded | js/pyramid.js:31-37 | one layer fewer would not cover the longer image side: the layer count is the least that does |
| Pyramids.SmallImageHasNoLayers | js/pyramid.js:31-37 | an image of at most 128 × 128 pixels gets a layer count of 0 or less, so no layer exists |
| Pyramids.LayerForScale | js/pyramid.js:52-56 | a negative scale has no layer (NaN); scale 0 and scales at or above 1 give the first and last layers; every other answer lies between layer 0 and the last layer |
| Pyramids.LevelAtFullScale | js/pyramid.js:54 | the zoom level is never negative and is 0 from scale 1 upwards |
| Pyramids.ScaleForLayer | js/pyramid.js:58-61 | every layer's scale is positive; the last layer is drawn at scale 1 and every lower layer below 1 |
| Pyramids.LayerForScaleMonotone | js/pyramid.js:52-56 | a larger scale never picks a lower layer |
| Pyramids.LayerForScaleOfScaleForLayer | js/pyramid.js:52-61 | the layer chosen for a layer's own scale is that layer |
| Pyramids.UnflooredExtent | js/pyramid.js:94-106 | the extent a tile covers in image pixels, before flooring, is positive |
| Pyramids.TileExtent | js/pyramid.js:63-67 | the extent is the floor of the unfloored extent; it is 256 on the last layer and at least 256 below it |
| Pyramids.TileGridSize | js/pyramid.js:69-73 | no grid exactly when the extent is 0 (division by zero); otherwise each axis has the least whole number of tiles that covers the image |
| Pyramids.GridExistsUpToLastLayer | js/pyramid.js:63-73 | every layer up to the last has a grid |
| Pyramids.TileSourceRectangle | js/pyramid.js:75-81 | the extent × extent square at (extent · column, extent · row), with the layer's floored extent, not clipped to the image |
| Pyramids.SourceTilesAdjoin | js/pyramid.js:75-81 | neighbouring tiles' source rectangles share an edge, with no gap or overlap |
| Pyramids.PointInSourceTile | js/pyramid.js:75-81 | every image point lies in the source rectangle of the tile found by dividing by the extent |
| Pyramids.ClippedDimensions | js/pyramid.js:83-92 | both clipped dimensions are NaN, because a rectangle has no `width` or `height` field |
| Pyramids.DivideNumber | js/pyramid.js:89-90 | dividing a JavaScript number by a positive scale is NaN exactly when the number is |
| Pyramids.CeilNumber | js/pyramid.js:89-90 | the ceiling of a JavaScript number is NaN exactly when the number is |
| Pyramids.TileColumn | js/pyramid.js:94-99 | the column's cell, measured with the unfloored extent, contains x |
| Pyramids.TileRow | js/pyramid.js:101-106 | the row's cell, measured with the unfloored extent, contains y |
| Pyramids.TileColumnMonotone | js/pyramid.js:94-106 | a larger coordinate never gives a smaller column or row |
| Pyramids.ClampIndex | js/pyramid.js:112-121 | the clamped index is never negative, is at most the last index of a non-empty grid, and is unchanged when already in range |
| Pyramids.ForTilesSpan | js/pyramid.js:108-121 | the clamped column and row range lies inside the tile grid |
| Pyramids.ForTiles | js/pyramid.js:108-128 | the callback visits the clamped range row by row, each row from left to right |
| Pyramids.RowMajorOnce | js/pyramid.js:123-127 | every cell in the range is visited exactly once and no cell outside it is visited |
| Pyramids.ForTilesNonEmpty | js/pyramid.js:108-128 | a well-formed rectangle visits at least one tile |
| PyPyramids.InitializeLayerCount | tiler/tiler-v02/tiled_image/pyramid.py:30-37 | raises exactly when a logarithm is taken of a non-positive number or the multiplier is 1 (division by log 1 = 0); the error is the one Python raises first |
| PyPyramids.NewPyramid | tiler/tiler-v02/tiled_image/pyramid.py:22-28 | construction succeeds exactly when `initializeLayerCount` does, and the pyramid keeps the sizes and multiplier it was given |
| PyPyramids.DefaultPyramid | tiler/tiler-v02/tiled_image/pyramid.py:22-28 | with the default 256 × 256 tile and multiplier √2, construction succeeds exactly when both image sides are positive |
| PyPyramids.LayerCountCoversImage | tiler/tiler-v02/tiled_image/pyramid.py:30-37 | the top layer's tile, grown by the multiplier once per layer, covers the image on both axes, and one layer fewer falls short on at least one axis |
| PyPyramids.AxisCovers | tiler/tiler-v02/tiled_image/pyramid.py:35-36 | at least the logarithmic step count of steps makes the grown tile cover that axis |
| PyPyramids.AxisShort | tiler/tiler-v02/tiled_image/pyramid.py:35-36 | fewer steps than the logarithmic step count leave the grown tile short on that axis |
| PyPyramids.ScaleForLayer | tiler/tiler-v02/tiled_image/pyramid.py:39-42 | every layer's scale is positive and the last layer is drawn at scale 1 |
| PyPyramids.LayerForScale | tiler/tiler-v02/tiled_image/pyramid.py:44-48 | raises a math domain error exactly when the scale is not positive; otherwise the layer is never negative |
| PyPyramids.LayerForScaleOfScaleForLayer | tiler/tiler-v02/tiled_image/pyramid.py:39-48 | the layer chosen for a layer's own scale is that layer |
| PyPyramids.LayerForScaleBeyondLast | tiler/tiler-v02/tiled_image/pyramid.py:44-48 | a scale of at least the multiplier yields a layer past the last one: there is no upper clamp |
| PyPyramids.TileExtent | tiler/tiler-v02/tiled_image/pyramid.py:50-56 | each side of the extent is the truncated tile side grown by the multiplier per layer below the last, and the last layer's extent is the tile size |
| PyPyramids.TruncatedSide | tiler/tiler-v02/tiled_image/pyramid.py:55-56 | the truncated side is the integer part of the grown tile side |
| PyPyramids.TileGridSize | tiler/tiler-v02/tiled_image/pyramid.py:58-63 | raises a float division by zero exactly when an extent side is 0; otherwise each count is the least whole number of tiles covering that image side |
| PyPyramids.GridAxis | tiler/tiler-v02/tiled_image/pyramid.py:62-63 | the count covers the image side and one fewer would not |
| PyPyramids.AxisExtent | tiler/tiler-v02/tiled_image/pyramid.py:69 | the untruncated extent is positive and equals the tile side on the last layer |
| PyPyramids.TileColumn | tiler/tiler-v02/tiled_image/pyramid.py:65-70 | the column's cell, measured with the untruncated extent, contains x |
| PyPyramids.TileRow | tiler/tiler-v02/tiled_image/pyramid.py:72-77 | the row's cell, measured with the untruncated extent, contains y |
| PyPyramids.TileColumnRowMonotone | tiler/tiler-v02/tiled_image/pyramid.py:65-77 | a larger coordinate never gives a smaller column or row |
| Viewports.MinimumScale | js/viewport.js:102-106 | the minimum scale is positive, fits the whole scene in the view, and fills the view along at least one axis |
| Viewports.VisibleSize | js/viewport.js:102-107 | the scene area visible at the minimum scale holds the whole scene and matches it along at least one axis |
| Viewports.Limits | js/viewport.js:111-115 | the limits for the view centre form a well-formed rectangle inside the scene |
| Viewports.LimitsInsetScene | js/viewport.js:111-115 | when the scene at this scale is larger than the view, the centre may move to within half a view extent of each scene edge |
| Viewports.LimitsAtMinimumScale | js/viewport.js:111-115 | at or below the minimum scale the limits collapse to the scene's centre point |
| Viewports.LimitsByHalfExtents | js/viewport.js:111-115 | the limits are the scene rectangle inset by half the view's extent in scene units, horizontally and vertically |
| Viewports.CollapsedInset | js/geometry.js:212-219 | an inset of at least half of both extents collapses a rectangle to its centre point |
| Viewports.ViewTransform | js/viewport.js:117-120 | the scene-to-view transform is affine |
| Viewports.ViewTransformComposes | js/viewport.js:117-120 | the view transform is the composition translate(view centre) ∘ scale ∘ rotate ∘ translate(−centre), in that order |
| Viewports.ViewTransformEntries | js/viewport.js:117-120 | the composed matrix has the closed form of a scaled rotation about the centre, moved to the middle of the view |
| Viewports.ViewTransformInvertible | js/viewport.js:117-121 | the determinant of the view transform is scale², so it has an inverse for every non-zero scale |
| Viewports.ViewTransformCentersView | js/viewport.js:117-120 | the view transform takes the centre to the middle of the view |
| Viewports.SceneTransformUndoesView | js/viewport.js:121 | the scene transform and the view transform undo each other on every point |
| Viewports.SceneTransformFindsCenter | js/viewport.js:121 | the scene transform takes the middle of the view back to the centre |
| Viewports.ComputeTransforms | js/viewport.js:117-121 | returns the composed view transform and its inverse |
| Viewports.Recompute | js/viewport.js:111-125 | `update` computes the limits, pins the centre inside them, then computes both transforms, the view polygon in scene coordinates and its clipping to the scene rectangle |
| Viewports.ClampScale | js/viewport.js:169 | the clamped scale is at most 1 and at least the minimum scale, is the requested scale when that is in range, and is the minimum scale when the request is below it |
| Viewports.ClampScaleIdempotent | js/viewport.js:169 | clamping twice is clamping once |
| Viewports.ZoomInThenOut | js/viewport.js:206-219 | zooming in one step and back out restores the scale when no clamping intervenes |
| Viewports.NormalizeRotation | js/viewport.js:178-179 | a negative rotation is moved up by one full turn (2π), a non-negative one is kept; a rotation within one turn either side ends up in [0, 2π) |
| Viewports.PanTarget | js/viewport.js:245-248 | the centre moves by the mouse's displacement in view units divided by the scale, in the opposite direction |
| Viewports.PanToStartReturns | js/viewport.js:242-253 | panning back to the starting point restores the centre the pan started from |
| Viewports.Viewport.constructor | js/viewport.js:55-109 | the new viewport is valid; its scale and minimum scale are the minimum scale, it is not rotated or panning, and its centre is the middle of the visible area pinned to the limits |
| Viewports.Viewport.Update | js/viewport.js:111-125 | keeps the scale, rotation and pan state, pins the centre to the current limits, and restores every derived field |
| Viewports.Viewport.SetScale | js/viewport.js:168-175 | a request that clamps to the current scale changes nothing; otherwise the scale becomes the clamped request, the centre is re-pinned and one `changed` is broadcast |
| Viewports.Viewport.SetRotation | js/viewport.js:177-185 | a rotation that normalises to the current one changes nothing; otherwise the rotation is set, the centre kept, and one `changed` is broadcast |
| Viewports.Viewport.CenterOn | js/viewport.js:189-194 | centring on the current centre changes nothing; otherwise the centre becomes the target pinned to the limits and one `changed` is broadcast |
| Viewports.Viewport.CanZoomIn | js/viewport.js:201-203 | zooming in is possible exactly while the scale is below 1 |
| Viewports.Viewport.CanZoomOut | js/viewport.js:211-213 | zooming out is possible exactly while the scale is above the minimum |
| Viewports.Viewport.ZoomIn | js/viewport.js:206-209 | below scale 1 the scale is multiplied by √2 and clamped; when it moves, rotation and pan state are kept, the centre is re-pinned into the new scale's limits, and one `changed` is broadcast; otherwise nothing changes |
| Viewports.Viewport.ZoomOut | js/viewport.js:216-219 | at or above the minimum scale the scale is divided by √2 and clamped; when it moves, rotation and pan state are kept, the centre is re-pinned into the new scale's limits, and one `changed` is broadcast; otherwise nothing changes |
| Viewports.Viewport.ZoomReset | js/viewport.js:221-223 | the scale returns to the minimum; when it moves, rotation and pan state are kept, the centre is re-pinned into the new scale's limits, and one `changed` is broadcast; otherwise nothing changes |
| Viewports.Viewport.StartPan | js/viewport.js:233-236 | records the pan's start point and the current centre, changing nothing else |
| Viewports.Viewport.IsPanning | js/viewport.js:238-240 | the viewport is panning exactly while a pan start is recorded |
| Viewports.Viewport.Recenter | js/viewport.js:191-193 | the centre becomes the target pinned to the limits, the derived view is recomputed, scale, rotation and pan are kept, and one `changed` is broadcast |
| Viewports.Viewport.Pan | js/viewport.js:242-253 | with no pan started nothing changes; otherwise the centre moves to the pan target pinned to the limits and one `changed` is broadcast |
| Viewports.Viewport.EndPan | js/viewport.js:255-258 | clears the pan state and changes nothing else |
| Viewports.Viewport.CancelPan | js/viewport.js:260-265 | with no pan started the model reports a failure and leaves the state unchanged (the source sets the centre to null and then throws; see Left out); otherwise the centre returns to the pan's starting centre, pinned, only the pan centre is cleared, and one `changed` is broadcast |
| TiledImages.PadText | js/tiled_image.js:22-27 | the padded text is as long as the width or the text, whichever is longer, ends with the text, and is zeros before it |
| TiledImages.Pad | js/tiled_image.js:22-27 | `pad` prefixes the number's decimal text with zeros up to the width |
| TiledImages.PadKeepsValue | js/tiled_image.js:22-27 | padding never changes the decimal value the text denotes |
| TiledImages.PadFour | js/tiled_image.js:34-35 | a number below 10000 pads to exactly four digits that read back as the number |
| TiledImages.MakeTile | js/tiled_image.js:33-43 | the tile keeps its layer, column and row, and its URL is built from them |
| TiledImages.TileUrl | js/tiled_image.js:34-35 | a tile URL starts with the image URL and "/layer", ends in ".jpg", and is at least 28 characters longer than the image URL |
| TiledImages.TileUrlFields | js/tiled_image.js:34-35 | a tile URL is the image URL, "/layer", four layer digits, "/tile", four row digits, "n", four column digits and ".jpg", each field reading back as its number |
| TiledImages.TileUrlInjective | js/tiled_image.js:34-35 | for layers, rows and columns below 10000, different tiles of one image have different URLs |
| TiledImages.BlankGrid | js/tiled_image.js:100-108 | the blank grid has the given rows and columns and every slot is empty |
| TiledImages.EmptyGrid | js/tiled_image.js:100-108 | the loop builds exactly the blank grid: the given rows and columns with every slot empty |
| TiledImages.FillCellsAt | js/tiled_image.js:138-144 | after drawing a list of cells, a slot holds its tile exactly when its cell was drawn, and is unchanged otherwise |
| TiledImages.FillCellKeepsValid | js/tiled_image.js:139-143 | filling a cell keeps the grid's shape and keeps every slot holding the tile of its own cell; a filled slot is not replaced |
| TiledImages.FilledCellStays | js/tiled_image.js:139-140 | a slot that already holds its tile is left as it is |
| TiledImages.JsRound | js/tiled_image.js:146-147 | `Math.round` gives the integer within half a unit of x, rounding halves up |
| TiledImages.ShownTiles | js/tiled_image.js:149 | the shown list holds one tile per drawn cell, in drawing order |
| TiledImages.HideEvents | js/tiled_image.js:152-156 | hiding emits one hide per shown tile, in order |
| TiledImages.GeneratedOnlyForEmptySlots | js/tiled_image.js:138-144 | over a list of distinct cells, a tile is generated exactly when its cell is drawn and its slot was empty |
| TiledImages.GeneratedInCell | js/tiled_image.js:138-144 | drawing one cell generates a tile exactly when that cell's slot is empty |
| TiledImages.TilePosition | js/tiled_image.js:146-147 | each pixel coordinate of a tile is the exact position `(cell - origin) * size + offset` rounded to within half a pixel |
| TiledImages.CellEvents | js/tiled_image.js:138-150 | drawing one cell ends with drawing its tile, every event concerns that cell's tile, and a tile is generated exactly when the slot was empty |
| TiledImages.DrawEvents | js/tiled_image.js:138-150 | drawing a list of cells draws each of them once and generates at most one tile per cell, all in this layer |
| TiledImages.CellEventsMakeOnlyForEmpty | js/tiled_image.js:138-144 | drawing a cell generates nothing when its slot is already filled |
| TiledImages.RedrawMakesNothing | js/tiled_image.js:138-144 | drawing the same cells again generates no new tile: the tile cache is reused |
| TiledImages.NoEmptySlotNoGenerated | js/tiled_image.js:138-144 | drawing cells whose slots are all filled generates nothing |
| TiledImages.FillCellsKeepsOutside | js/tiled_image.js:138-144 | drawing never grows the grid: a cell outside it stays outside |
| TiledImages.PositionIgnoresOrigin | js/tiled_image.js:118-122 | a tile's position is its cell times the scaled tile size minus the visible rectangle's corner at the desired scale, rounded; the origin cancels out |
| TiledImages.ScaledTileSizeIsExtent | js/tiled_image.js:129 | the scaled tile size is the layer's unfloored tile extent at the desired scale |
| TiledImages.GridAtLeastOne | js/pyramid.js:69-73 | a covering grid of a non-empty image has at least one column and one row |
| TiledImages.VisitsInSpan | js/tiled_image.js:133-135 | every visited cell lies in the clamped span and no cell is visited twice |
| TiledImages.Layer.constructor | js/tiled_image.js:80-108 | a new layer is valid, keeps its URL, number and pyramid, has shown nothing and its grid is the blank grid of its rows and columns |
| TiledImages.Layer.ComputeOrigin | js/tiled_image.js:110-116 | the origin is the top-left cell of the clamped span and lies inside the grid |
| TiledImages.Layer.CellsInGrid | js/tiled_image.js:133-135 | every cell `forTiles` visits lies inside the layer's grid |
| TiledImages.Layer.DrawTile | js/tiled_image.js:138-150 | the cell's slot is filled if it was empty, the tile is appended to the shown list, and the cell's events are emitted |
| TiledImages.Layer.CachedTile | js/tiled_image.js:139-144 | returns the cell's tile, generating and caching it only when its slot was empty |
| TiledImages.Layer.Hide | js/tiled_image.js:152-156 | every shown tile is hidden in order and the shown list is emptied; the cache is kept |
| TiledImages.Layer.DrawCells | js/tiled_image.js:133-135 | drawing a list of cells fills their slots, appends their tiles to the shown list and emits their events in order |
| TiledImages.Layer.Draw | js/tiled_image.js:124-136 | hides what was shown, then draws exactly the cells `forTiles` visits for the visible rectangle: the shown list is those tiles |
| TiledImages.Layer.ShowsTilesIffDrawn | js/tiled_image.js:217-227 | after a redraw with a well-formed visible rectangle, a layer shows tiles exactly when it was drawn rather than hidden |
| TiledImages.DrawsLayer | js/tiled_image.js:222 | a layer is drawn exactly when the scale is not negative and its index is at most the layer chosen for the scale |
| TiledImages.DrawsLayerZoomIn | js/tiled_image.js:217-227 | zooming in never stops a layer from being drawn, and at scale 1 or more every layer is drawn |
| TiledImages.ViewBounds | js/tiled_image.js:125 | `viewport.getView().bounds()` is a well-formed rectangle holding every corner of the view |
| TiledImages.RegisteredRelaysToChanged | js/tiled_image.js:182-185 | after registration, a "changed" or "zoomed" broadcast makes its earlier calls and then calls the image's `changed` with the same arguments; other selectors are unaffected |
| TiledImages.TiledImage.constructor | js/tiled_image.js:172-185 | a new tiled image keeps its URL, pyramid and viewport, has no layers yet, and is registered with the viewport's broadcaster as a "changed" listener and as a "zoomed" listener relayed to `changed`; nothing is called |
| TiledImages.TiledImage.CreateLayers | js/tiled_image.js:202-211 | creates one fresh layer per pyramid layer, each showing nothing with the blank grid of its rows and columns |
| TiledImages.TiledImage.Draw | js/tiled_image.js:217-227 | with the view's bounds and the scale read from the viewport, every layer up to the one chosen for the scale is drawn and every layer above it hidden |
| TiledImages.TiledImage.DrawLayers | js/tiled_image.js:217-227 | the loop of `draw`: for given view bounds and scale, each layer is drawn or hidden as `layerForScale` decides, in order |
| TiledImages.TiledImage.Redraw | js/tiled_image.js:221-225 | one layer is drawn or hidden as told |
| TiledImages.TiledImage.Changed | js/tiled_image.js:213-215 | before `generate`, for a pyramid with layers, fails with a `TypeError` and changes nothing; otherwise redraws every layer for the viewport's current view and scale |
| TiledImages.TiledImage.Generate | js/tiled_image.js:187-200 | generating records the pyramid's size, creates the layers and draws them for the viewport's view: each layer ends in the state that drawing it from the blank grid, with nothing shown and no events yet, produces; the drawn layers show the visited tiles and the others show nothing |
| Observers.IndexOf | js/observers.js:73 | `indexOf` gives -1 exactly when no stored listener is the very function given, and otherwise the first position of one that is |
| Observers.RemoveAt | js/observers.js:78 | `splice(index, 1)` removes exactly the element at the index and keeps the others in order |
| Observers.RemoveAtMultiset | js/observers.js:78 | removing at an index takes exactly one occurrence of that element out of the list |
| Observers.Deliveries | js/observers.js:111-113 | a broadcast makes one call per listener, in list order, each with the same argument list |
| Observers.AddRemoveRoundTrip | js/observers.js:40-80 | adding a function the selector does not have and then removing it finds it at the end and restores the list |
| Observers.Broadcaster.constructor | js/observers.js:126-130 | a new broadcaster has no listeners and has made no calls |
| Observers.Broadcaster.AddListener | js/observers.js:40-61 | appends to the selector's list (creating it if missing) the function, or a wrapper calling the named method, by default the selector's name |
| Observers.Broadcaster.HasListener | js/observers.js:84-93 | true exactly when the very function given is in the selector's list; an object is never found because only its wrapper was stored |
| Observers.Broadcaster.RemoveListener | js/observers.js:66-80 | returns whether the listener was there; if so its first occurrence is removed from the selector's list, otherwise nothing changes |
| Observers.Broadcaster.SendBroadcast | js/observers.js:97-114 | calls every listener of the selector in order with the arguments followed by the source (by default the broadcaster itself); the listeners are unchanged |
| Observers.Broadcaster.Broadcast | js/observers.js:118-120 | `broadcast` is `sendBroadcast` with the remaining arguments and the broadcaster as source |
| Paths.MakeInvalidPathError | js/paths.js:37-41 | the error is named "InvalidPath" and its message is "Invalid Path: " followed by the path |
| Paths.Tokens | js/paths.js:56 | `split("/")` gives at least one piece and no piece contains a slash |
| Paths.JoinedTokens | js/paths.js:56 | joining the pieces of a split with "/" gives back the original string |
| Paths.TokensJoined | js/paths.js:56 | splitting slash-free pieces joined with "/" gives back the pieces |
| Paths.LeadingRun | js/paths.js:59-63 | the first loop keeps exactly the leading empty pieces: all before the run are empty and the next one is not |
| Paths.DropEmptyAppend | js/paths.js:66-71 | one more piece is kept exactly when it is not empty |
| Paths.DropEmptyKeeps | js/paths.js:66-71 | the second loop keeps only non-empty pieces, each from the input |
| Paths.SplitPathShape | js/paths.js:55-74 | `split` returns at least one segment, none containing a slash, and no empty segment after a non-empty one |
| Paths.SplitOfNormal | js/paths.js:55-74 | splitting segments that are already in normal form keeps them unchanged |
| Paths.Split | js/paths.js:55-74 | keeps the leading empty pieces (the leading slashes) and then only the non-empty pieces, in order |
| Paths.KeepNonEmpty | js/paths.js:66-71 | the second loop appends the non-empty pieces from its start index on |
| Paths.SplitOfNormalized | js/paths.js:95-97 | a normalized path has the same segments as the path |
| Paths.NormalizeIdempotent | js/paths.js:95-97 | normalizing twice is normalizing once |
| Paths.Normalize | js/paths.js:95-97 | `normalize` joins the path's segments with "/" |
| Paths.SegmentsStep | js/paths.js:80-89 | each argument adds its own segments, a lone "/" counting as the empty path |
| Paths.PushAll | js/paths.js:86-88 | the inner loop appends every token in order |
| Paths.Join | js/paths.js:78-91 | gathers every argument's segments in order and normalizes their join |
| Paths.Parent | js/paths.js:101-114 | `parent` as a value: fails on the root paths, otherwise drops the last segment |
| Paths.ParentFails | js/paths.js:101-106 | `parent` fails exactly on paths that split to the empty path or the root, in particular "" and "/" |
| Paths.RootSplits | js/paths.js:55-74 | "" splits to one empty segment and "/" to two |
| Paths.SplitOfJoined | js/paths.js:55-74 | splitting the join of normal, slash-free segments gives them back |
| Paths.ParentJoinRoundTrip | js/paths.js:78-114 | for a path with a non-root parent, joining its parent with its last segment gives the normalized path |
| Paths.ParentThenLast | js/paths.js:101-114 | the parent's segments followed by the last segment are the path's segments |
| Paths.ParentSegments | js/paths.js:107-113 | the parent splits to the path's segments without the last one, "/" standing for the root |
| Packages.Keys | js/packages.js:54 | the keys of an object's own properties, in insertion order |
| Packages.Assign | js/packages.js:56 | after `result[name] = value` the key reads back the new value and every other key reads as before |
| Packages.ForInKeys | js/packages.js:54 | `for (name in object)` lists the own keys first, in insertion order, then inherited keys not shadowed by an own one |
| Packages.Unshadowed | js/packages.js:54 | no inherited key that an own key shadows is listed |
| Packages.Create | js/packages.js:48-61 | the new object inherits from the prototype and owns exactly the initial object's own properties, or none |
| Packages.OwnLookup | js/packages.js:55-56 | in an object with distinct keys each key reads back its own value |
| Packages.CopyStep | js/packages.js:54-58 | copying one more property of an object with distinct keys extends the copy by that property |
| Packages.NotAssigned | js/packages.js:56 | assigning a new key appends it at the end |
| Packages.OwnNames | js/packages.js:80-89 | a name is exported exactly when it is an own key other than "name" |
| Packages.Names | js/packages.js:80-89 | `names` lists the own keys except "name", in order |
| Packages.OwnPrefixAll | js/packages.js:83-87 | the loop's result after every key is the exported name list |
| Packages.Declaration | js/packages.js:108 | one declaration binds the name to the package's member of that name |
| Packages.Declarations | js/packages.js:106-109 | one declaration per exported name, in order |
| Packages.Exports | js/packages.js:99-112 | fails with "Package name not set" when the name is null, and otherwise joins the declarations of all exported names with ";" |
| Packages.NewPackageExports | js/packages.js:130-145 | a package opened and then given distinct members exports exactly one declaration per member, in order |
| Packages.NamedPackage | js/packages.js:99-112 | a package whose own keys are its name and then its members exports one declaration per member |
| Packages.FreshAssignments | js/packages.js:56 | assigning keys an object does not have appends them in order |
| Packages.NoNameKeys | js/packages.js:84 | without a "name" key every own key is exported |
| Packages.Registry.constructor | js/packages.js:31 | a new registry holds no packages |
| Packages.Registry.InPackage | js/packages.js:130-145 | finds the named package or creates one whose own "name" is the name, runs the body's assignments on it, registers it and returns it |
| Packages.Registry.Imports | js/packages.js:158-170 | fails with the first undefined package or failing export, otherwise joins the packages' exports with ";" |
| Packages.Registry.ImportsFailureSticks | js/packages.js:161-168 | once one package fails, the whole import fails with that error |
| Packages.Registry.ImportsFailure | js/packages.js:158-170 | imports fail exactly when some named package is undefined or has no name; otherwise they give one export string per package |
| Controls.GeneratedId | js/controls.js:96 | a generated id is the class name, an underscore and then only digits |
| Controls.GeneratedIdInjective | js/controls.js:92-97 | generated ids never collide: the same id comes only from the same class name and counter |
| Controls.TrailingAfterUnderscore | js/controls.js:96 | the counter's digits after the underscore are exactly the trailing digits of the id |
| Controls.IdCounters.constructor | js/controls.js:31 | the shared counters start empty |
| Controls.RemoveFirst | js/controls.js:132-138 | the detach loop removes the first occurrence of the child, if any: one fewer element and one fewer copy of the child, otherwise no change |
| Controls.AddDetachRoundTrip | js/controls.js:103-138 | adding a control not yet contained and then detaching it restores the contents list |
| Controls.FirstAt | js/controls.js:133-137 | removing the first occurrence at its index splices out exactly that element |
| Controls.IsOverContains | js/controls.js:230-236 | `isOver` is the half-open containment of the point in the element's rectangle |
| Controls.AssignedId | js/controls.js:80-98 | the id `getId` settles on is never empty, and the counters change only by advancing the class's own counter by one |
| Controls.AssignedIdStable | js/controls.js:80-84 | asking for the id again returns the same id and advances no counter |
| Controls.SuccessiveIdsDiffer | js/controls.js:93-97 | two controls of one class without ids that take counter ids one after the other get different ids |
| Controls.Control.constructor | js/controls.js:49-70 | a new control has class name "Control", no id, no DOM element or contents, no parent and no children |
| Controls.Control.GetId | js/controls.js:80-98 | a set id is returned unchanged; otherwise a non-empty option id is adopted; otherwise the class's counter names the id and is advanced by one; the id is then set, never empty, and agrees with `AssignedId` |
| Controls.Control.Create | js/controls.js:187-198 | an already generated control throws "Control already generated: " followed by the id `getId` settles on, and keeps its elements; otherwise the element `generate` returns is kept, the contents element defaults to it, and the id is assigned exactly when `generate` asks for it (the base `generate` does) |
| Controls.Control.Remove | js/controls.js:203-211 | a generated control forgets its element and contents element; otherwise nothing changes |
| Controls.Control.Add | js/controls.js:103-115 | a child with a parent throws "control added twice" and nothing changes; otherwise the child is appended to the contents (created if missing) and gets this parent, and this control's own fields are kept; an ungenerated parent generates nothing; a generated parent creates the child, which throws "Control already generated: " with the child's id when the child was generated already |
| Controls.Control.DetachedFrom | js/controls.js:150-156 | the control forgets its DOM element and its parent, and nothing else |
| Controls.Control.DetachChild | js/controls.js:124-143 | the child's generated element is removed first; then with no contents list the host throws a TypeError, leaving the child's parent; otherwise the child's first occurrence is removed and its parent cleared; the child's id and this control's own fields are kept |
| Controls.Control.Detach | js/controls.js:144-146 | without a parent a TypeError and nothing changes; otherwise the parent detaches this control as `DetachChild` says, with this control's id kept and the parent's own fields kept |
| NumberTexts.DigitChar | js/tiled_image.js:23 | each digit below 10 has a digit character with that value |
| NumberTexts.Decimal | js/tiled_image.js:23 | a natural number's text is non-empty, all digits, and has no leading zero |
| NumberTexts.DecimalRoundTrip | js/tiled_image.js:23 | reading a number's decimal text gives back the number |
| NumberTexts.DecimalWidth | js/tiled_image.js:23-25 | a number below 10^k has at most k digits |
| NumberTexts.NumberText | js/tiled_image.js:23 | `"" + number` starts with a minus sign exactly when the number is negative, and the digits after it read back as the number's magnitude |
| NumberTexts.DecimalInjective | js/controls.js:96 | different numbers have different decimal texts |
| PyGeometry.Given | tiler/tiler-v02/geometry/rectangle.py:30-35 | an omitted constructor argument defaults to 0, a given one is kept |
| PyGeometry.PointEquals | tiler/tiler-v02/geometry/point.py:34-40 | `__eq__` is true exactly when the other operand is a `Point` with both coordinates equal |
| PyGeometry.PointNotEquals | tiler/tiler-v02/geometry/point.py:42-44 | `__ne__` is exactly the negation of `__eq__` |
| PyGeometry.PointProject | tiler/tiler-v02/geometry/point.py:28-32 | projecting a point through a transform applies the transform's matrix |
| PyGeometry.DefaultPoint | tiler/tiler-v02/geometry/point.py:23-26 | the default point is the origin, which any transform sends to its translation column |
| PyGeometry.DimensionsEquals | tiler/tiler-v02/geometry/dimensions.py:30-36 | `__eq__` is true exactly when the other operand is a `Dimensions` with equal width and height |
| PyGeometry.DimensionsNotEquals | tiler/tiler-v02/geometry/dimensions.py:38-40 | `__ne__` is exactly the negation of `__eq__` |
| PyGeometry.DefaultDimensions | tiler/tiler-v02/geometry/dimensions.py:25-28 | the default dimensions are 0 × 0, the size of the default rectangle |
| PyGeometry.AsMatrixInjective | tiler/tiler-v02/geometry/transform.py:20-24 | the nine-entry list and the 3 × 3 matrix determine each other |
| PyGeometry.NewTransform | tiler/tiler-v02/geometry/transform.py:28-35 | `Transform()` and `makeIdentity` give the identity matrix |
| PyGeometry.MakeTranslate | tiler/tiler-v02/geometry/transform.py:37-42 | the same translation matrix as the viewer's |
| PyGeometry.MakeScale | tiler/tiler-v02/geometry/transform.py:44-49 | the same scaling matrix as the viewer's |
| PyGeometry.MakeRotate | tiler/tiler-v02/geometry/transform.py:51-58 | the same rotation matrix as the viewer's |
| PyGeometry.Project | tiler/tiler-v02/geometry/transform.py:62-69 | the tiler's projection of a point is the viewer's projection through the same nine entries |
| PyGeometry.IdentityAndTranslate | tiler/tiler-v02/geometry/transform.py:28-42 | the identity leaves points in place and a translation adds its offsets |
| PyGeometry.FromMatrix | tiler/tiler-v02/geometry/transform.py:76-87 | a result list holds exactly the given matrix's nine entries |
| PyGeometry.Compose | tiler/tiler-v02/geometry/transform.py:71-89 | composition is the viewer's matrix product |
| PyGeometry.ComposeProject | tiler/tiler-v02/geometry/transform.py:62-89 | projecting through `a.compose(b)` is projecting through b and then a |
| PyGeometry.ComposeTranslations | tiler/tiler-v02/geometry/transform.py:37-89 | composing two translations translates by the summed offsets |
| PyGeometry.Inverse | tiler/tiler-v02/geometry/transform.py:91-111 | with float entries, raises a division by zero exactly when the determinant is 0, and otherwise gives the viewer's inverse matrix |
| PyGeometry.InverseProject | tiler/tiler-v02/geometry/transform.py:91-111 | for an invertible affine transform with float entries, the inverse undoes projection in both orders |
| PyGeometry.IntegerInverse | tiler/tiler-v02/geometry/transform.py:91-111 | with integer entries, Python 2's `/` floors each entry; the result still has nine entries |
| PyGeometry.FloorDivide | tiler/tiler-v02/geometry/transform.py:99-109 | Python 2 integer division gives the floor of the exact quotient |
| PyGeometry.IntegerScaleInverse | tiler/tiler-v02/geometry/transform.py:91-111 | the integer inverse of the scale (2, 2) has a zero linear part, so it sends every point to the origin |
| PyGeometry.IntegerCenter | tiler/tiler-v02/geometry/rectangle.py:63-65 | with integer edges, each coordinate of `getCenter` is the exact midpoint rounded down: 2c ≤ left + right < 2c + 2 |
| PyGeometry.IntegerCenterAgainstExact | tiler/tiler-v02/geometry/rectangle.py:63-65 | the integer centre equals the exact centre iff the edge sum is even, and is otherwise half a unit below it |
| PyGeometry.IntegerCenterOfOddSquare | tiler/tiler-v02/geometry/rectangle.py:63-65 | `Rectangle(0, 0, 5, 5).getCenter()` is (2, 2), while the exact centre is (2.5, 2.5) |
| PyGeometry.TransformEquals | tiler/tiler-v02/geometry/transform.py:115-119 | `__eq__` is true exactly when the other operand is a `Transform` with the same matrix list |
| PyGeometry.TransformNotEquals | tiler/tiler-v02/geometry/transform.py:121-123 | `__ne__` is exactly the negation of `__eq__` |
| PyGeometry.RectangleEquals | tiler/tiler-v02/geometry/rectangle.py:111-116 | `__eq__` is true exactly when the other operand is a `Rectangle` with the same four edges |
| PyGeometry.RectangleNotEquals | tiler/tiler-v02/geometry/rectangle.py:118-120 | `__ne__` is exactly the negation of `__eq__` |
| PyGeometry.MovedTo | tiler/tiler-v02/geometry/rectangle.py:41-48 | moving puts the top-left corner at the point and keeps the size |
| PyGeometry.Resized | tiler/tiler-v02/geometry/rectangle.py:58-61 | resizing keeps the top-left corner and sets the size |
| PyGeometry.Rectangle.constructor | tiler/tiler-v02/geometry/rectangle.py:30-35 | the edges are the given values, each defaulting to 0 |
| PyGeometry.Rectangle.SetTopLeft | tiler/tiler-v02/geometry/rectangle.py:41-48 | the rectangle is moved in place so its top-left corner is the point, its size unchanged |
| PyGeometry.Rectangle.SetDimensions | tiler/tiler-v02/geometry/rectangle.py:58-61 | the rectangle is resized in place, its top-left corner unchanged |
| PyGeometry.MoveBack | tiler/tiler-v02/geometry/rectangle.py:41-48 | moving away and back to the old corner restores the rectangle |
| PyGeometry.Contains | tiler/tiler-v02/geometry/rectangle.py:67-72 | for a well-formed other rectangle, `contains` holds exactly when both its corners lie in this one |
| PyGeometry.Overlaps | tiler/tiler-v02/geometry/rectangle.py:74-79 | for well-formed rectangles, `overlaps` holds exactly when their intersection is well-formed |
| PyGeometry.ContainsPoint | tiler/tiler-v02/geometry/rectangle.py:81-84 | `containsPoint` is the closed test, the viewer's `InClosed` |
| PyGeometry.ProjectRectangle | tiler/tiler-v02/geometry/rectangle.py:86-91 | the result's top-left and bottom-right corners are the projected top-left and bottom-right corners, in that order |
| PyGeometry.Inset | tiler/tiler-v02/geometry/rectangle.py:93-98 | the centre is kept and each side shrinks by twice the inset, with no clamping |
| PyGeometry.Intersect | tiler/tiler-v02/geometry/rectangle.py:100-104 | a point lies in the intersection exactly when it lies in both rectangles |
| PyGeometry.Extend | tiler/tiler-v02/geometry/rectangle.py:106-109 | the result contains both rectangles, and every rectangle containing both contains it |
| PyGeometry.ContainsIffSubset | tiler/tiler-v02/geometry/rectangle.py:67-72 | for a well-formed other rectangle, `contains` holds exactly when every point of it lies in this one, exactly when both its corners do |
| PyGeometry.ContainsPointClosed | tiler/tiler-v02/geometry/rectangle.py:81-84 | the tiler's `containsPoint` is closed on all four edges, unlike the viewer's half-open test, which it extends by exactly the right and bottom edges |
| PyGeometry.OverlapsSymmetric | tiler/tiler-v02/geometry/rectangle.py:74-79 | overlap does not depend on argument order |
| PyGeometry.OverlapsIffCommonPoint | tiler/tiler-v02/geometry/rectangle.py:74-79 | well-formed rectangles overlap exactly when they share a point, exactly when their intersection is well formed |
| PyGeometry.IntersectMeet | tiler/tiler-v02/geometry/rectangle.py:100-104 | the intersection is symmetric, holds exactly the common points, lies in both, and holds every rectangle both contain |
| PyGeometry.ExtendJoin | tiler/tiler-v02/geometry/rectangle.py:106-109 | the extension is symmetric, contains both, and lies in every rectangle containing both (the smallest such) |
| PyGeometry.InsetUnclamped | tiler/tiler-v02/geometry/rectangle.py:93-98 | the inset keeps the centre, shrinks each side by twice the inset, is undone by the opposite inset, and, unlike the viewer's, is not clamped |
| PyGeometry.ProjectRectangleComposes | tiler/tiler-v02/geometry/rectangle.py:86-91 | projecting a rectangle through a composition is projecting through each transform in turn; the identity keeps it and a translation moves it |

## Left out

- Floating point: all arithmetic is on exact reals. Where the source would produce NaN or Infinity, the model returns `None` or `Failure` (a zero determinant, a zero tile extent, the logarithm of a negative scale) or, in `Pyramids.ClippedDimensions`, a `JsNumber` that may be NaN. Rounding errors and IEEE-dependent values (such as the layer chosen for one particular scale) are not modelled.
- `Math.log`, `Math.sqrt`, `Math.pow` with a real exponent, `Math.cos`, `Math.sin` and `Math.PI` are a parameter with a few stated laws, not computed; integer powers are computed exactly by `Numerics.Power`.
- DOM and jQuery: element creation, CSS positioning, showing and hiding elements, `tile.generate`, `tile.update`, `tile.draw`, `layer.generate` and the base control's `update`, `hide` and `show`. Elements are opaque handles (`Controls.Dom`); tile drawing and hiding become entries in an event log. A control's `generate` is described by what `create` sees of it (`Controls.Generator`): the element it returns, the contents element it sets, and whether it asks for the id. The base `generate` (`Controls.BaseGenerate`) asks for the id and returns nothing.
- `toString` and `__repr__`: they depend on the host's number formatting.
- `point.round` and `line.length` in `js/geometry.js`: they use `Math.pow` and `Math.sqrt`, and nothing in the modelled core calls them.
- The viewport's accessors (`getScale`, `getView`, …) are the class's fields. `getCenter` returns the undeclared `scroll_center`, that is `undefined`, and the model has no member for it.
- `makeViewAnimator`, `viewBox`, `startZoom` and `endZoom` in `js/viewport.js`: empty stubs. `zoomIn` and `zoomOut` ignore their optional centre argument, as the source does.
- `loadPyramid`: an asynchronous XML fetch. Pyramids are built from their width and height instead.
- `pyramid.dimensions` and `pyramid.layers` are the `Pyramid` value's fields.
- TiledImages.Layer.Draw: takes the view's bounds and the scale as arguments. The source's layer reads them from the viewport (js/tiled_image.js:125-126), which is the same viewport the tiled image holds. `TiledImage.Draw` reads them from that viewport once and passes them to every layer; nothing changes the viewport while a draw runs.
- TiledImages.TiledImage.constructor: the viewport's broadcaster is an `Observers.Broadcaster` given to the constructor. The viewport's own broadcasts are recorded in `Viewport.sent`, and the model does not run `TiledImage.Changed` when one is sent. `RegisteredRelaysToChanged` proves which call each "changed" or "zoomed" broadcast makes after registration.
- Packages.Registry.InPackage: the registry starts empty. In the source, `webact` already holds `create`, `in_package` and `imports` (js/packages.js:62, 130, 158), and `webact[name]` also finds names inherited from `Object.prototype`, such as `toString`. `in_package` under one of those names fills that function instead of creating a package, and the model does not capture that.
- Packages.Registry.Imports: for one of those host names, the source throws a `TypeError` from `pack.exports()`, where the model reports "Undefined package: " and the name.
- Observers.Broadcaster.AddListener: the listener map is a plain object (js/observers.js:31), so a selector that names an `Object.prototype` member, such as "constructor" or "toString", finds that member instead of `undefined`. `addListener` then throws a `TypeError` at `listeners.push` (js/observers.js:51, 57), where the model appends to an empty list. The model's map holds only what was added.
- Observers.Broadcaster.HasListener: for such a selector the source throws a `TypeError` at `listeners.indexOf` (js/observers.js:92), where the model answers false.
- Observers.Broadcaster.RemoveListener: for such a selector the source throws a `TypeError` at `listeners.indexOf` (js/observers.js:73), where the model answers false.
- Observers.Broadcaster.SendBroadcast: for such a selector the source loops over the inherited function's `length` (js/observers.js:111-112). Where that is not zero, as for "constructor", it applies an undefined entry and throws a `TypeError`; the model calls nothing.
- Controls.AssignedId: the counters are a plain object too (js/controls.js:31). For a class name such as "toString", `id_counters[class_name] || 0` is the inherited function, so the id becomes "toString_" followed by the function's source text and the counter becomes a string (js/controls.js:94-96). The model gives "toString_0" and counts from 0 for every class name.
- Controls.Control.GetId: the same inherited class names, through `AssignedId`.
- The listener relay in `js/observers.js` calls arbitrary host code. A broadcast is modelled as the ordered list of calls it makes (`Observers.Invocation`), not as their effects.
- `in_package` runs a body function. The model takes the property assignments that body makes as a list.
- The tiler's `Point` and `Dimensions` are immutable values: nothing in the tiler updates them after construction.
- Python's `assert isinstance(…)` on arguments of the wrong class is not modelled: arguments are typed. Only `__eq__` takes an operand of any class (`PyGeometry.Operand`).
- The tiler's `getTopLeft`, `getBottomRight` and `getDimensions` reuse the viewer's `Geometry.TopLeft`, `BottomRight` and `RectangleDimensions`, which compute the same thing. The tiler's `getCenter` matches `Geometry.Center` only on real edges. On the integer image bounds the tiler builds (`Rectangle(0, 0, w - 1, h - 1)`), Python 2's `/ 2` floors; that case is `PyGeometry.IntegerCenter`. The model has no rectangle whose edges are integers in some places and reals in others.
- The tiler's `rectangle.project` does not normalise edges, and neither does the model: a rotation can give a rectangle with `left > right`.
- Tiler numbers are exact reals. Python 2's flooring `/` on two integers is modelled in two places: `PyGeometry.IntegerInverse` (`inverse`) and `PyGeometry.IntegerCenter` (`getCenter`).
- PyPyramids.ScaleForLayer: the resolution multiplier is a real, as the default `sqrt(2)` is. With an integer multiplier such as 2, Python 2's `1 / m ** k` (tiler/tiler-v02/tiled_image/pyramid.py:42) floors to 0 for every k ≥ 1, and the model does not capture that. With integer operands, `tileColumn` and `tileRow` floor twice, which gives the same result as the model's single floor for a positive extent.
- PyGeometry.Inverse: the `ZeroDivisionError` that `Transform.inverse` raises for a singular matrix is `None`.
- Viewports.Viewport.CancelPan: with no pan started, the source copies the null `pan_center` into `center` (js/viewport.js:261), and `update` then throws a `TypeError` on the null centre. The viewport is left with a null centre, so from then on `centerOn`, `pan` and `update` throw too. The model returns `Failure` and keeps the old centre, so it does not capture that broken state.
- The tile images, the image and filesystem processing of the tiler, `image_information.py`, the viewer's UI modules and the unparseable `js/content.js` are not part of this model.

## Findings

| source | as written | input that shows it | evidently intended | confidence | as-written member | corrected member |
|---|---|---|---|---|---|---|
| js/geometry.js:301-316 | `polygon.equals` aligns the other polygon only at the first occurrence of this polygon's first point | [(0,0), (1,0), (0,0), (2,0)] against its rotation [(0,0), (2,0), (0,0), (1,0)] gives false | equal exactly when one point list is a rotation of the other | medium, not executed | Polygons.EqualsMissesRotation | Polygons.CycleEquals |
| js/geometry.js:282-291 | `containsPoint` counts an edge whenever `xForY` finds a crossing right of the point, which for a horizontal edge or a vertex on the ray's line counts twice or wrongly | the rectangle (0,0)–(10,10) as a polygon and the point (−5, 0): three edges cross, so the point counts as inside | the even-odd test with half-open edges, which agrees with `rectangle.containsPoint` | high, not executed | Polygons.TopLineCountedInside | Polygons.PolygonContainsPointHalfOpen |
| tiler/tiler-v02/geometry/transform.py:91-111 | under Python 2, `/` on integer entries floors each entry of the inverse | `Transform.makeScale(2, 2).inverse()` gives the matrix [0, 0, 0, 0, 0, 0, 0, 0, 1] | the exact inverse, which `project` undoes | medium, not executed | PyGeometry.IntegerScaleInverse | PyGeometry.InverseProject |
