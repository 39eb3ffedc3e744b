/** The viewport of js/viewport.js: which part of a scene (the full image)
    shows in a view (the window), at what scale and rotation, centred
    where. `makeViewport` keeps that state in closure variables that its
    methods reassign, so the model is a class whose fields those methods
    update; the derived state (`limits`, both transforms and the two view
    polygons) is recomputed by `Update`, as the source's `update` does.
    Each broadcast the viewport sends is appended to `sent`; delivery to
    listeners is the business of `Observers`. */
module Viewports {
  import opened Wrappers
  import opened Numerics
  import opened Geometry
  import opened Polygons

  /** The selector every state change broadcasts. */
  const Changed: string := "changed"

  predicate PositiveSize(d: Dimensions)
  {
    d.width > 0.0 && d.height > 0.0
  }

  /** `minimum_scale`: the scale at which the whole scene just fits the
      view, the smaller of the two axis ratios. */
  function MinimumScale(sceneSize: Dimensions, viewSize: Dimensions): (s: real)
    requires PositiveSize(sceneSize) && PositiveSize(viewSize)
    ensures s > 0.0
    ensures s * sceneSize.width <= viewSize.width && s * sceneSize.height <= viewSize.height
    ensures s * sceneSize.width == viewSize.width || s * sceneSize.height == viewSize.height
  {
    var horizontal := viewSize.width / sceneSize.width;
    var vertical := viewSize.height / sceneSize.height;
    QuotientTimes(viewSize.width, sceneSize.width, horizontal);
    QuotientTimes(viewSize.height, sceneSize.height, vertical);
    ScaleOrder(Min(horizontal, vertical), horizontal, sceneSize.width);
    ScaleOrder(Min(horizontal, vertical), vertical, sceneSize.height);
    Min(horizontal, vertical)
  }

  /** `visible_size`: the scene area the view shows at the minimum scale,
      which covers the scene on both axes and fits it exactly on one. */
  function VisibleSize(sceneSize: Dimensions, viewSize: Dimensions): (v: Dimensions)
    requires PositiveSize(sceneSize) && PositiveSize(viewSize)
    ensures v.width >= sceneSize.width && v.height >= sceneSize.height
    ensures v.width == sceneSize.width || v.height == sceneSize.height
  {
    var m := MinimumScale(sceneSize, viewSize);
    var v := DimensionsScale(viewSize, 1.0 / m);
    Unscale(m, sceneSize.width, viewSize.width, v.width);
    Unscale(m, sceneSize.height, viewSize.height, v.height);
    v
  }

  /** Dividing `m · a ≤ b` by a positive `m`. */
  lemma Unscale(m: real, a: real, b: real, q: real)
    requires m > 0.0 && m * a <= b && q == 1.0 / m * b
    ensures q >= a && (m * a == b ==> q == a)
  {
    assert q == b / m;
    QuotientBound(a, b, m);
    if m * a == b {
      QuotientOfMultiple(a, m);
    }
  }

  /** `limits`: the rectangle the view's centre may range over, the scene
      inset by half the view's extent at `scale`. */
  function Limits(sceneSize: Dimensions, viewSize: Dimensions, scale: real): (r: Rectangle)
    requires PositiveSize(sceneSize) && PositiveSize(viewSize) && scale > 0.0
    ensures WellFormed(r)
    ensures forall p: Point :: InClosed(r, p) ==> InClosed(DimensionsRectangle(sceneSize), p)
  {
    var viewExtent := DimensionsScale(viewSize, 1.0 / scale);
    var halfExtent := DimensionsScale(viewExtent, 1.0 / 2.0);
    NonNegProduct(1.0 / scale, viewSize.width);
    NonNegProduct(1.0 / scale, viewSize.height);
    assert halfExtent.width >= 0.0 && halfExtent.height >= 0.0;
    Inset(DimensionsRectangle(sceneSize), halfExtent.width, Some(halfExtent.height))
  }

  /** Half the view's width at `scale`, in scene units. */
  function HalfExtent(side: real, scale: real): real
    requires scale > 0.0
  {
    1.0 / 2.0 * (1.0 / scale * side)
  }

  /** Zoomed in far enough that the view is narrower than the scene, the
      centre ranges over the scene less half a view on each side. */
  lemma LimitsInsetScene(sceneSize: Dimensions, viewSize: Dimensions, scale: real)
    requires PositiveSize(sceneSize) && PositiveSize(viewSize) && scale > 0.0
    requires scale * sceneSize.width >= viewSize.width && scale * sceneSize.height >= viewSize.height
    ensures var r := Limits(sceneSize, viewSize, scale);
            && r.left == HalfExtent(viewSize.width, scale)
            && r.right == sceneSize.width - HalfExtent(viewSize.width, scale)
            && r.top == HalfExtent(viewSize.height, scale)
            && r.bottom == sceneSize.height - HalfExtent(viewSize.height, scale)
  {
    HalfFits(sceneSize.width, viewSize.width, scale);
    HalfFits(sceneSize.height, viewSize.height, scale);
    LimitsByHalfExtents(sceneSize, viewSize, scale);
    FittingInset(DimensionsRectangle(sceneSize), HalfExtent(viewSize.width, scale),
                 HalfExtent(viewSize.height, scale));
  }

  /** At the minimum scale or below, the view covers the whole scene and
      the limits shrink to the scene's centre. */
  lemma LimitsAtMinimumScale(sceneSize: Dimensions, viewSize: Dimensions, scale: real)
    requires PositiveSize(sceneSize) && PositiveSize(viewSize)
    requires 0.0 < scale <= MinimumScale(sceneSize, viewSize)
    ensures var c := Center(DimensionsRectangle(sceneSize));
            Limits(sceneSize, viewSize, scale) == Rectangle(c.x, c.y, c.x, c.y)
  {
    var m := MinimumScale(sceneSize, viewSize);
    ScaleOrder(scale, m, sceneSize.width);
    ScaleOrder(scale, m, sceneSize.height);
    HalfCovers(sceneSize.width, viewSize.width, scale);
    HalfCovers(sceneSize.height, viewSize.height, scale);
    LimitsByHalfExtents(sceneSize, viewSize, scale);
    CollapsedInset(DimensionsRectangle(sceneSize), HalfExtent(viewSize.width, scale),
                   HalfExtent(viewSize.height, scale));
  }

  /** `limits` insets the scene by the two half extents, the height's
      being non-zero and so taken as given. */
  lemma LimitsByHalfExtents(sceneSize: Dimensions, viewSize: Dimensions, scale: real)
    requires PositiveSize(sceneSize) && PositiveSize(viewSize) && scale > 0.0
    ensures HalfExtent(viewSize.height, scale) > 0.0
    ensures Limits(sceneSize, viewSize, scale)
            == Inset(DimensionsRectangle(sceneSize), HalfExtent(viewSize.width, scale),
                     Some(HalfExtent(viewSize.height, scale)))
  {
    var halfExtent := DimensionsScale(DimensionsScale(viewSize, 1.0 / scale), 1.0 / 2.0);
    assert halfExtent.width == HalfExtent(viewSize.width, scale);
    assert halfExtent.height == HalfExtent(viewSize.height, scale);
    assert Limits(sceneSize, viewSize, scale)
           == Inset(DimensionsRectangle(sceneSize), halfExtent.width, Some(halfExtent.height));
    assert 1.0 / scale > 0.0;
    PositiveProduct(1.0 / scale, viewSize.height);
    PositiveProduct(1.0 / 2.0, 1.0 / scale * viewSize.height);
  }

  /** An inset of at most half the rectangle on both axes moves each edge
      in by it. */
  lemma FittingInset(r: Rectangle, w: real, h: real)
    requires h != 0.0 && 2.0 * w <= r.right - r.left && 2.0 * h <= r.bottom - r.top
    ensures Inset(r, w, Some(h)) == Rectangle(r.left + w, r.top + h, r.right - w, r.bottom - h)
  {
    assert InsetHeightOrWidth(w, Some(h)) == h;
  }

  /** An inset of at least half the rectangle on both axes leaves its centre. */
  lemma CollapsedInset(r: Rectangle, w: real, h: real)
    requires h != 0.0 && 2.0 * w >= r.right - r.left && 2.0 * h >= r.bottom - r.top
    ensures Inset(r, w, Some(h)) == Rectangle(Center(r).x, Center(r).y, Center(r).x, Center(r).y)
  {
    assert InsetHeightOrWidth(w, Some(h)) == h;
  }

  /** When `scale · scene ≥ view`, twice the half extent fits the scene. */
  lemma HalfFits(scene: real, view: real, scale: real)
    requires scene > 0.0 && scale > 0.0 && scale * scene >= view
    ensures 2.0 * HalfExtent(view, scale) <= scene
  {
    assert 2.0 * HalfExtent(view, scale) == view / scale;
    QuotientBound(scene, view, scale);
  }

  /** When `scale · scene ≤ view`, twice the half extent covers the scene. */
  lemma HalfCovers(scene: real, view: real, scale: real)
    requires scene > 0.0 && scale > 0.0 && scale * scene <= view
    ensures 2.0 * HalfExtent(view, scale) >= scene
  {
    assert 2.0 * HalfExtent(view, scale) == view / scale;
    QuotientBound(scene, view, scale);
  }

  /** `view_transform` written out: scene to view, rotate by `rotation`
      and scale by `scale` about `center`, then move `center` to the middle
      of the view. `ComputeTransforms` builds it as the source does, by
      composing translate · scale · rotate · translate. */
  function ViewTransform(viewSize: Dimensions, scale: real, rotation: real, center: Point,
                         math: HostMath): (t: Transform)
    ensures IsAffine(t)
  {
    var c := math.cos(rotation);
    var s := math.sin(rotation);
    Transform(scale * c, -(scale * s), viewSize.width / 2.0 - scale * (c * center.x - s * center.y),
              scale * s, scale * c, viewSize.height / 2.0 - scale * (s * center.x + c * center.y),
              0.0, 0.0, 1.0)
  }

  /** The source's composition translate(view middle) · scale · rotate ·
      translate(−centre) is the view transform. */
  lemma ViewTransformComposes(viewSize: Dimensions, scale: real, rotation: real, center: Point,
                              math: HostMath)
    ensures Compose(Compose(Compose(
              Translate(viewSize.width / 2.0, viewSize.height / 2.0),
              Scale(scale, scale)),
              Rotate(rotation, math)),
              Translate(-center.x, -center.y))
            == ViewTransform(viewSize, scale, rotation, center, math)
  {
    ComposedView(viewSize.width / 2.0, viewSize.height / 2.0, scale, rotation, math, center.x, center.y);
    ViewTransformEntries(viewSize, scale, rotation, center, math);
  }

  /** The view transform entry by entry. */
  lemma ViewTransformEntries(viewSize: Dimensions, scale: real, rotation: real, center: Point,
                             math: HostMath)
    ensures var c := math.cos(rotation);
            var s := math.sin(rotation);
            ViewTransform(viewSize, scale, rotation, center, math)
            == Transform(scale * c, -(scale * s), viewSize.width / 2.0 - scale * (c * center.x - s * center.y),
                         scale * s, scale * c, viewSize.height / 2.0 - scale * (s * center.x + c * center.y),
                         0.0, 0.0, 1.0)
  {
    var c := math.cos(rotation);
    var s := math.sin(rotation);
    var t := ViewTransform(viewSize, scale, rotation, center, math);
    assert t.m0 == scale * c && t.m1 == -(scale * s);
    assert t.m2 == viewSize.width / 2.0 - scale * (c * center.x - s * center.y);
    assert t.m3 == scale * s && t.m4 == scale * c;
    assert t.m5 == viewSize.height / 2.0 - scale * (s * center.x + c * center.y);
  }

  /** The composition over plain numbers. */
  lemma ComposedView(mx: real, my: real, k: real, rotation: real, math: HostMath, cx: real, cy: real)
    ensures var c := math.cos(rotation);
            var s := math.sin(rotation);
            Compose(Compose(Compose(Translate(mx, my), Scale(k, k)), Rotate(rotation, math)), Translate(-cx, -cy))
            == Transform(k * c, -(k * s), mx - k * (c * cx - s * cy),
                         k * s, k * c, my - k * (s * cx + c * cy), 0.0, 0.0, 1.0)
  {
    var rotated := Compose(Compose(Translate(mx, my), Scale(k, k)), Rotate(rotation, math));
    ScaledRotation(mx, my, k, rotation, math);
    ShiftedByCenter(rotated, cx, cy, k, math.cos(rotation), math.sin(rotation), mx, my);
  }

  /** The first three factors: rotate, scale, then move to the view middle. */
  lemma ScaledRotation(mx: real, my: real, k: real, rotation: real, math: HostMath)
    ensures var c := math.cos(rotation);
            var s := math.sin(rotation);
            Compose(Compose(Translate(mx, my), Scale(k, k)), Rotate(rotation, math))
            == Transform(k * c, -(k * s), mx, k * s, k * c, my, 0.0, 0.0, 1.0)
  {
    assert Compose(Translate(mx, my), Scale(k, k)) == Transform(k, 0.0, mx, 0.0, k, my, 0.0, 0.0, 1.0);
  }

  /** The last factor moves the centre to the origin first. */
  lemma ShiftedByCenter(a: Transform, cx: real, cy: real, k: real, c: real, s: real, mx: real, my: real)
    requires a == Transform(k * c, -(k * s), mx, k * s, k * c, my, 0.0, 0.0, 1.0)
    ensures Compose(a, Translate(-cx, -cy))
            == Transform(k * c, -(k * s), mx - k * (c * cx - s * cy),
                         k * s, k * c, my - k * (s * cx + c * cy), 0.0, 0.0, 1.0)
  {
    assert Translate(-cx, -cy) == Transform(1.0, 0.0, -cx, 0.0, 1.0, -cy, 0.0, 0.0, 1.0);
    ShiftedRow(k * c, -(k * s), mx, cx, cy, k, c, s);
    ShiftedRow(k * s, k * c, my, cx, cy, k, s, -c);
  }

  /** The translation entry of one row of the composition. */
  lemma ShiftedRow(a: real, b: real, m: real, x: real, y: real, k: real, p: real, q: real)
    requires a == k * p && b == -(k * q)
    ensures a * -x + b * -y + m * 1.0 == m - k * (p * x - q * y)
  {
  }

  /** With cos² + sin² = 1 the view transform's determinant is `scale²`,
      so at a non-zero scale `transform.inverse` finds an inverse. */
  lemma ViewTransformInvertible(viewSize: Dimensions, scale: real, rotation: real, center: Point,
                                math: HostMath)
    requires ValidMath(math)
    ensures Determinant(ViewTransform(viewSize, scale, rotation, center, math)) == scale * scale
    ensures scale != 0.0 ==> Inverse(ViewTransform(viewSize, scale, rotation, center, math)).Some?
  {
    var c := math.cos(rotation);
    var s := math.sin(rotation);
    assert c * c + s * s == 1.0;
    ViewTransformEntries(viewSize, scale, rotation, center, math);
    RotationDeterminant(scale, c, s, viewSize.width / 2.0 - scale * (c * center.x - s * center.y),
                        viewSize.height / 2.0 - scale * (s * center.x + c * center.y));
    if scale != 0.0 {
      SquareNonZero(scale, Determinant(ViewTransform(viewSize, scale, rotation, center, math)));
    }
  }

  /** A non-zero scale has a non-zero square. */
  lemma SquareNonZero(k: real, d: real)
    requires k != 0.0 && d == k * k
    ensures d != 0.0
  {
    QuotientOfMultiple(k, k);
    assert d / k == k;
  }

  /** A rotation scaled by `k`, with any translation, has determinant k². */
  lemma RotationDeterminant(k: real, c: real, s: real, e: real, f: real)
    requires c * c + s * s == 1.0
    ensures Determinant(Transform(k * c, -(k * s), e, k * s, k * c, f, 0.0, 0.0, 1.0)) == k * k
  {
    assert k * c * (k * c) - -(k * s) * (k * s) == k * k * (c * c + s * s);
  }

  /** The view transform takes the centre to the middle of the view, at
      every scale and rotation. */
  lemma ViewTransformCentersView(viewSize: Dimensions, scale: real, rotation: real, center: Point,
                                 math: HostMath)
    ensures Project(center, ViewTransform(viewSize, scale, rotation, center, math))
            == Point(viewSize.width / 2.0, viewSize.height / 2.0)
  {
  }

  /** `scene_transform`: the inverse of the view transform, as
      `transform.inverse` computes it. */
  function SceneTransform(viewSize: Dimensions, scale: real, rotation: real, center: Point,
                          math: HostMath): Transform
    requires ValidMath(math) && scale != 0.0
  {
    ViewTransformInvertible(viewSize, scale, rotation, center, math);
    Inverse(ViewTransform(viewSize, scale, rotation, center, math)).value
  }

  /** The scene transform undoes the view transform and the other way
      round, so a scene point and the view point showing it correspond
      one to one. */
  lemma SceneTransformUndoesView(viewSize: Dimensions, scale: real, rotation: real, center: Point,
                                 math: HostMath, p: Point)
    requires ValidMath(math) && scale != 0.0
    ensures var v := ViewTransform(viewSize, scale, rotation, center, math);
            var w := SceneTransform(viewSize, scale, rotation, center, math);
            Project(Project(p, v), w) == p && Project(Project(p, w), v) == p
  {
    var v := ViewTransform(viewSize, scale, rotation, center, math);
    ViewTransformInvertible(viewSize, scale, rotation, center, math);
    InverseProject(v, p);
  }

  /** The scene transform takes the middle of the view back to the centre. */
  lemma SceneTransformFindsCenter(viewSize: Dimensions, scale: real, rotation: real, center: Point,
                                  math: HostMath)
    requires ValidMath(math) && scale != 0.0
    ensures Project(Point(viewSize.width / 2.0, viewSize.height / 2.0),
                    SceneTransform(viewSize, scale, rotation, center, math)) == center
  {
    SceneTransformUndoesView(viewSize, scale, rotation, center, math, center);
    ViewTransformCentersView(viewSize, scale, rotation, center, math);
  }

  /** `update`'s two transforms, computed as the source computes them:
      the composition for the view transform, its inverse for the scene
      transform. */
  method ComputeTransforms(viewSize: Dimensions, scale: real, rotation: real, center: Point,
                           math: HostMath) returns (view: Transform, scene: Transform)
    requires ValidMath(math) && scale != 0.0
    ensures view == ViewTransform(viewSize, scale, rotation, center, math)
    ensures scene == SceneTransform(viewSize, scale, rotation, center, math)
  {
    view := Compose(Compose(Compose(
      Translate(viewSize.width / 2.0, viewSize.height / 2.0),
      Scale(scale, scale)),
      Rotate(rotation, math)),
      Translate(-center.x, -center.y));
    ViewTransformComposes(viewSize, scale, rotation, center, math);
    ViewTransformInvertible(viewSize, scale, rotation, center, math);
    var inverse := Inverse(view);
    scene := inverse.value;
  }

  /** The body of `update`, on the values it reads: the limits for the
      scale, the centre pinned into them, both transforms and both view
      polygons. */
  method Recompute(sceneSize: Dimensions, viewSize: Dimensions, scale: real, rotation: real,
                   center: Point, math: HostMath)
    returns (limits: Rectangle, pinned: Point, view: Transform, scene: Transform,
             viewPolygon: Polygon, clippedViewPolygon: Polygon)
    requires ValidMath(math) && PositiveSize(sceneSize) && PositiveSize(viewSize) && scale > 0.0
    ensures limits == Limits(sceneSize, viewSize, scale)
    ensures pinned == PinInRectangle(center, limits) && InClosed(limits, pinned)
    ensures view == ViewTransform(viewSize, scale, rotation, pinned, math)
    ensures scene == SceneTransform(viewSize, scale, rotation, pinned, math)
    ensures viewPolygon.points == ProjectPoints(DimensionsPolygon(viewSize).points, scene)
    ensures clippedViewPolygon.points == ClipAll(viewPolygon.points, DimensionsRectangle(sceneSize))
  {
    var viewExtent := DimensionsScale(viewSize, 1.0 / scale);
    var halfExtent := DimensionsScale(viewExtent, 1.0 / 2.0);
    limits := Inset(DimensionsRectangle(sceneSize), halfExtent.width, Some(halfExtent.height));
    pinned := PinInRectangle(center, limits);
    view, scene := ComputeTransforms(viewSize, scale, rotation, pinned, math);
    viewPolygon := ProjectPolygon(DimensionsPolygon(viewSize), scene);
    clippedViewPolygon := Clip(viewPolygon, DimensionsRectangle(sceneSize));
  }

  /** `setScale`'s clamp: into [minimum, 1], the upper bound winning when
      the minimum is above 1. */
  function ClampScale(newScale: real, minimumScale: real): (s: real)
    ensures s <= 1.0
    ensures minimumScale <= 1.0 ==> minimumScale <= s
    ensures minimumScale <= newScale <= 1.0 ==> s == newScale
    ensures newScale < minimumScale <= 1.0 ==> s == minimumScale
  {
    Min(1.0, Max(newScale, minimumScale))
  }

  /** Clamping twice is clamping once. */
  lemma ClampScaleIdempotent(newScale: real, minimumScale: real)
    requires minimumScale <= 1.0
    ensures ClampScale(ClampScale(newScale, minimumScale), minimumScale) == ClampScale(newScale, minimumScale)
  {
  }

  /** A zoom in followed by a zoom out restores the scale when the zoom
      in stays within full resolution. */
  lemma ZoomInThenOut(scale: real, minimumScale: real, step: real)
    requires step > 1.0 && 0.0 < minimumScale <= scale && scale * step <= 1.0
    ensures ClampScale(ClampScale(scale * step, minimumScale) / step, minimumScale) == scale
  {
    ScaleOrder(1.0, step, scale);
    assert scale <= scale * step;
    assert ClampScale(scale * step, minimumScale) == scale * step;
    QuotientOfMultiple(scale, step);
  }

  /** `setRotation`'s adjustment: 2π added once to a negative angle. */
  function NormalizeRotation(newRotation: real, pi: real): (r: real)
    ensures newRotation >= 0.0 ==> r == newRotation
    ensures newRotation < 0.0 ==> r - newRotation == 2.0 * pi
    ensures pi > 0.0 && -2.0 * pi <= newRotation < 2.0 * pi ==> 0.0 <= r < 2.0 * pi
  {
    if newRotation < 0.0 then newRotation + 2.0 * pi else newRotation
  }

  /** Where `pan` moves the centre before pinning it: the pan's anchor,
      shifted by the mouse's travel in view units divided by the scale. */
  function PanTarget(panCenter: Point, panStart: Point, viewPoint: Point, scale: real): (c: Point)
    requires scale != 0.0
    ensures (c.x - panCenter.x) * scale == panStart.x - viewPoint.x
    ensures (c.y - panCenter.y) * scale == panStart.y - viewPoint.y
  {
    var offsetX := (panStart.x - viewPoint.x) / scale;
    var offsetY := (panStart.y - viewPoint.y) / scale;
    QuotientTimes(panStart.x - viewPoint.x, scale, offsetX);
    QuotientTimes(panStart.y - viewPoint.y, scale, offsetY);
    Point(panCenter.x + offsetX, panCenter.y + offsetY)
  }

  /** A mouse back at the start of the pan puts the centre back at the
      pan's anchor. */
  lemma PanToStartReturns(panCenter: Point, panStart: Point, scale: real)
    requires scale != 0.0
    ensures PanTarget(panCenter, panStart, panStart, scale) == panCenter
  {
  }

  /** The state `update` derives from the sizes, scale, rotation and
      centre: the limits with the centre inside them, both transforms, the
      view polygon and its clip to the scene. */
  ghost predicate Derived(sceneSize: Dimensions, viewSize: Dimensions, scale: real, rotation: real,
                          math: HostMath, limits: Rectangle, center: Point,
                          viewTransform: Transform, sceneTransform: Transform,
                          viewPoints: seq<Point>, clippedPoints: seq<Point>)
    requires ValidMath(math) && PositiveSize(sceneSize) && PositiveSize(viewSize) && scale > 0.0
  {
    && limits == Limits(sceneSize, viewSize, scale)
    && InClosed(limits, center)
    && viewTransform == ViewTransform(viewSize, scale, rotation, center, math)
    && sceneTransform == SceneTransform(viewSize, scale, rotation, center, math)
    && viewPoints == ProjectPoints(DimensionsPolygon(viewSize).points, sceneTransform)
    && clippedPoints == ClipAll(viewPoints, DimensionsRectangle(sceneSize))
  }

  class Viewport {
    const sceneSize: Dimensions
    const viewSize: Dimensions
    const math: HostMath
    var visibleSize: Dimensions
    var scale: real
    var minimumScale: real
    var rotation: real
    var center: Point
    var limits: Rectangle
    var viewTransform: Transform
    var sceneTransform: Transform
    var viewPolygon: Polygon
    var clippedViewPolygon: Polygon
    var panCenter: Option<Point>
    var panStart: Option<Point>
    var sent: seq<string>

    /** What holds between calls: the fixed sizes, the minimum scale and
        visible size `initializeCoordinates` set, and the derived state as
        the last `update` left it. */
    ghost predicate Valid()
      reads this
    {
      && Settled()
      && Derived(sceneSize, viewSize, scale, rotation, math, limits, center, viewTransform, sceneTransform,
                 viewPolygon.points, clippedViewPolygon.points)
    }

    /** The part of `Valid` that `update` does not recompute. */
    ghost predicate Settled()
      reads this
    {
      && ValidMath(math)
      && PositiveSize(sceneSize) && PositiveSize(viewSize)
      && minimumScale == MinimumScale(sceneSize, viewSize)
      && visibleSize == VisibleSize(sceneSize, viewSize)
      && scale > 0.0
      && (panCenter.Some? ==> panStart.Some?)
    }

    /** `makeViewport(scene_size, view_size)`: `initializeCoordinates`,
        then `update`. The view starts at the minimum scale, unrotated,
        centred on the middle of the visible area. */
    constructor (sceneSize: Dimensions, viewSize: Dimensions, math: HostMath)
      requires ValidMath(math) && PositiveSize(sceneSize) && PositiveSize(viewSize)
      ensures Valid()
      ensures this.sceneSize == sceneSize && this.viewSize == viewSize && this.math == math
      ensures scale == minimumScale == MinimumScale(sceneSize, viewSize)
      ensures rotation == 0.0
      ensures var visible := VisibleSize(sceneSize, viewSize);
              center == PinInRectangle(Point(visible.width / 2.0, visible.height / 2.0), limits)
      ensures panCenter == None && panStart == None && sent == []
    {
      this.sceneSize := sceneSize;
      this.viewSize := viewSize;
      this.math := math;
      rotation := 0.0;
      panCenter := None;
      panStart := None;
      sent := [];
      var horizontalScale := viewSize.width / sceneSize.width;
      var verticalScale := viewSize.height / sceneSize.height;
      var minimum := Min(horizontalScale, verticalScale);
      var visible := DimensionsScale(viewSize, 1.0 / minimum);
      minimumScale := minimum;
      visibleSize := visible;
      scale := minimum;
      center := Point(visible.width / 2.0, visible.height / 2.0);
      new;
      Update();
    }

    /** `update`: recompute the limits for the current scale, pin the
        centre into them, and rebuild both transforms and the view
        polygons. */
    method Update()
      requires Settled()
      modifies this
      ensures Valid()
      ensures scale == old(scale) && rotation == old(rotation) && minimumScale == old(minimumScale)
      ensures visibleSize == old(visibleSize)
      ensures center == PinInRectangle(old(center), Limits(sceneSize, viewSize, scale))
      ensures panCenter == old(panCenter) && panStart == old(panStart) && sent == old(sent)
    {
      var newLimits, newCenter, view, scene, polygon, clipped :=
        Recompute(sceneSize, viewSize, scale, rotation, center, math);
      limits, center, viewTransform, sceneTransform := newLimits, newCenter, view, scene;
      viewPolygon, clippedViewPolygon := polygon, clipped;
    }

    /** `setScale`: clamp, and only when the clamped scale differs from the
        current one, update and broadcast one "changed". */
    method SetScale(newScale: real)
      requires Valid()
      modifies this
      ensures Valid()
      ensures old(scale) == ClampScale(newScale, minimumScale) ==> unchanged(this)
      ensures old(scale) != ClampScale(newScale, minimumScale) ==>
                && scale == ClampScale(newScale, minimumScale)
                && rotation == old(rotation)
                && center == PinInRectangle(old(center), Limits(sceneSize, viewSize, scale))
                && panCenter == old(panCenter) && panStart == old(panStart)
                && sent == old(sent) + [Changed]
      ensures minimumScale == old(minimumScale)
    {
      var clamped := Min(1.0, Max(newScale, minimumScale));
      if scale != clamped {
        scale := clamped;
        Update();
        sent := sent + [Changed];
      }
    }

    /** `setRotation`: a negative angle gets 2π added once; only a rotation
        that then differs updates and broadcasts. */
    method SetRotation(newRotation: real)
      requires Valid()
      modifies this
      ensures Valid()
      ensures old(rotation) == NormalizeRotation(newRotation, math.pi) ==> unchanged(this)
      ensures old(rotation) != NormalizeRotation(newRotation, math.pi) ==>
                && rotation == NormalizeRotation(newRotation, math.pi)
                && scale == old(scale) && center == old(center)
                && panCenter == old(panCenter) && panStart == old(panStart)
                && sent == old(sent) + [Changed]
    {
      var adjusted := newRotation;
      if adjusted < 0.0 {
        adjusted := adjusted + 2.0 * math.pi;
      }
      if rotation != adjusted {
        rotation := adjusted;
        Update();
        sent := sent + [Changed];
      }
    }

    /** `centerOn`: nothing when the point is the current centre; otherwise
        the point pinned into the limits becomes the centre, followed by one
        "changed". */
    method CenterOn(sceneCenter: Point)
      requires Valid()
      modifies this
      ensures Valid()
      ensures old(center) == sceneCenter ==> unchanged(this)
      ensures old(center) != sceneCenter ==>
                && center == PinInRectangle(sceneCenter, limits)
                && scale == old(scale) && rotation == old(rotation)
                && panCenter == old(panCenter) && panStart == old(panStart)
                && sent == old(sent) + [Changed]
    {
      if PointEquals(center, sceneCenter) {
        return;
      }
      Recenter(sceneCenter);
    }

    /** What `centerOn` and `pan` share: the centre moved to a point
        pinned into the limits, an update and one "changed". */
    method Recenter(target: Point)
      requires Valid()
      modifies this
      ensures Valid()
      ensures center == PinInRectangle(target, limits) && limits == old(limits)
      ensures scale == old(scale) && rotation == old(rotation)
      ensures panCenter == old(panCenter) && panStart == old(panStart)
      ensures sent == old(sent) + [Changed]
    {
      center := PinInRectangle(target, limits);
      Update();
      sent := sent + [Changed];
    }

    /** `canZoomIn`. */
    function CanZoomIn(): (b: bool)
      reads this
      ensures b <==> scale < 1.0
    {
      scale < 1.0
    }

    /** `canZoomOut`. */
    function CanZoomOut(): (b: bool)
      reads this
      ensures b <==> scale > minimumScale
    {
      scale > minimumScale
    }

    /** `zoomIn`: one √2 step up, when below full resolution. */
    method ZoomIn()
      requires Valid()
      modifies this
      ensures Valid()
      ensures old(scale) < 1.0 && old(scale) != ClampScale(old(scale) * math.sqrt2, minimumScale) ==>
                && scale == ClampScale(old(scale) * math.sqrt2, minimumScale)
                && rotation == old(rotation)
                && center == PinInRectangle(old(center), Limits(sceneSize, viewSize, scale))
                && panCenter == old(panCenter) && panStart == old(panStart)
                && sent == old(sent) + [Changed]
      ensures old(scale) >= 1.0 || old(scale) == ClampScale(old(scale) * math.sqrt2, minimumScale) ==>
                unchanged(this)
    {
      if scale < 1.0 {
        SetScale(scale * math.sqrt2);
      }
    }

    /** `zoomOut`: one √2 step down, when at or above the minimum scale
        (at exactly the minimum the clamp leaves the scale where it is). */
    method ZoomOut()
      requires Valid()
      modifies this
      ensures Valid()
      ensures old(scale) >= minimumScale && old(scale) != ClampScale(old(scale) / math.sqrt2, minimumScale) ==>
                && scale == ClampScale(old(scale) / math.sqrt2, minimumScale)
                && rotation == old(rotation)
                && center == PinInRectangle(old(center), Limits(sceneSize, viewSize, scale))
                && panCenter == old(panCenter) && panStart == old(panStart)
                && sent == old(sent) + [Changed]
      ensures old(scale) < minimumScale || old(scale) == ClampScale(old(scale) / math.sqrt2, minimumScale) ==>
                unchanged(this)
    {
      if scale >= minimumScale {
        SetScale(scale / math.sqrt2);
      }
    }

    /** `zoomReset`: back to the minimum scale (clamped to at most 1). */
    method ZoomReset()
      requires Valid()
      modifies this
      ensures Valid()
      ensures scale == ClampScale(minimumScale, minimumScale)
      ensures old(scale) == scale ==> unchanged(this)
      ensures old(scale) != scale ==>
                && rotation == old(rotation)
                && center == PinInRectangle(old(center), Limits(sceneSize, viewSize, scale))
                && panCenter == old(panCenter) && panStart == old(panStart)
                && sent == old(sent) + [Changed]
    {
      SetScale(minimumScale);
    }

    /** `startPan`: remember where the mouse went down and where the
        centre was. */
    method StartPan(newPanStart: Point)
      requires Valid()
      modifies this
      ensures Valid()
      ensures panStart == Some(newPanStart) && panCenter == Some(old(center))
      ensures center == old(center) && scale == old(scale) && rotation == old(rotation) && sent == old(sent)
    {
      panStart := Some(newPanStart);
      panCenter := Some(center);
    }

    /** `isPanning`: a pan start is recorded. */
    function IsPanning(): (b: bool)
      reads this
      ensures b <==> panStart.Some?
    {
      panStart.Some?
    }

    /** `pan`: nothing unless a pan is in progress; otherwise the centre
        follows the mouse, pinned into the limits, and one "changed" is
        broadcast. */
    method Pan(viewPoint: Point)
      requires Valid()
      modifies this
      ensures Valid()
      ensures old(panCenter).None? ==> unchanged(this)
      ensures old(panCenter).Some? ==>
                && center == PinInRectangle(PanTarget(old(panCenter).value, old(panStart).value, viewPoint, scale), limits)
                && scale == old(scale) && rotation == old(rotation)
                && panCenter == old(panCenter) && panStart == old(panStart)
                && sent == old(sent) + [Changed]
    {
      if panCenter.None? {
        return;
      }
      var start := panStart.value;
      var anchor := panCenter.value;
      var offsetX := (start.x - viewPoint.x) / scale;
      var offsetY := (start.y - viewPoint.y) / scale;
      var target := Point(anchor.x + offsetX, anchor.y + offsetY);
      assert target == PanTarget(anchor, start, viewPoint, scale);
      Recenter(target);
    }

    /** `endPan`: forget both anchors, with no broadcast. */
    method EndPan()
      requires Valid()
      modifies this
      ensures Valid()
      ensures panCenter == None && panStart == None
      ensures center == old(center) && scale == old(scale) && rotation == old(rotation) && sent == old(sent)
    {
      panCenter := None;
      panStart := None;
    }

    /** `cancelPan`: the centre goes back to the pan's anchor and one
        "changed" is broadcast; the anchor is forgotten but the pan start is
        not, so the viewport still reports a pan in progress. Without an
        anchor the source dereferences null; the model reports that as a
        failure and changes nothing. */
    method CancelPan() returns (r: Result<(), string>)
      requires Valid()
      modifies this
      ensures Valid()
      ensures r.Failure? <==> old(panCenter).None?
      ensures r.Failure? ==> unchanged(this)
      ensures r.Success? ==>
                && center == PinInRectangle(old(panCenter).value, limits)
                && panCenter == None && panStart == old(panStart)
                && scale == old(scale) && rotation == old(rotation)
                && sent == old(sent) + [Changed]
    {
      if panCenter.None? {
        return Failure("TypeError");
      }
      center := panCenter.value;
      panCenter := None;
      Update();
      sent := sent + [Changed];
      r := Success(());
    }
  }
}
