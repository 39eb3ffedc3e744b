/** The viewer's immutable geometric values (js/geometry.js): points,
    dimensions, line segments, rectangles, polygons and 3×3 affine
    transforms. Every operation returns a new value; the polygon loops live
    in module `Polygons`. */
module Geometry {
  import opened Wrappers
  import opened Numerics

  datatype Point = Point(x: real, y: real)

  datatype Dimensions = Dimensions(width: real, height: real)

  /** A segment from (fromX, fromY) to (toX, toY). */
  datatype Line = Line(fromX: real, fromY: real, toX: real, toY: real)

  /** Edges of an axis-aligned rectangle; y grows downwards, so `top` is the
      smaller y in a well-formed rectangle. */
  datatype Rectangle = Rectangle(left: real, top: real, right: real, bottom: real)

  datatype Polygon = Polygon(points: seq<Point>)

  /** The row-major matrix [m0 m1 m2; m3 m4 m5; m6 m7 m8]. */
  datatype Transform = Transform(
    m0: real, m1: real, m2: real,
    m3: real, m4: real, m5: real,
    m6: real, m7: real, m8: real)

  predicate WellFormed(r: Rectangle)
  {
    r.left <= r.right && r.top <= r.bottom
  }

  /** Membership in the closed rectangle, all four edges included. */
  predicate InClosed(r: Rectangle, p: Point)
  {
    r.left <= p.x <= r.right && r.top <= p.y <= r.bottom
  }

  /** Clamping a coordinate into [lo, hi], written case by case. */
  function Clamp(v: real, lo: real, hi: real): real
  {
    if v < lo then lo else if v > hi then hi else v
  }

  // *** Point

  /** `point.equals`: coordinate-wise equality. */
  function PointEquals(p: Point, q: Point): (b: bool)
    ensures b <==> p == q
  {
    p.x == q.x && p.y == q.y
  }

  /** `point.pinInRectangle`: the point moved into the rectangle. */
  function PinInRectangle(p: Point, r: Rectangle): (q: Point)
    ensures WellFormed(r) ==> InClosed(r, q)
    ensures WellFormed(r) ==> q == Point(Clamp(p.x, r.left, r.right), Clamp(p.y, r.top, r.bottom))
    ensures InClosed(r, p) ==> q == p
  {
    Point(Max(r.left, Min(p.x, r.right)), Max(r.top, Min(p.y, r.bottom)))
  }

  /** `point.project`: the affine image of a point (the third matrix row is
      not used). */
  function Project(p: Point, t: Transform): Point
  {
    Point(t.m0 * p.x + t.m1 * p.y + t.m2, t.m3 * p.x + t.m4 * p.y + t.m5)
  }

  /** `point.to`: the segment from this point to `destination`. */
  function PointTo(p: Point, destination: Point): (l: Line)
    ensures LineFrom(l) == p && LineTo(l) == destination
  {
    Line(p.x, p.y, destination.x, destination.y)
  }

  // *** Dimensions

  function DimensionsEquals(a: Dimensions, b: Dimensions): (r: bool)
    ensures r <==> a == b
  {
    a.width == b.width && a.height == b.height
  }

  /** `dimensions.scale`: both sides multiplied. */
  function DimensionsScale(d: Dimensions, multiplier: real): (s: Dimensions)
    ensures s.width == multiplier * d.width && s.height == multiplier * d.height
  {
    Dimensions(multiplier * d.width, multiplier * d.height)
  }

  /** `dimensions.rectangle`: the rectangle at the origin with these
      dimensions. */
  function DimensionsRectangle(d: Dimensions): (r: Rectangle)
    ensures RectangleDimensions(r) == d && TopLeft(r) == Point(0.0, 0.0)
  {
    Rectangle(0.0, 0.0, d.width, d.height)
  }

  /** `dimensions.polygon`. */
  function DimensionsPolygon(d: Dimensions): (p: Polygon)
    ensures |p.points| == 4
    ensures p.points[0] == Point(0.0, 0.0) && p.points[2] == Point(d.width, d.height)
  {
    RectanglePolygon(DimensionsRectangle(d))
  }

  // *** Line

  function LineFrom(l: Line): Point { Point(l.fromX, l.fromY) }

  function LineTo(l: Line): Point { Point(l.toX, l.toY) }

  /** A segment is the one `point.to` builds from its two ends. */
  lemma LineEnds(l: Line)
    ensures PointTo(LineFrom(l), LineTo(l)) == l
  {
  }

  /** `line.bounds`: the smallest rectangle holding both end points. */
  function LineBounds(l: Line): (r: Rectangle)
    ensures WellFormed(r)
    ensures InClosed(r, LineFrom(l)) && InClosed(r, LineTo(l))
    ensures forall s: Rectangle :: InClosed(s, LineFrom(l)) && InClosed(s, LineTo(l)) ==>
              s.left <= r.left && r.right <= s.right && s.top <= r.top && r.bottom <= s.bottom
  {
    Rectangle(Min(l.fromX, l.toX), Min(l.fromY, l.toY), Max(l.fromX, l.toX), Max(l.fromY, l.toY))
  }

  /** `line.yForX`: the y of the segment above `x`, `None` (the source's
      `false`) when `x` is outside the segment's x range. For a vertical
      segment the source computes NaN and answers `fromY`. */
  function YForX(l: Line, x: real): (r: Option<real>)
    ensures r.None? <==> x < Min(l.fromX, l.toX) || x > Max(l.fromX, l.toX)
    ensures r.Some? && l.fromX == l.toX ==> r.value == l.fromY
    ensures r.Some? ==> (r.value - l.fromY) * (l.toX - l.fromX) == (x - l.fromX) * (l.toY - l.fromY)
    ensures r.Some? ==> Min(l.fromY, l.toY) <= r.value <= Max(l.fromY, l.toY)
  {
    if x < Min(l.fromX, l.toX) || x > Max(l.fromX, l.toX) then None
    else if l.toX == l.fromX then
      DegenerateSegment(l.fromX, l.fromY, l.toX, l.toY, x);
      Some(l.fromY)
    else
      var y := l.fromY + (x - l.fromX) * ((l.toY - l.fromY) / (l.toX - l.fromX));
      InterpolationOnSegment(l.fromX, l.fromY, l.toX, l.toY, x, y);
      Some(y)
  }

  /** `line.xForY`: the x of the segment at height `y`, `None` outside the
      segment's y range, `fromX` for a horizontal segment. */
  function XForY(l: Line, y: real): (r: Option<real>)
    ensures r.None? <==> y < Min(l.fromY, l.toY) || y > Max(l.fromY, l.toY)
    ensures r.Some? && l.fromY == l.toY ==> r.value == l.fromX
    ensures r.Some? ==> (r.value - l.fromX) * (l.toY - l.fromY) == (y - l.fromY) * (l.toX - l.fromX)
    ensures r.Some? ==> Min(l.fromX, l.toX) <= r.value <= Max(l.fromX, l.toX)
  {
    if y < Min(l.fromY, l.toY) || y > Max(l.fromY, l.toY) then None
    else if l.toY == l.fromY then
      DegenerateSegment(l.fromY, l.fromX, l.toY, l.toX, y);
      Some(l.fromX)
    else
      var x := l.fromX + (y - l.fromY) * ((l.toX - l.fromX) / (l.toY - l.fromY));
      InterpolationOnSegment(l.fromY, l.fromX, l.toY, l.toX, y, x);
      Some(x)
  }

  /** The interpolated value along a non-degenerate segment is collinear with
      its ends and lies between them. */
  lemma InterpolationOnSegment(a0: real, b0: real, a1: real, b1: real, a: real, b: real)
    requires a0 != a1
    requires Min(a0, a1) <= a <= Max(a0, a1)
    requires b == b0 + (a - a0) * ((b1 - b0) / (a1 - a0))
    ensures (b - b0) * (a1 - a0) == (a - a0) * (b1 - b0)
    ensures Min(b0, b1) <= b <= Max(b0, b1)
  {
    var t := (a - a0) / (a1 - a0);
    assert 0.0 <= t <= 1.0 by {
      if a1 > a0 {
        FractionInUnit(a - a0, a1 - a0);
      } else {
        FractionInUnit(a0 - a, a0 - a1);
        assert (a0 - a) / (a0 - a1) == (a - a0) / (a1 - a0);
      }
    }
    assert b == b0 + t * (b1 - b0);
    BetweenEnds(b0, b1, t);
  }

  /** On a segment whose ends share the coordinate `a0`, the start value is
      collinear with the ends. */
  lemma DegenerateSegment(a0: real, b0: real, a1: real, b1: real, a: real)
    requires a0 == a1 && Min(a0, a1) <= a <= Max(a0, a1)
    ensures (b0 - b0) * (a1 - a0) == (a - a0) * (b1 - b0)
    ensures Min(b0, b1) <= b0 <= Max(b0, b1)
  {
    assert a - a0 == 0.0;
  }

  /** Linear interpolation with a parameter in [0, 1] stays between the ends. */
  lemma BetweenEnds(b0: real, b1: real, t: real)
    requires 0.0 <= t <= 1.0
    ensures Min(b0, b1) <= b0 + t * (b1 - b0) <= Max(b0, b1)
  {
    var d := t * (b1 - b0);
    if b0 <= b1 {
      ScaleBetween(t, b1 - b0, d);
    } else {
      ScaleBetween(t, b0 - b1, -d);
    }
  }

  function LineEquals(a: Line, b: Line): (r: bool)
    ensures r <==> a == b
  {
    a.fromX == b.fromX && a.toX == b.toX && a.fromY == b.fromY && a.toY == b.toY
  }

  /** Reversing a segment keeps its bounds but not its equality. */
  lemma ReversedLine(l: Line)
    requires LineFrom(l) != LineTo(l)
    ensures LineBounds(PointTo(LineTo(l), LineFrom(l))) == LineBounds(l)
    ensures !LineEquals(PointTo(LineTo(l), LineFrom(l)), l)
  {
  }

  // *** Rectangle

  /** `makeRectangleWidthHeight`: the rectangle with this top-left corner and
      these dimensions. */
  function MakeRectangleWidthHeight(left: real, top: real, width: real, height: real): (r: Rectangle)
    ensures TopLeft(r) == Point(left, top)
    ensures RectangleDimensions(r) == Dimensions(width, height)
  {
    Rectangle(left, top, left + width, top + height)
  }

  /** `rectangle.dimensions`: width and height, both non-negative exactly
      when the edges are in order. */
  function RectangleDimensions(r: Rectangle): (d: Dimensions)
    ensures WellFormed(r) <==> d.width >= 0.0 && d.height >= 0.0
  {
    Dimensions(r.right - r.left, r.bottom - r.top)
  }

  /** `rectangle.topLeft`: of a well-formed rectangle, the corner no
      point of it lies above or left of. */
  function TopLeft(r: Rectangle): (p: Point)
    ensures WellFormed(r) ==> InClosed(r, p)
    ensures forall q :: InClosed(r, q) ==> p.x <= q.x && p.y <= q.y
  {
    Point(r.left, r.top)
  }

  /** `rectangle.bottomRight`: of a well-formed rectangle, the corner no
      point of it lies below or right of. */
  function BottomRight(r: Rectangle): (p: Point)
    ensures WellFormed(r) ==> InClosed(r, p)
    ensures forall q :: InClosed(r, q) ==> q.x <= p.x && q.y <= p.y
  {
    Point(r.right, r.bottom)
  }

  /** `rectangle.center`: the point halfway between opposite corners. */
  function Center(r: Rectangle): (c: Point)
    ensures c.x - r.left == r.right - c.x && c.y - r.top == r.bottom - c.y
  {
    Point((r.left + r.right) / 2.0, (r.top + r.bottom) / 2.0)
  }

  function RectangleEquals(a: Rectangle, b: Rectangle): (r: bool)
    ensures r <==> a == b
  {
    a.left == b.left && a.top == b.top && a.right == b.right && a.bottom == b.bottom
  }

  /** `rectangle.containsPoint`: left and top edges inside, right and bottom
      edges outside. */
  function ContainsPoint(r: Rectangle, p: Point): (b: bool)
    ensures b ==> InClosed(r, p)
    ensures b ==> p.x != r.right && p.y != r.bottom
    ensures InClosed(r, p) && p.x != r.right && p.y != r.bottom ==> b
  {
    p.x >= r.left && p.x < r.right && p.y >= r.top && p.y < r.bottom
  }

  /** Half-openness makes side-by-side rectangles tile the plane: a point of
      a rectangle split at `m` belongs to exactly one of the two halves. */
  lemma ContainsPointSplit(r: Rectangle, m: real, p: Point)
    requires r.left <= m <= r.right
    ensures ContainsPoint(r, p) <==>
      ContainsPoint(Rectangle(r.left, r.top, m, r.bottom), p) || ContainsPoint(Rectangle(m, r.top, r.right, r.bottom), p)
    ensures !(ContainsPoint(Rectangle(r.left, r.top, m, r.bottom), p) && ContainsPoint(Rectangle(m, r.top, r.right, r.bottom), p))
  {
  }

  /** `rectangle.intersect`: edge-wise max of the near edges, min of the far
      edges. */
  function Intersect(a: Rectangle, b: Rectangle): (r: Rectangle)
    ensures forall p: Point :: ContainsPoint(r, p) <==> ContainsPoint(a, p) && ContainsPoint(b, p)
    ensures forall p: Point :: InClosed(r, p) <==> InClosed(a, p) && InClosed(b, p)
  {
    Rectangle(Max(a.left, b.left), Max(a.top, b.top), Min(a.right, b.right), Min(a.bottom, b.bottom))
  }

  /** `rectangle.inset(insetWidth, insetHeight)`. A missing or zero
      `insetHeight` falls back to `insetWidth` (the source's `||`); each
      amount is then capped at half the rectangle's extent. */
  function Inset(r: Rectangle, insetWidth: real, insetHeight: Option<real>): (s: Rectangle)
    ensures WellFormed(r) ==> WellFormed(s)
    ensures Center(s) == Center(r)
    ensures 2.0 * insetWidth <= r.right - r.left ==>
              s.left == r.left + insetWidth && s.right == r.right - insetWidth
    ensures 2.0 * insetWidth >= r.right - r.left ==> s.left == s.right == Center(r).x
    ensures var h := InsetHeightOrWidth(insetWidth, insetHeight);
            2.0 * h <= r.bottom - r.top ==> s.top == r.top + h && s.bottom == r.bottom - h
    ensures var h := InsetHeightOrWidth(insetWidth, insetHeight);
            2.0 * h >= r.bottom - r.top ==> s.top == s.bottom == Center(r).y
    ensures WellFormed(r) && insetWidth >= 0.0 && InsetHeightOrWidth(insetWidth, insetHeight) >= 0.0 ==>
              forall p: Point :: InClosed(s, p) ==> InClosed(r, p)
  {
    var h := InsetHeightOrWidth(insetWidth, insetHeight);
    var w := Min(insetWidth, (r.right - r.left) / 2.0);
    var v := Min(h, (r.bottom - r.top) / 2.0);
    Rectangle(r.left + w, r.top + v, r.right - w, r.bottom - v)
  }

  /** JavaScript's `insetHeight || insetWidth` on a number that may be
      missing: `undefined` and `0` are both falsy. */
  function InsetHeightOrWidth(insetWidth: real, insetHeight: Option<real>): real
  {
    if insetHeight.None? || insetHeight.value == 0.0 then insetWidth else insetHeight.value
  }

  /** The one-argument form insets both axes by the same amount. */
  lemma InsetOneArgument(r: Rectangle, amount: real)
    ensures Inset(r, amount, None) == Inset(r, amount, Some(amount))
  {
  }

  /** An explicit zero height is read as "not given". */
  lemma InsetZeroHeight(r: Rectangle, amount: real)
    ensures Inset(r, amount, Some(0.0)) == Inset(r, amount, None)
  {
  }

  /** `rectangle.scale`: every edge multiplied. */
  function RectangleScale(r: Rectangle, scale: real): (s: Rectangle)
    ensures RectangleDimensions(s) == DimensionsScale(RectangleDimensions(r), scale)
    ensures TopLeft(s) == Point(scale * r.left, scale * r.top)
  {
    Rectangle(r.left * scale, r.top * scale, r.right * scale, r.bottom * scale)
  }

  /** `rectangle.polygon`: the four corners clockwise from the top left. */
  function RectanglePolygon(r: Rectangle): (p: Polygon)
    ensures |p.points| == 4
    ensures p.points[0] == TopLeft(r) && p.points[2] == BottomRight(r)
    ensures p.points[1] == Point(r.right, r.top) && p.points[3] == Point(r.left, r.bottom)
  {
    Polygon([Point(r.left, r.top), Point(r.right, r.top), Point(r.right, r.bottom), Point(r.left, r.bottom)])
  }

  // *** Transform

  predicate IsAffine(t: Transform)
  {
    t.m6 == 0.0 && t.m7 == 0.0 && t.m8 == 1.0
  }

  function Determinant(a: Transform): real
  {
    a.m0 * a.m4 * a.m8 - a.m0 * a.m5 * a.m7 - a.m1 * a.m3 * a.m8
    + a.m1 * a.m5 * a.m6 + a.m2 * a.m3 * a.m7 - a.m2 * a.m4 * a.m6
  }

  /** `transform.compose`: the matrix product `a · b`. */
  function Compose(a: Transform, b: Transform): (c: Transform)
    ensures IsAffine(a) && IsAffine(b) ==> IsAffine(c)
  {
    Transform(
      a.m0 * b.m0 + a.m1 * b.m3 + a.m2 * b.m6,
      a.m0 * b.m1 + a.m1 * b.m4 + a.m2 * b.m7,
      a.m0 * b.m2 + a.m1 * b.m5 + a.m2 * b.m8,
      a.m3 * b.m0 + a.m4 * b.m3 + a.m5 * b.m6,
      a.m3 * b.m1 + a.m4 * b.m4 + a.m5 * b.m7,
      a.m3 * b.m2 + a.m4 * b.m5 + a.m5 * b.m8,
      a.m6 * b.m0 + a.m7 * b.m3 + a.m8 * b.m6,
      a.m6 * b.m1 + a.m7 * b.m4 + a.m8 * b.m7,
      a.m6 * b.m2 + a.m7 * b.m5 + a.m8 * b.m8)
  }

  /** Projecting through `a.compose(b)` is projecting through `b`, then `a`. */
  lemma ComposeProject(a: Transform, b: Transform, p: Point)
    requires IsAffine(b)
    ensures Project(p, Compose(a, b)) == Project(Project(p, b), a)
  {
    var q := Project(p, b);
    var c := Compose(a, b);
    RowTimesAffine(a.m0, a.m1, a.m2, b, p, q, c.m0, c.m1, c.m2);
    RowTimesAffine(a.m3, a.m4, a.m5, b, p, q, c.m3, c.m4, c.m5);
  }

  /** One row of the product, applied to a point, is that row applied to the
      point's image under `b`. */
  lemma RowTimesAffine(r0: real, r1: real, r2: real, b: Transform, p: Point, q: Point,
                       c0: real, c1: real, c2: real)
    requires IsAffine(b) && q == Project(p, b)
    requires c0 == r0 * b.m0 + r1 * b.m3 + r2 * b.m6
    requires c1 == r0 * b.m1 + r1 * b.m4 + r2 * b.m7
    requires c2 == r0 * b.m2 + r1 * b.m5 + r2 * b.m8
    ensures c0 * p.x + c1 * p.y + c2 == r0 * q.x + r1 * q.y + r2
  {
    assert c0 == r0 * b.m0 + r1 * b.m3;
    assert c1 == r0 * b.m1 + r1 * b.m4;
    assert c2 == r0 * b.m2 + r1 * b.m5 + r2;
    assert r0 * q.x == r0 * b.m0 * p.x + r0 * b.m1 * p.y + r0 * b.m2;
    assert r1 * q.y == r1 * b.m3 * p.x + r1 * b.m4 * p.y + r1 * b.m5;
  }

  /** `transform.inverse`: the adjugate divided by the determinant. With a
      zero determinant the source divides by zero and yields a matrix of
      NaN and infinities; the model answers `None` there. */
  function Inverse(a: Transform): (r: Option<Transform>)
    ensures r.None? <==> Determinant(a) == 0.0
  {
    var det := Determinant(a);
    if det == 0.0 then None else Some(DivideEntries(Adjugate(a), det))
  }

  /** The transposed cofactor matrix, as the source writes it out. */
  function Adjugate(a: Transform): Transform
  {
    Transform(
      a.m4 * a.m8 - a.m5 * a.m7,
      -(a.m1 * a.m8 - a.m2 * a.m7),
      a.m1 * a.m5 - a.m2 * a.m4,
      -(a.m3 * a.m8 - a.m5 * a.m6),
      a.m0 * a.m8 - a.m2 * a.m6,
      -(a.m0 * a.m5 - a.m2 * a.m3),
      a.m3 * a.m7 - a.m4 * a.m6,
      -(a.m0 * a.m7 - a.m1 * a.m6),
      a.m0 * a.m4 - a.m1 * a.m3)
  }

  function DivideEntries(t: Transform, d: real): Transform
    requires d != 0.0
  {
    Transform(t.m0 / d, t.m1 / d, t.m2 / d, t.m3 / d, t.m4 / d, t.m5 / d, t.m6 / d, t.m7 / d, t.m8 / d)
  }

  /** The inverse of an invertible affine transform undoes its projection,
      in both orders. */
  lemma InverseProject(a: Transform, p: Point)
    requires IsAffine(a) && Determinant(a) != 0.0
    ensures Inverse(a).Some?
    ensures Project(Project(p, a), Inverse(a).value) == p
    ensures Project(Project(p, Inverse(a).value), a) == p
  {
    AffineDeterminant(a);
    var inv := DivideEntries(Adjugate(a), Determinant(a));
    ScaledAdjugate(a, Determinant(a), inv);
    InverseAfterProject(a, inv, Determinant(a), p);
    ProjectAfterInverse(a, inv, Determinant(a), p);
  }

  lemma InverseAfterProject(a: Transform, inv: Transform, det: real, p: Point)
    requires AffineInverseEntries(a, det, inv)
    ensures Project(Project(p, a), inv) == p
  {
    var u, v := a.m0 * p.x + a.m1 * p.y + a.m2, a.m3 * p.x + a.m4 * p.y + a.m5;
    UndoAffine(a.m0, a.m1, a.m2, a.m3, a.m4, a.m5, inv.m0, inv.m1, inv.m2, inv.m3, inv.m4, inv.m5,
               det, p.x, p.y, u, v);
  }

  lemma ProjectAfterInverse(a: Transform, inv: Transform, det: real, p: Point)
    requires AffineInverseEntries(a, det, inv)
    ensures Project(Project(p, inv), a) == p
  {
    var s, t := inv.m0 * p.x + inv.m1 * p.y + inv.m2, inv.m3 * p.x + inv.m4 * p.y + inv.m5;
    RedoAffine(a.m0, a.m1, a.m2, a.m3, a.m4, a.m5, inv.m0, inv.m1, inv.m2, inv.m3, inv.m4, inv.m5,
               det, p.x, p.y, s, t);
  }

  /** The first two rows of the inverse `inv` of an affine matrix with
      determinant `det`: each entry times the determinant is the matching
      adjugate entry. */
  predicate AffineInverseEntries(a: Transform, det: real, inv: Transform)
  {
    && det == a.m0 * a.m4 - a.m1 * a.m3 && det != 0.0
    && inv.m0 * det == a.m4 && inv.m1 * det == -a.m1 && inv.m2 * det == a.m1 * a.m5 - a.m2 * a.m4
    && inv.m3 * det == -a.m3 && inv.m4 * det == a.m0 && inv.m5 * det == -(a.m0 * a.m5 - a.m2 * a.m3)
  }

  /** The inverse of an affine matrix, computed as the source does, has the
      entries `AffineInverseEntries` describes. */
  lemma ScaledAdjugate(a: Transform, det: real, inv: Transform)
    requires IsAffine(a) && det == a.m0 * a.m4 - a.m1 * a.m3 && det != 0.0
    requires inv == DivideEntries(Adjugate(a), det)
    ensures AffineInverseEntries(a, det, inv)
  {
    ScaledFirstRow(a, det, inv);
    ScaledSecondRow(a, det, inv);
  }

  lemma ScaledFirstRow(a: Transform, det: real, inv: Transform)
    requires IsAffine(a) && det != 0.0
    requires inv == DivideEntries(Adjugate(a), det)
    ensures inv.m0 * det == a.m4 && inv.m1 * det == -a.m1 && inv.m2 * det == a.m1 * a.m5 - a.m2 * a.m4
  {
    var adj := Adjugate(a);
    AffineAdjugate(a, adj);
    QuotientTimes(adj.m0, det, inv.m0);
    QuotientTimes(adj.m1, det, inv.m1);
    QuotientTimes(adj.m2, det, inv.m2);
  }

  lemma ScaledSecondRow(a: Transform, det: real, inv: Transform)
    requires IsAffine(a) && det != 0.0
    requires inv == DivideEntries(Adjugate(a), det)
    ensures inv.m3 * det == -a.m3 && inv.m4 * det == a.m0 && inv.m5 * det == -(a.m0 * a.m5 - a.m2 * a.m3)
  {
    var adj := Adjugate(a);
    AffineAdjugate(a, adj);
    QuotientTimes(adj.m3, det, inv.m3);
    QuotientTimes(adj.m4, det, inv.m4);
    QuotientTimes(adj.m5, det, inv.m5);
  }

  /** The first two rows of the adjugate of an affine matrix. */
  lemma AffineAdjugate(a: Transform, adj: Transform)
    requires IsAffine(a) && adj == Adjugate(a)
    ensures adj.m0 == a.m4 && adj.m1 == -a.m1 && adj.m2 == a.m1 * a.m5 - a.m2 * a.m4
    ensures adj.m3 == -a.m3 && adj.m4 == a.m0 && adj.m5 == -(a.m0 * a.m5 - a.m2 * a.m3)
  {
  }

  /** The determinant of an affine matrix is that of its linear part. */
  lemma AffineDeterminant(a: Transform)
    requires IsAffine(a)
    ensures Determinant(a) == a.m0 * a.m4 - a.m1 * a.m3
  {
  }

  /** `makeIdentity`. */
  function Identity(): (t: Transform)
    ensures IsAffine(t)
  {
    Transform(1.0, 0.0, 0.0, 0.0, 1.0, 0.0, 0.0, 0.0, 1.0)
  }

  /** The identity moves no point and has determinant 1. */
  lemma IdentityProject(p: Point)
    ensures Project(p, Identity()) == p && Determinant(Identity()) == 1.0
  {
  }

  /** `makeTranslate`: moves every point by the offset. */
  function Translate(offsetX: real, offsetY: real): (t: Transform)
    ensures IsAffine(t)
  {
    Transform(1.0, 0.0, offsetX, 0.0, 1.0, offsetY, 0.0, 0.0, 1.0)
  }

  /** A translation moves every point by the offset and keeps areas. */
  lemma TranslateProject(offsetX: real, offsetY: real, p: Point)
    ensures Project(p, Translate(offsetX, offsetY)) == Point(p.x + offsetX, p.y + offsetY)
    ensures Determinant(Translate(offsetX, offsetY)) == 1.0
  {
  }

  /** `makeScale`: multiplies each coordinate by its factor. */
  function Scale(scaleX: real, scaleY: real): (t: Transform)
    ensures IsAffine(t)
  {
    Transform(scaleX, 0.0, 0.0, 0.0, scaleY, 0.0, 0.0, 0.0, 1.0)
  }

  /** A scaling multiplies each coordinate by its factor and areas by
      their product. */
  lemma ScaleProject(scaleX: real, scaleY: real, p: Point)
    ensures Project(p, Scale(scaleX, scaleY)) == Point(scaleX * p.x, scaleY * p.y)
    ensures Determinant(Scale(scaleX, scaleY)) == scaleX * scaleY
  {
  }

  /** `makeRotate`: rotation by `radians`, with the host's cosine and sine. */
  function Rotate(radians: real, math: HostMath): (t: Transform)
    ensures IsAffine(t)
  {
    var c := math.cos(radians);
    var s := math.sin(radians);
    Transform(c, -s, 0.0, s, c, 0.0, 0.0, 0.0, 1.0)
  }

  /** With cos² + sin² = 1 a rotation keeps areas. */
  lemma RotateDeterminant(radians: real, math: HostMath)
    requires ValidMath(math)
    ensures Determinant(Rotate(radians, math)) == 1.0
  {
    var c := math.cos(radians);
    var s := math.sin(radians);
    assert c * c + s * s == 1.0;
  }

  /** Intersection does not depend on the order of its arguments. */
  lemma IntersectCommutes(a: Rectangle, b: Rectangle)
    ensures Intersect(a, b) == Intersect(b, a)
  {
  }

  /** Two translations compose into the translation by the summed offsets. */
  lemma ComposeTranslations(x1: real, y1: real, x2: real, y2: real)
    ensures Compose(Translate(x1, y1), Translate(x2, y2)) == Translate(x1 + x2, y1 + y2)
  {
  }

  /** The determinant of a product of affine transforms is the product of
      their determinants, so composing invertible transforms stays
      invertible. */
  lemma DeterminantCompose(a: Transform, b: Transform)
    requires IsAffine(a) && IsAffine(b)
    ensures Determinant(Compose(a, b)) == Determinant(a) * Determinant(b)
  {
    var c := Compose(a, b);
    AffineDeterminant(a);
    AffineDeterminant(b);
    AffineDeterminant(c);
    assert c.m0 == a.m0 * b.m0 + a.m1 * b.m3 && c.m1 == a.m0 * b.m1 + a.m1 * b.m4;
    assert c.m3 == a.m3 * b.m0 + a.m4 * b.m3 && c.m4 == a.m3 * b.m1 + a.m4 * b.m4;
    ProductOfDeterminants(a.m0, a.m1, a.m3, a.m4, b.m0, b.m1, b.m3, b.m4);
  }

  /** The 2 × 2 determinant of a product, over plain numbers. */
  lemma ProductOfDeterminants(a0: real, a1: real, a3: real, a4: real, b0: real, b1: real, b3: real, b4: real)
    ensures (a0 * b0 + a1 * b3) * (a3 * b1 + a4 * b4) - (a0 * b1 + a1 * b4) * (a3 * b0 + a4 * b3)
            == (a0 * a4 - a1 * a3) * (b0 * b4 - b1 * b3)
  {
  }
}
