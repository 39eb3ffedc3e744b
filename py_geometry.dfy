/** The Python tiler's geometry (tiler/tiler-v02/geometry): points and
    dimensions with keyword defaults, a rectangle whose edges two methods
    move in place, and an affine transform kept as a list of nine numbers.
    Points, dimensions and rectangle edges are the values of `Geometry`;
    a query on a `Rectangle` object is the function below applied to its
    `Edges()`. Numbers are exact reals. Where the tiler's values are
    Python 2 integers, `/` floors: in `inverse` (see `IntegerInverse`) and
    in `getCenter` of the integer image bounds (see `IntegerCenter`). */
module PyGeometry {
  import opened Wrappers
  import opened Numerics
  import G = Geometry

  /** The right-hand side of a Python `==`: an instance of the class being
      compared, or any other object. */
  datatype Operand<T> = Instance(value: T) | Foreign

  /** A keyword argument, or its default 0. */
  function Given(v: Option<real>): (r: real)
    ensures v.None? ==> r == 0.0
    ensures v.Some? ==> r == v.value
  {
    if v.Some? then v.value else 0.0
  }

  // *** Point

  /** `Point(x = 0, y = 0)`. */
  function NewPoint(x: Option<real>, y: Option<real>): G.Point
  {
    G.Point(Given(x), Given(y))
  }

  /** `point.__eq__`: another `Point` with the same coordinates. */
  function PointEquals(p: G.Point, other: Operand<G.Point>): (eq: bool)
    ensures eq <==> other == Instance(p)
  {
    match other
    case Foreign => false
    case Instance(q) => if p.x != q.x || p.y != q.y then false else true
  }

  /** `point.__ne__`. */
  function PointNotEquals(p: G.Point, other: Operand<G.Point>): (ne: bool)
    ensures ne <==> other != Instance(p)
  {
    !PointEquals(p, other)
  }

  /** `point.project(transform)`: the transform's projection of the point,
      which is the viewer's projection through the same matrix. */
  function PointProject(p: G.Point, transform: Transform): (q: G.Point)
    ensures q == G.Project(p, AsMatrix(transform))
  {
    Project(transform, p)
  }

  /** The default point is the origin, which every transform sends to its
      translation column. */
  lemma DefaultPoint(transform: Transform)
    ensures NewPoint(None, None) == G.Point(0.0, 0.0)
    ensures PointProject(NewPoint(None, None), transform) == G.Point(transform.matrix[2], transform.matrix[5])
  {
  }

  // *** Dimensions

  /** `Dimensions(width = 0, height = 0)`. */
  function NewDimensions(width: Option<real>, height: Option<real>): G.Dimensions
  {
    G.Dimensions(Given(width), Given(height))
  }

  /** `dimensions.__eq__`: other `Dimensions` with the same sides. */
  function DimensionsEquals(d: G.Dimensions, other: Operand<G.Dimensions>): (eq: bool)
    ensures eq <==> other == Instance(d)
  {
    match other
    case Foreign => false
    case Instance(e) => if d.width != e.width || d.height != e.height then false else true
  }

  /** `dimensions.__ne__`. */
  function DimensionsNotEquals(d: G.Dimensions, other: Operand<G.Dimensions>): (ne: bool)
    ensures ne <==> other != Instance(d)
  {
    !DimensionsEquals(d, other)
  }

  /** Default dimensions are empty: the default rectangle's size. */
  lemma DefaultDimensions()
    ensures NewDimensions(None, None) == G.Dimensions(0.0, 0.0)
    ensures DimensionsEquals(NewDimensions(None, None), Instance(G.RectangleDimensions(G.Rectangle(0.0, 0.0, 0.0, 0.0))))
  {
  }

  // *** Transform

  /** The nine entries of a 3×3 matrix, row by row. */
  type Matrix = m: seq<real> | |m| == 9 witness [1.0, 0.0, 0.0, 0.0, 1.0, 0.0, 0.0, 0.0, 1.0]

  /** `Transform`: its `matrix` list. */
  datatype Transform = Transform(matrix: Matrix)

  /** The same matrix as the viewer's transform value, which the lemmas of
      `Geometry` are about. */
  function AsMatrix(t: Transform): G.Transform
  {
    var m := t.matrix;
    G.Transform(m[0], m[1], m[2], m[3], m[4], m[5], m[6], m[7], m[8])
  }

  /** Two transforms with the same matrix are the same list. */
  lemma AsMatrixInjective(a: Transform, b: Transform)
    requires AsMatrix(a) == AsMatrix(b)
    ensures a == b
  {
    assert forall i | 0 <= i < 9 :: a.matrix[i] == b.matrix[i];
    assert a.matrix == b.matrix;
  }

  /** `Transform()` and `makeIdentity`: the identity matrix. */
  function NewTransform(): (t: Transform)
    ensures AsMatrix(t) == G.Identity()
  {
    Transform([1.0, 0.0, 0.0, 0.0, 1.0, 0.0, 0.0, 0.0, 1.0])
  }

  /** `makeTranslate`. */
  function MakeTranslate(offsetX: real, offsetY: real): (t: Transform)
    ensures AsMatrix(t) == G.Translate(offsetX, offsetY)
  {
    Transform([1.0, 0.0, offsetX, 0.0, 1.0, offsetY, 0.0, 0.0, 1.0])
  }

  /** `makeScale`. */
  function MakeScale(scaleX: real, scaleY: real): (t: Transform)
    ensures AsMatrix(t) == G.Scale(scaleX, scaleY)
  {
    Transform([scaleX, 0.0, 0.0, 0.0, scaleY, 0.0, 0.0, 0.0, 1.0])
  }

  /** `makeRotate`, with the host's cosine and sine. */
  function MakeRotate(radians: real, math: HostMath): (t: Transform)
    ensures AsMatrix(t) == G.Rotate(radians, math)
  {
    var c := math.cos(radians);
    var s := math.sin(radians);
    Transform([c, -s, 0.0, s, c, 0.0, 0.0, 0.0, 1.0])
  }

  /** `transform.project(point)`: the first two rows applied to (x, y, 1). */
  function Project(t: Transform, p: G.Point): (q: G.Point)
    ensures q == G.Project(p, AsMatrix(t))
  {
    var m := t.matrix;
    G.Point(m[0] * p.x + m[1] * p.y + m[2], m[3] * p.x + m[4] * p.y + m[5])
  }

  /** The identity moves no point, and a translation moves every point by
      its offset. */
  lemma IdentityAndTranslate(offsetX: real, offsetY: real, p: G.Point)
    ensures Project(NewTransform(), p) == p
    ensures Project(MakeTranslate(offsetX, offsetY), p) == G.Point(p.x + offsetX, p.y + offsetY)
  {
  }

  /** The list of a matrix's nine entries. */
  function FromMatrix(m: G.Transform): (t: Transform)
    ensures AsMatrix(t) == m
  {
    Transform([m.m0, m.m1, m.m2, m.m3, m.m4, m.m5, m.m6, m.m7, m.m8])
  }

  /** `transform.compose(other)`: the nine entries of the matrix product,
      which are those the viewer's `compose` writes out. */
  function Compose(a: Transform, b: Transform): (c: Transform)
    ensures AsMatrix(c) == G.Compose(AsMatrix(a), AsMatrix(b))
  {
    FromMatrix(G.Compose(AsMatrix(a), AsMatrix(b)))
  }

  /** Projecting through `a.compose(b)` is projecting through `b`, then
      through `a`, whenever `b` is affine. */
  lemma ComposeProject(a: Transform, b: Transform, p: G.Point)
    requires G.IsAffine(AsMatrix(b))
    ensures Project(Compose(a, b), p) == Project(a, Project(b, p))
  {
    G.ComposeProject(AsMatrix(a), AsMatrix(b), p);
  }

  /** Composing two translations adds their offsets. */
  lemma ComposeTranslations(x1: real, y1: real, x2: real, y2: real)
    ensures Compose(MakeTranslate(x1, y1), MakeTranslate(x2, y2)) == MakeTranslate(x1 + x2, y1 + y2)
  {
    G.ComposeTranslations(x1, y1, x2, y2);
    AsMatrixInjective(Compose(MakeTranslate(x1, y1), MakeTranslate(x2, y2)), MakeTranslate(x1 + x2, y1 + y2));
  }

  /** `transform.inverse()`: the adjugate divided by the determinant,
      entry by entry as in the viewer's `inverse`. A zero determinant
      raises `ZeroDivisionError`, which is `None` here. */
  function Inverse(t: Transform): (r: Option<Transform>)
    ensures r.None? <==> G.Determinant(AsMatrix(t)) == 0.0
    ensures r.Some? ==> AsMatrix(r.value) == G.Inverse(AsMatrix(t)).value
  {
    var m := AsMatrix(t);
    var det := G.Determinant(m);
    if det == 0.0 then None else Some(FromMatrix(G.DivideEntries(G.Adjugate(m), det)))
  }

  /** The inverse of an invertible affine transform undoes its projection,
      in both orders. */
  lemma InverseProject(t: Transform, p: G.Point)
    requires G.IsAffine(AsMatrix(t)) && G.Determinant(AsMatrix(t)) != 0.0
    ensures Inverse(t).Some?
    ensures Project(Inverse(t).value, Project(t, p)) == p
    ensures Project(t, Project(Inverse(t).value, p)) == p
  {
    G.InverseProject(AsMatrix(t), p);
  }

  /** `inverse` of a matrix whose nine entries are all Python 2 integers:
      `/` then floors every entry. */
  function IntegerInverse(a: seq<int>): (r: Option<seq<int>>)
    requires |a| == 9
    ensures r.Some? ==> |r.value| == 9
  {
    var det := a[0] * a[4] * a[8] - a[0] * a[5] * a[7] - a[1] * a[3] * a[8]
             + a[1] * a[5] * a[6] + a[2] * a[3] * a[7] - a[2] * a[4] * a[6];
    if det == 0 then None
    else
      Some([
        FloorDivide(a[4] * a[8] - a[5] * a[7], det),
        FloorDivide(-(a[1] * a[8] - a[2] * a[7]), det),
        FloorDivide(a[1] * a[5] - a[2] * a[4], det),
        FloorDivide(-(a[3] * a[8] - a[5] * a[6]), det),
        FloorDivide(a[0] * a[8] - a[2] * a[6], det),
        FloorDivide(-(a[0] * a[5] - a[2] * a[3]), det),
        FloorDivide(a[3] * a[7] - a[4] * a[6], det),
        FloorDivide(-(a[0] * a[7] - a[1] * a[6]), det),
        FloorDivide(a[0] * a[4] - a[1] * a[3], det)])
  }

  /** Python 2's `/` on two integers: the floor of the exact quotient. */
  function FloorDivide(n: int, d: int): (q: int)
    requires d != 0
    ensures q as real <= n as real / d as real < q as real + 1.0
  {
    Floor(n as real / d as real)
  }

  /** `makeScale(2, 2).inverse()` with integer arguments: every entry of
      the linear part floors to 0, so the result sends every point to the
      origin. */
  lemma IntegerScaleInverse()
    ensures IntegerInverse([2, 0, 0, 0, 2, 0, 0, 0, 1]) == Some([0, 0, 0, 0, 0, 0, 0, 0, 1])
  {
    assert FloorDivide(2, 4) == 0 by {
      assert 2 as real / 4 as real == 0.5;
    }
    assert FloorDivide(4, 4) == 1 by {
      assert 4 as real / 4 as real == 1.0;
    }
    assert FloorDivide(0, 4) == 0 by {
      assert 0 as real / 4 as real == 0.0;
    }
  }

  /** `rectangle.getCenter()` on a rectangle whose edges are Python 2
      integers, as the tiler builds its image bounds: `/ 2` floors each
      coordinate, so the result is the exact centre rounded down. */
  function IntegerCenter(left: int, top: int, right: int, bottom: int): (c: (int, int))
    ensures 2 * c.0 <= left + right < 2 * c.0 + 2
    ensures 2 * c.1 <= top + bottom < 2 * c.1 + 2
  {
    (FloorDivide(left + right, 2), FloorDivide(top + bottom, 2))
  }

  /** The integer centre is the exact centre exactly when both edge sums
      are even, and half a unit above and left of it otherwise. */
  lemma IntegerCenterAgainstExact(left: int, top: int, right: int, bottom: int)
    ensures var c := IntegerCenter(left, top, right, bottom);
            var e := G.Center(G.Rectangle(left as real, top as real, right as real, bottom as real));
            && (c.0 as real == e.x <==> (left + right) % 2 == 0)
            && (c.1 as real == e.y <==> (top + bottom) % 2 == 0)
            && (c.0 as real == e.x || c.0 as real + 0.5 == e.x)
            && (c.1 as real == e.y || c.1 as real + 0.5 == e.y)
  {
  }

  /** `Rectangle(0, 0, 5, 5).getCenter()` is `Point(2, 2)`, while the
      exact centre is (2.5, 2.5). */
  lemma IntegerCenterOfOddSquare()
    ensures IntegerCenter(0, 0, 5, 5) == (2, 2)
    ensures G.Center(G.Rectangle(0.0, 0.0, 5.0, 5.0)) == G.Point(2.5, 2.5)
  {
  }

  /** `transform.__eq__`: another `Transform` with the same matrix list. */
  function TransformEquals(t: Transform, other: Operand<Transform>): (eq: bool)
    ensures eq <==> other == Instance(t)
  {
    match other
    case Foreign => false
    case Instance(u) => t.matrix == u.matrix
  }

  /** `transform.__ne__`. */
  function TransformNotEquals(t: Transform, other: Operand<Transform>): (ne: bool)
    ensures ne <==> other != Instance(t)
  {
    !TransformEquals(t, other)
  }

  // *** Rectangle

  /** `rectangle.contains(other)`: all four of `other`'s edges within. */
  function Contains(r: G.Rectangle, other: G.Rectangle): (b: bool)
    ensures G.WellFormed(other) ==> (b <==> G.InClosed(r, G.TopLeft(other)) && G.InClosed(r, G.BottomRight(other)))
  {
    other.top >= r.top && other.bottom <= r.bottom && other.left >= r.left && other.right <= r.right
  }

  /** `rectangle.overlaps(other)`: neither lies wholly beyond an edge of the
      other; touching edges overlap. */
  function Overlaps(r: G.Rectangle, other: G.Rectangle): (b: bool)
    ensures G.WellFormed(r) && G.WellFormed(other) ==> (b <==> G.WellFormed(Intersect(r, other)))
  {
    other.bottom >= r.top && other.top <= r.bottom && other.right >= r.left && other.left <= r.right
  }

  /** `rectangle.containsPoint(point)`: closed on all four edges. */
  function ContainsPoint(r: G.Rectangle, p: G.Point): (b: bool)
    ensures b <==> G.InClosed(r, p)
  {
    p.x >= r.left && p.x <= r.right && p.y >= r.top && p.y <= r.bottom
  }

  /** `rectangle.project(transform)`: the rectangle spanned by the images
      of the top-left and bottom-right corners, in that order. */
  function ProjectRectangle(r: G.Rectangle, t: Transform): (q: G.Rectangle)
    ensures G.TopLeft(q) == Project(t, G.TopLeft(r)) && G.BottomRight(q) == Project(t, G.BottomRight(r))
  {
    var topLeft := Project(t, G.TopLeft(r));
    var bottomRight := Project(t, G.BottomRight(r));
    G.Rectangle(topLeft.x, topLeft.y, bottomRight.x, bottomRight.y)
  }

  /** `rectangle.inset(dimensions)`: each edge moved inwards by the inset,
      with no clamping. */
  function Inset(r: G.Rectangle, d: G.Dimensions): (i: G.Rectangle)
    ensures G.Center(i) == G.Center(r)
    ensures G.RectangleDimensions(i) == G.Dimensions(r.right - r.left - 2.0 * d.width, r.bottom - r.top - 2.0 * d.height)
  {
    G.Rectangle(r.left + d.width, r.top + d.height, r.right - d.width, r.bottom - d.height)
  }

  /** `rectangle.intersect(other)`. */
  function Intersect(r: G.Rectangle, other: G.Rectangle): (i: G.Rectangle)
    ensures forall p :: G.InClosed(i, p) <==> G.InClosed(r, p) && G.InClosed(other, p)
  {
    G.Rectangle(Max(r.left, other.left), Max(r.top, other.top), Min(r.right, other.right), Min(r.bottom, other.bottom))
  }

  /** `rectangle.extend(other)`. */
  function Extend(r: G.Rectangle, other: G.Rectangle): (e: G.Rectangle)
    ensures Contains(e, r) && Contains(e, other)
    ensures forall c: G.Rectangle :: Contains(c, r) && Contains(c, other) ==> Contains(c, e)
  {
    G.Rectangle(Min(r.left, other.left), Min(r.top, other.top), Max(r.right, other.right), Max(r.bottom, other.bottom))
  }

  /** `rectangle.__eq__`: another `Rectangle` with the same four edges. */
  function RectangleEquals(r: G.Rectangle, other: Operand<G.Rectangle>): (eq: bool)
    ensures eq <==> other == Instance(r)
  {
    match other
    case Foreign => false
    case Instance(s) => r.left == s.left && r.top == s.top && r.right == s.right && r.bottom == s.bottom
  }

  /** `rectangle.__ne__`. */
  function RectangleNotEquals(r: G.Rectangle, other: Operand<G.Rectangle>): (ne: bool)
    ensures ne <==> other != Instance(r)
  {
    !RectangleEquals(r, other)
  }

  /** The edges after `setTopLeft(p)`: both edges of each axis shifted by
      the same offset. */
  function MovedTo(r: G.Rectangle, p: G.Point): (moved: G.Rectangle)
    ensures G.TopLeft(moved) == p
    ensures G.RectangleDimensions(moved) == G.RectangleDimensions(r)
  {
    var xOffset := p.x - r.left;
    var yOffset := p.y - r.top;
    G.Rectangle(r.left + xOffset, r.top + yOffset, r.right + xOffset, r.bottom + yOffset)
  }

  /** The edges after `setDimensions(d)`. */
  function Resized(r: G.Rectangle, d: G.Dimensions): (resized: G.Rectangle)
    ensures G.TopLeft(resized) == G.TopLeft(r)
    ensures G.RectangleDimensions(resized) == d
  {
    G.Rectangle(r.left, r.top, r.left + d.width, r.top + d.height)
  }

  /** `Rectangle`: four edges, which `setTopLeft` and `setDimensions` move
      in place. */
  class Rectangle {
    var left: real
    var top: real
    var right: real
    var bottom: real

    /** The edges as a value. */
    function Edges(): G.Rectangle
      reads this
    {
      G.Rectangle(left, top, right, bottom)
    }

    /** `Rectangle(left = 0, top = 0, right = 0, bottom = 0)`. */
    constructor(left: Option<real>, top: Option<real>, right: Option<real>, bottom: Option<real>)
      ensures Edges() == G.Rectangle(Given(left), Given(top), Given(right), Given(bottom))
    {
      this.left := Given(left);
      this.top := Given(top);
      this.right := Given(right);
      this.bottom := Given(bottom);
    }

    /** `setTopLeft`: moves the rectangle so that its top-left corner is
        `topLeft`, keeping its size. */
    method SetTopLeft(topLeft: G.Point)
      modifies this
      ensures Edges() == MovedTo(old(Edges()), topLeft)
    {
      var xOffset := topLeft.x - left;
      var yOffset := topLeft.y - top;
      left := left + xOffset;
      right := right + xOffset;
      top := top + yOffset;
      bottom := bottom + yOffset;
    }

    /** `setDimensions`: keeps the top-left corner and gives the rectangle
        the new size. */
    method SetDimensions(dimensions: G.Dimensions)
      modifies this
      ensures Edges() == Resized(old(Edges()), dimensions)
    {
      right := left + dimensions.width;
      bottom := top + dimensions.height;
    }
  }

  /** Moving a rectangle and moving it back to where it was restores it. */
  lemma MoveBack(r: G.Rectangle, p: G.Point)
    ensures MovedTo(MovedTo(r, p), G.TopLeft(r)) == r
  {
  }

  /** For a well-formed `other`, `contains` is inclusion of the closed
      point sets, and it is decided by `other`'s two corners. */
  lemma ContainsIffSubset(r: G.Rectangle, other: G.Rectangle)
    requires G.WellFormed(other)
    ensures Contains(r, other) <==> forall p: G.Point :: G.InClosed(other, p) ==> G.InClosed(r, p)
    ensures Contains(r, other) <==> ContainsPoint(r, G.TopLeft(other)) && ContainsPoint(r, G.BottomRight(other))
  {
    if forall p: G.Point :: G.InClosed(other, p) ==> G.InClosed(r, p) {
      assert G.InClosed(other, G.TopLeft(other));
      assert G.InClosed(other, G.BottomRight(other));
    }
  }

  /** `containsPoint` is membership of the closed rectangle. The viewer's
      half-open `containsPoint` implies it, and they differ only on the
      right and bottom edges, such as at the bottom-right corner. */
  lemma ContainsPointClosed(r: G.Rectangle, p: G.Point)
    ensures ContainsPoint(r, p) <==> G.InClosed(r, p)
    ensures G.ContainsPoint(r, p) ==> ContainsPoint(r, p)
    ensures ContainsPoint(r, p) && !G.ContainsPoint(r, p) ==> p.x == r.right || p.y == r.bottom
    ensures G.WellFormed(r) ==> ContainsPoint(r, G.BottomRight(r)) && !G.ContainsPoint(r, G.BottomRight(r))
  {
  }

  /** `overlaps` does not depend on the order of its arguments. */
  lemma OverlapsSymmetric(a: G.Rectangle, b: G.Rectangle)
    ensures Overlaps(a, b) == Overlaps(b, a)
  {
  }

  /** Two well-formed rectangles overlap exactly when some point lies in
      both closed rectangles, which is when their intersection is
      well-formed; rectangles sharing only an edge overlap. */
  lemma OverlapsIffCommonPoint(a: G.Rectangle, b: G.Rectangle)
    requires G.WellFormed(a) && G.WellFormed(b)
    ensures Overlaps(a, b) <==> exists p: G.Point :: ContainsPoint(a, p) && ContainsPoint(b, p)
    ensures Overlaps(a, b) <==> G.WellFormed(Intersect(a, b))
  {
    if Overlaps(a, b) {
      var corner := G.TopLeft(Intersect(a, b));
      assert ContainsPoint(a, corner) && ContainsPoint(b, corner);
    }
  }

  /** The intersection is commutative, its closed points are those of both
      rectangles, and it is the largest rectangle both contain. */
  lemma IntersectMeet(a: G.Rectangle, b: G.Rectangle, c: G.Rectangle, p: G.Point)
    ensures Intersect(a, b) == Intersect(b, a)
    ensures ContainsPoint(Intersect(a, b), p) <==> ContainsPoint(a, p) && ContainsPoint(b, p)
    ensures Contains(a, Intersect(a, b)) && Contains(b, Intersect(a, b))
    ensures Contains(a, c) && Contains(b, c) ==> Contains(Intersect(a, b), c)
  {
  }

  /** `extend` is commutative and is the smallest rectangle containing
      both. */
  lemma ExtendJoin(a: G.Rectangle, b: G.Rectangle, c: G.Rectangle)
    ensures Extend(a, b) == Extend(b, a)
    ensures Contains(Extend(a, b), a) && Contains(Extend(a, b), b)
    ensures Contains(c, a) && Contains(c, b) ==> Contains(c, Extend(a, b))
  {
  }

  /** `inset` keeps the centre and shrinks each side by twice the inset;
      the opposite inset undoes it. Nothing is clamped: an inset larger
      than half a side turns the rectangle inside out, where the viewer's
      clamped `inset` stops at the centre. */
  lemma InsetUnclamped(r: G.Rectangle, d: G.Dimensions)
    ensures G.Center(Inset(r, d)) == G.Center(r)
    ensures G.RectangleDimensions(Inset(r, d))
            == G.Dimensions(r.right - r.left - 2.0 * d.width, r.bottom - r.top - 2.0 * d.height)
    ensures Inset(Inset(r, d), G.Dimensions(-d.width, -d.height)) == r
    ensures var square := G.Rectangle(0.0, 0.0, 2.0, 2.0);
            && !G.WellFormed(Inset(square, G.Dimensions(2.0, 2.0)))
            && G.WellFormed(G.Inset(square, 2.0, Some(2.0)))
  {
  }

  /** Projecting a rectangle through a composition is projecting it twice;
      the identity leaves it as it is, and a translation moves it as
      `setTopLeft` would. */
  lemma ProjectRectangleComposes(r: G.Rectangle, a: Transform, b: Transform, offsetX: real, offsetY: real)
    requires G.IsAffine(AsMatrix(b))
    ensures ProjectRectangle(r, Compose(a, b)) == ProjectRectangle(ProjectRectangle(r, b), a)
    ensures ProjectRectangle(r, NewTransform()) == r
    ensures ProjectRectangle(r, MakeTranslate(offsetX, offsetY)) == MovedTo(r, G.Point(r.left + offsetX, r.top + offsetY))
  {
    ComposeProject(a, b, G.TopLeft(r));
    ComposeProject(a, b, G.BottomRight(r));
  }
}
