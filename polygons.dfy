/** The polygon half of js/geometry.js: bounds, point containment by
    crossing count, projection, cyclic equality, the point and edge
    visitors, and clipping against a rectangle one boundary edge at a time.
    The source's loops are methods here, each proved against a function
    that states what it computes. */
module Polygons {
  import opened Wrappers
  import opened Numerics
  import opened Geometry

  // *** Bounds

  /** The smallest closed rectangle holding every point: it holds them all,
      and each of its edges is attained by some point. */
  function BoundsOf(points: seq<Point>): (r: Rectangle)
    requires |points| > 0
    ensures WellFormed(r)
    ensures forall i :: 0 <= i < |points| ==> InClosed(r, points[i])
    ensures exists i :: 0 <= i < |points| && points[i].x == r.left
    ensures exists i :: 0 <= i < |points| && points[i].x == r.right
    ensures exists i :: 0 <= i < |points| && points[i].y == r.top
    ensures exists i :: 0 <= i < |points| && points[i].y == r.bottom
    decreases |points|
  {
    var n := |points|;
    var last := points[n - 1];
    if n == 1 then Rectangle(last.x, last.y, last.x, last.y)
    else
      var init := points[..n - 1];
      var b := BoundsOf(init);
      assert forall i :: 0 <= i < n - 1 ==> init[i] == points[i];
      Rectangle(Min(b.left, last.x), Min(b.top, last.y), Max(b.right, last.x), Max(b.bottom, last.y))
  }

  /** `polygon.bounds`: throws on a polygon without points; otherwise the
      running minimum and maximum of the coordinates, starting from the
      first point. */
  method Bounds(p: Polygon) returns (r: Result<Rectangle, string>)
    ensures r.Failure? <==> |p.points| == 0
    ensures r.Failure? ==> r.error == "Invalid operation"
    ensures r.Success? ==> r.value == BoundsOf(p.points)
  {
    var points := p.points;
    if |points| == 0 {
      return Failure("Invalid operation");
    }
    var left, right := points[0].x, points[0].x;
    var top, bottom := points[0].y, points[0].y;
    var index := 0;
    while index < |points|
      invariant 0 <= index <= |points|
      invariant Rectangle(left, top, right, bottom) == RunningBounds(points, index)
    {
      var point := points[index];
      BoundsStep(points, index);
      left := Min(left, point.x);
      right := Max(right, point.x);
      top := Min(top, point.y);
      bottom := Max(bottom, point.y);
      index := index + 1;
    }
    return Success(Rectangle(left, top, right, bottom));
  }

  /** The bounds `polygon.bounds` holds after `index` points: the first
      point alone before any, then the bounds of the points seen. */
  ghost function RunningBounds(points: seq<Point>, index: nat): Rectangle
    requires 0 <= index <= |points| && |points| > 0
  {
    if index == 0 then Rectangle(points[0].x, points[0].y, points[0].x, points[0].y)
    else if index == |points| then BoundsOf(points)
    else BoundsOf(points[..index])
  }

  /** One more point widens the running bounds by that point. */
  lemma BoundsStep(points: seq<Point>, index: nat)
    requires 0 <= index < |points|
    ensures var b := RunningBounds(points, index);
            var p := points[index];
            RunningBounds(points, index + 1) == Rectangle(Min(b.left, p.x), Min(b.top, p.y), Max(b.right, p.x), Max(b.bottom, p.y))
  {
    assert points[..index + 1][..index] == points[..index];
    if index + 1 == |points| {
      assert points[..index + 1] == points;
    }
  }

  /** The bounds of a well-formed rectangle's polygon are the rectangle. */
  lemma BoundsOfRectanglePolygon(r: Rectangle)
    requires WellFormed(r)
    ensures BoundsOf(RectanglePolygon(r).points) == r
  {
    var points := RectanglePolygon(r).points;
    var b := BoundsOf(points);
    assert points[0] == TopLeft(r) && points[2] == BottomRight(r);
    assert InClosed(b, points[0]) && InClosed(b, points[2]);
  }

  // *** Projection

  function ProjectPoints(points: seq<Point>, t: Transform): seq<Point>
  {
    seq(|points|, i requires 0 <= i < |points| => Project(points[i], t))
  }

  /** `polygon.project`: every point projected, in order. */
  method ProjectPolygon(p: Polygon, t: Transform) returns (q: Polygon)
    ensures q.points == ProjectPoints(p.points, t)
  {
    var points := p.points;
    var newPoints := [];
    var index := 0;
    while index < |points|
      invariant 0 <= index <= |points|
      invariant newPoints == ProjectPoints(points[..index], t)
    {
      newPoints := newPoints + [Project(points[index], t)];
      index := index + 1;
    }
    assert points[..|points|] == points;
    return Polygon(newPoints);
  }

  /** Projecting a polygon through `a.compose(b)` is projecting it through
      `b`, then through `a`. */
  lemma ProjectPointsCompose(points: seq<Point>, a: Transform, b: Transform)
    requires IsAffine(b)
    ensures ProjectPoints(points, Compose(a, b)) == ProjectPoints(ProjectPoints(points, b), a)
  {
    forall i | 0 <= i < |points|
      ensures Project(points[i], Compose(a, b)) == Project(Project(points[i], b), a)
    {
      ComposeProject(a, b, points[i]);
    }
  }

  /** Projecting through an invertible affine transform and then through its
      inverse gives the polygon back. */
  lemma ProjectPointsInverse(points: seq<Point>, a: Transform)
    requires IsAffine(a) && Determinant(a) != 0.0
    ensures Inverse(a).Some?
    ensures ProjectPoints(ProjectPoints(points, a), Inverse(a).value) == points
  {
    forall i | 0 <= i < |points|
      ensures Project(Project(points[i], a), Inverse(a).value) == points[i]
    {
      InverseProject(a, points[i]);
    }
  }

  // *** Equality

  /** The index of the first occurrence of `x` in `s`, or `|s|`. */
  function IndexOf(s: seq<Point>, x: Point): (i: nat)
    ensures i <= |s|
    ensures i < |s| ==> s[i] == x
    ensures forall j :: 0 <= j < i ==> s[j] != x
  {
    if |s| == 0 then 0
    else if s[0] == x then 0
    else 1 + IndexOf(s[1..], x)
  }

  /** `b` read from position `start` onwards, wrapping around, is `a`. */
  predicate AlignedAt(a: seq<Point>, b: seq<Point>, start: int)
  {
    |a| == |b| && forall i :: 0 <= i < |a| ==> a[i] == b[(i + start) % |a|]
  }

  /** What `polygon.equals` decides: the lengths agree, `a`'s first point
      occurs in `b`, and `b` read cyclically from that point's FIRST
      occurrence is `a`. */
  predicate EqualsAsWritten(a: seq<Point>, b: seq<Point>)
  {
    |a| == |b| && |a| > 0 && IndexOf(b, a[0]) < |a| && AlignedAt(a, b, IndexOf(b, a[0]))
  }

  /** Cyclic equality as intended: `b` is `a` started at some position. */
  predicate SameCycle(a: seq<Point>, b: seq<Point>)
  {
    |a| == |b| && exists start :: 0 <= start < |a| && AlignedAt(a, b, start)
  }

  /** `polygon.equals`. */
  method Equals(p: Polygon, other: Polygon) returns (r: bool)
    ensures r == EqualsAsWritten(p.points, other.points)
  {
    var points, otherPoints := p.points, other.points;
    if |points| != |otherPoints| {
      return false;
    }
    var start := 0;
    while start < |points| && !PointEquals(points[0], otherPoints[start])
      invariant 0 <= start <= |points|
      invariant forall j :: 0 <= j < start ==> otherPoints[j] != points[0]
    {
      start := start + 1;
    }
    if start == |points| {
      return false;
    }
    assert start == IndexOf(otherPoints, points[0]);
    var index := 0;
    while index < |points|
      invariant 0 <= index <= |points|
      invariant forall i :: 0 <= i < index ==> points[i] == otherPoints[(i + start) % |points|]
    {
      if !PointEquals(points[index], otherPoints[(index + start) % |points|]) {
        return false;
      }
      index := index + 1;
    }
    return true;
  }

  /** The corrected `polygon.equals`: tries every starting position in
      `other`, not only the first occurrence of the first point. */
  method CycleEquals(p: Polygon, other: Polygon) returns (r: bool)
    ensures r == SameCycle(p.points, other.points)
  {
    var points, otherPoints := p.points, other.points;
    if |points| != |otherPoints| {
      return false;
    }
    var start := 0;
    while start < |points|
      invariant 0 <= start <= |points|
      invariant forall s :: 0 <= s < start ==> !AlignedAt(points, otherPoints, s)
    {
      var aligned := AlignedFrom(points, otherPoints, start);
      if aligned {
        return true;
      }
      start := start + 1;
    }
    return false;
  }

  /** Compares `a` with `b` read cyclically from `start`. */
  method AlignedFrom(a: seq<Point>, b: seq<Point>, start: nat) returns (r: bool)
    requires |a| == |b| && start < |a|
    ensures r == AlignedAt(a, b, start)
  {
    var index := 0;
    while index < |a|
      invariant 0 <= index <= |a|
      invariant forall i :: 0 <= i < index ==> a[i] == b[(i + start) % |a|]
    {
      if !PointEquals(a[index], b[(index + start) % |a|]) {
        return false;
      }
      index := index + 1;
    }
    return true;
  }

  /** Whatever `polygon.equals` accepts is the same cycle of points. */
  lemma EqualsAsWrittenSound(a: seq<Point>, b: seq<Point>)
    requires EqualsAsWritten(a, b)
    ensures SameCycle(a, b)
  {
    var start := IndexOf(b, a[0]);
    assert 0 <= start < |a| && AlignedAt(a, b, start);
  }

  /** When the first point occurs only once, `polygon.equals` accepts every
      rotation: the first occurrence is the only one. */
  lemma EqualsAsWrittenComplete(a: seq<Point>, b: seq<Point>)
    requires SameCycle(a, b)
    requires |a| > 0 && forall i :: 0 < i < |a| ==> a[i] != a[0]
    ensures EqualsAsWritten(a, b)
  {
    var n := |a|;
    var start :| 0 <= start < n && AlignedAt(a, b, start);
    assert a[0] == b[start % n];
    ModBelowTwice(start, n);
    forall j | 0 <= j < start
      ensures b[j] != a[0]
    {
      var i := j - start + n;
      ModBelowTwice(i + start, n);
      assert b[j] == a[i];
    }
  }

  /** The sequence `a` started at position `k`. */
  function Rotation(a: seq<Point>, k: nat): (b: seq<Point>)
    requires k < |a|
    ensures |b| == |a|
    ensures forall j :: 0 <= j < |a| ==> b[j] == a[(j + k) % |a|]
  {
    var b := a[k..] + a[..k];
    forall j | 0 <= j < |a|
      ensures b[j] == a[(j + k) % |a|]
    {
      ModBelowTwice(j + k, |a|);
    }
    b
  }

  /** Every rotation of a point sequence is the same cycle. */
  lemma RotationsAreSameCycle(a: seq<Point>, k: nat)
    requires k < |a|
    ensures SameCycle(a, Rotation(a, k))
  {
    var n := |a|;
    var b := Rotation(a, k);
    var start := if k == 0 then 0 else n - k;
    forall i | 0 <= i < n
      ensures a[i] == b[(i + start) % n]
    {
      ModBelowTwice(i + start, n);
      var j := (i + start) % n;
      ModBelowTwice(j + k, n);
    }
    assert AlignedAt(a, b, start);
  }

  /** As written, `polygon.equals` misses a rotation when the first point
      occurs twice: [A, B, A, C] against [A, C, A, B]. */
  lemma EqualsMissesRotation()
    ensures var a := [Point(0.0, 0.0), Point(1.0, 0.0), Point(0.0, 0.0), Point(2.0, 0.0)];
            var b := [Point(0.0, 0.0), Point(2.0, 0.0), Point(0.0, 0.0), Point(1.0, 0.0)];
            b == Rotation(a, 2) && SameCycle(a, b) && !EqualsAsWritten(a, b)
  {
    var a := [Point(0.0, 0.0), Point(1.0, 0.0), Point(0.0, 0.0), Point(2.0, 0.0)];
    var b := [Point(0.0, 0.0), Point(2.0, 0.0), Point(0.0, 0.0), Point(1.0, 0.0)];
    assert a[2..] + a[..2] == b;
    RotationsAreSameCycle(a, 2);
    assert IndexOf(b, a[0]) == 0;
    assert a[1] != b[1];
  }

  /** The points of `a` in the opposite order. */
  function Reversed(a: seq<Point>): (r: seq<Point>)
    ensures |r| == |a|
    ensures forall j :: 0 <= j < |a| ==> r[j] == a[|a| - 1 - j]
  {
    seq(|a|, j requires 0 <= j < |a| => a[|a| - 1 - j])
  }

  /** Orientation counts: a polygon of three or more distinct points does
      not equal itself traversed the other way round. */
  lemma ReversalNotEqual(a: seq<Point>)
    requires |a| >= 3
    requires forall i, j :: 0 <= i < j < |a| ==> a[i] != a[j]
    ensures !EqualsAsWritten(a, Reversed(a))
  {
    var n := |a|;
    var b := Reversed(a);
    var first := IndexOf(b, a[0]);
    assert b[n - 1] == a[0];
    forall j | 0 <= j < n - 1 ensures b[j] != a[0] {
      assert b[j] == a[n - 1 - j];
    }
    assert first == n - 1;
    ModBelowTwice(1 + first, n);
    assert b[(1 + first) % n] == b[0] == a[n - 1];
    assert a[1] != a[n - 1];
  }

  // *** Visitors

  /** The polygon's edges: point `i` to point `i + 1`, then the last point
      back to the first. A polygon of fewer than two points has none. */
  function Edges(points: seq<Point>): (lines: seq<Line>)
    ensures |lines| == if |points| >= 2 then |points| else 0
    ensures forall i :: 0 <= i < |lines| ==> LineFrom(lines[i]) == points[i]
  {
    if |points| < 2 then []
    else seq(|points|, i requires 0 <= i < |points| => Edge(points, i))
  }

  /** Edge `i` of a polygon: from point `i` to the next point, the last
      one back to the first. */
  function Edge(points: seq<Point>, i: int): Line
    requires 0 <= i < |points|
  {
    if i < |points| - 1 then PointTo(points[i], points[i + 1]) else PointTo(points[i], points[0])
  }

  /** Edge `i` runs from point `i` to the next point, the last one back
      to the first. */
  lemma EdgeAt(points: seq<Point>, i: nat)
    requires |points| >= 2 && i < |points|
    ensures Edges(points)[i] == PointTo(points[i], points[if i < |points| - 1 then i + 1 else 0])
  {
    assert Edges(points)[i] == Edge(points, i);
  }

  /** The edges form a closed chain: each ends where the next one starts,
      and the last ends at the first point. */
  lemma EdgesChain(points: seq<Point>, i: nat)
    requires |points| >= 2 && i < |points|
    ensures LineTo(Edges(points)[i]) == LineFrom(Edges(points)[(i + 1) % |points|])
  {
    ModBelowTwice(i + 1, |points|);
  }

  /** `polygon.forPoints`: the callback's arguments, call by call. */
  method ForPoints(p: Polygon) returns (calls: seq<(Point, int)>)
    ensures |calls| == |p.points|
    ensures forall i :: 0 <= i < |calls| ==> calls[i] == (p.points[i], i)
  {
    var points := p.points;
    calls := [];
    var index := 0;
    while index < |points|
      invariant 0 <= index <= |points| && |calls| == index
      invariant forall i :: 0 <= i < index ==> calls[i] == (points[i], i)
    {
      calls := calls + [(points[index], index)];
      index := index + 1;
    }
  }

  /** `polygon.forLines`: the callback's arguments, call by call; the
      closing edge is reported last, with index `length - 1`. */
  method ForLines(p: Polygon) returns (calls: seq<(Line, int)>)
    ensures |calls| == |Edges(p.points)|
    ensures forall i :: 0 <= i < |calls| ==> calls[i] == (Edges(p.points)[i], i)
  {
    var points := p.points;
    ghost var edges := Edges(points);
    calls := [];
    var limit := |points| - 1;
    var index := 0;
    while index < limit
      invariant 0 <= index && (index == 0 || index <= limit) && |calls| == index
      invariant forall i :: 0 <= i < index ==> calls[i] == (edges[i], i)
    {
      EdgeAt(points, index);
      calls := calls + [(PointTo(points[index], points[index + 1]), index)];
      index := index + 1;
    }
    if limit > 0 {
      EdgeAt(points, limit);
      calls := calls + [(PointTo(points[limit], points[0]), limit)];
    }
  }

  // *** Point containment

  /** The source's test for one edge: `xForY` finds a crossing of the
      horizontal line through `t` strictly right of `t`. */
  predicate Crosses(l: Line, t: Point)
  {
    var x := XForY(l, t.y);
    x.Some? && x.value > t.x
  }

  function CrossCount(lines: seq<Line>, t: Point): nat
  {
    if |lines| == 0 then 0
    else CrossCount(lines[..|lines| - 1], t) + (if Crosses(lines[|lines| - 1], t) then 1 else 0)
  }

  /** `polygon.containsPoint`: an odd number of crossings. */
  method PolygonContainsPoint(p: Polygon, testPoint: Point) returns (b: bool)
    ensures b <==> CrossCount(Edges(p.points), testPoint) % 2 == 1
  {
    var calls := ForLines(p);
    ghost var lines := Edges(p.points);
    var crossCount := 0;
    var index := 0;
    while index < |calls|
      invariant 0 <= index <= |calls|
      invariant crossCount == CrossCount(lines[..index], testPoint)
    {
      assert lines[..index + 1][..index] == lines[..index];
      var x := XForY(calls[index].0, testPoint.y);
      if x.Some? && x.value > testPoint.x {
        crossCount := crossCount + 1;
      }
      index := index + 1;
    }
    assert lines[..|calls|] == lines;
    return crossCount % 2 != 0;
  }

  /** A horizontal edge crosses only on its own line, at its start. */
  lemma HorizontalCrosses(l: Line, t: Point)
    requires l.fromY == l.toY
    ensures Crosses(l, t) <==> t.y == l.fromY && l.fromX > t.x
  {
  }

  /** A vertical edge crosses wherever its closed y range holds the point. */
  lemma VerticalCrosses(l: Line, t: Point)
    requires l.fromX == l.toX && l.fromY != l.toY
    ensures Crosses(l, t) <==> Min(l.fromY, l.toY) <= t.y <= Max(l.fromY, l.toY) && l.fromX > t.x
    ensures CrossesHalfOpen(l, t) <==>
              (l.fromY <= t.y < l.toY || l.toY <= t.y < l.fromY) && l.fromX > t.x
  {
  }

  /** A rectangle's edges: top, right, bottom and left, clockwise. */
  lemma RectangleEdges(r: Rectangle)
    ensures Edges(RectanglePolygon(r).points) ==
      [PointTo(TopLeft(r), Point(r.right, r.top)), PointTo(Point(r.right, r.top), BottomRight(r)),
       PointTo(BottomRight(r), Point(r.left, r.bottom)), PointTo(Point(r.left, r.bottom), TopLeft(r))]
  {
  }

  /** The crossing counts over a rectangle's four edges, in order. */
  lemma RectangleCrossings(r: Rectangle, t: Point, c0: bool, c1: bool, c2: bool, c3: bool)
    requires c0 == Crosses(PointTo(TopLeft(r), Point(r.right, r.top)), t)
    requires c1 == Crosses(PointTo(Point(r.right, r.top), BottomRight(r)), t)
    requires c2 == Crosses(PointTo(BottomRight(r), Point(r.left, r.bottom)), t)
    requires c3 == Crosses(PointTo(Point(r.left, r.bottom), TopLeft(r)), t)
    ensures CrossCount(Edges(RectanglePolygon(r).points), t) ==
      (if c0 then 1 else 0) + (if c1 then 1 else 0) + (if c2 then 1 else 0) + (if c3 then 1 else 0)
  {
    RectangleEdges(r);
    var lines := Edges(RectanglePolygon(r).points);
    assert lines[..1][..0] == [] && lines[..2][..1] == lines[..1] && lines[..3][..2] == lines[..2];
    assert CrossCount(lines[..1], t) == (if c0 then 1 else 0);
    assert CrossCount(lines[..2], t) == CrossCount(lines[..1], t) + (if c1 then 1 else 0);
    assert CrossCount(lines[..3], t) == CrossCount(lines[..2], t) + (if c2 then 1 else 0);
  }

  /** On a rectangle's polygon the crossing count agrees with the
      rectangle's half-open `containsPoint`, except on the two lines
      through the top and bottom edges left of the rectangle. */
  lemma RectanglePolygonContains(r: Rectangle, t: Point)
    requires r.left < r.right && r.top < r.bottom
    requires !(t.x < r.left && (t.y == r.top || t.y == r.bottom))
    ensures CrossCount(Edges(RectanglePolygon(r).points), t) % 2 == 1 <==> ContainsPoint(r, t)
  {
    var c0 := Crosses(PointTo(TopLeft(r), Point(r.right, r.top)), t);
    var c1 := Crosses(PointTo(Point(r.right, r.top), BottomRight(r)), t);
    var c2 := Crosses(PointTo(BottomRight(r), Point(r.left, r.bottom)), t);
    var c3 := Crosses(PointTo(Point(r.left, r.bottom), TopLeft(r)), t);
    RectangleCrossings(r, t, c0, c1, c2, c3);
    assert c0 <==> t.y == r.top && r.left > t.x by {
      HorizontalCrosses(PointTo(TopLeft(r), Point(r.right, r.top)), t);
    }
    assert c1 <==> r.top <= t.y <= r.bottom && r.right > t.x by {
      VerticalCrosses(PointTo(Point(r.right, r.top), BottomRight(r)), t);
    }
    assert c2 <==> t.y == r.bottom && r.right > t.x by {
      HorizontalCrosses(PointTo(BottomRight(r), Point(r.left, r.bottom)), t);
    }
    assert c3 <==> r.top <= t.y <= r.bottom && r.left > t.x by {
      VerticalCrosses(PointTo(Point(r.left, r.bottom), TopLeft(r)), t);
    }
    CrossingParity(r, t, c0, c1, c2, c3);
  }

  /** The parity of the four edge crossings of a rectangle's polygon,
      away from the lines through its top and bottom edges left of it. */
  lemma CrossingParity(r: Rectangle, t: Point, c0: bool, c1: bool, c2: bool, c3: bool)
    requires r.left < r.right && r.top < r.bottom
    requires !(t.x < r.left && (t.y == r.top || t.y == r.bottom))
    requires c0 <==> t.y == r.top && r.left > t.x
    requires c1 <==> r.top <= t.y <= r.bottom && r.right > t.x
    requires c2 <==> t.y == r.bottom && r.right > t.x
    requires c3 <==> r.top <= t.y <= r.bottom && r.left > t.x
    ensures ((if c0 then 1 else 0) + (if c1 then 1 else 0) + (if c2 then 1 else 0) + (if c3 then 1 else 0)) % 2 == 1
            <==> ContainsPoint(r, t)
  {
  }

  /** As written, a point on the line through the top edge, left of the
      rectangle, is counted inside: three edges cross to its right. */
  lemma TopLineCountedInside(r: Rectangle, t: Point)
    requires r.left < r.right && r.top < r.bottom
    requires t.x < r.left && t.y == r.top
    ensures CrossCount(Edges(RectanglePolygon(r).points), t) % 2 == 1
    ensures !ContainsPoint(r, t)
  {
    var c0 := Crosses(PointTo(TopLeft(r), Point(r.right, r.top)), t);
    var c1 := Crosses(PointTo(Point(r.right, r.top), BottomRight(r)), t);
    var c2 := Crosses(PointTo(BottomRight(r), Point(r.left, r.bottom)), t);
    var c3 := Crosses(PointTo(Point(r.left, r.bottom), TopLeft(r)), t);
    RectangleCrossings(r, t, c0, c1, c2, c3);
    assert c0 && c1 && !c2 && c3;
  }

  /** The evidently intended edge test: an edge counts when its y range,
      taken half-open, holds the point's y, so a horizontal edge never
      counts and a shared vertex counts once. */
  predicate CrossesHalfOpen(l: Line, t: Point)
  {
    && (l.fromY <= t.y < l.toY || l.toY <= t.y < l.fromY)
    && var x := XForY(l, t.y);
       x.Some? && x.value > t.x
  }

  function HalfOpenCrossCount(lines: seq<Line>, t: Point): nat
  {
    if |lines| == 0 then 0
    else HalfOpenCrossCount(lines[..|lines| - 1], t) + (if CrossesHalfOpen(lines[|lines| - 1], t) then 1 else 0)
  }

  /** The corrected `polygon.containsPoint`: the same crossing count over
      the edges, with the half-open edge test. */
  method PolygonContainsPointHalfOpen(p: Polygon, testPoint: Point) returns (b: bool)
    ensures b <==> HalfOpenCrossCount(Edges(p.points), testPoint) % 2 == 1
  {
    var calls := ForLines(p);
    ghost var lines := Edges(p.points);
    var crossCount := 0;
    var index := 0;
    while index < |calls|
      invariant 0 <= index <= |calls|
      invariant crossCount == HalfOpenCrossCount(lines[..index], testPoint)
    {
      assert lines[..index + 1][..index] == lines[..index];
      var line := calls[index].0;
      var x := XForY(line, testPoint.y);
      if (line.fromY <= testPoint.y < line.toY || line.toY <= testPoint.y < line.fromY)
         && x.Some? && x.value > testPoint.x {
        crossCount := crossCount + 1;
      }
      index := index + 1;
    }
    assert lines[..|calls|] == lines;
    return crossCount % 2 != 0;
  }

  /** With the half-open edge test, the crossing count on a rectangle's
      polygon agrees with the rectangle's `containsPoint` everywhere. */
  lemma HalfOpenRectangleContains(r: Rectangle, t: Point)
    requires WellFormed(r)
    ensures HalfOpenCrossCount(Edges(RectanglePolygon(r).points), t) % 2 == 1 <==> ContainsPoint(r, t)
  {
    RectangleEdges(r);
    var lines := Edges(RectanglePolygon(r).points);
    assert lines[..1][..0] == [] && lines[..2][..1] == lines[..1] && lines[..3][..2] == lines[..2];
    assert !CrossesHalfOpen(lines[0], t) && !CrossesHalfOpen(lines[2], t);
    assert HalfOpenCrossCount(lines[..1], t) == 0;
    assert HalfOpenCrossCount(lines[..2], t) == (if CrossesHalfOpen(lines[1], t) then 1 else 0);
    assert HalfOpenCrossCount(lines[..3], t) == HalfOpenCrossCount(lines[..2], t);
    if r.top < r.bottom {
      VerticalCrosses(lines[1], t);
      VerticalCrosses(lines[3], t);
    }
  }

  // *** Clipping

  /** The four boundary edges, in the order `polygon.clip` applies them. */
  datatype Side = Top | Right | Bottom | Left

  /** The half-plane one pass keeps; the boundary line itself is kept. */
  predicate Inside(side: Side, boundary: Rectangle, p: Point)
  {
    match side
    case Top => p.y >= boundary.top
    case Right => p.x <= boundary.right
    case Bottom => p.y <= boundary.bottom
    case Left => p.x >= boundary.left
  }

  predicate AllInside(side: Side, boundary: Rectangle, points: seq<Point>)
  {
    forall i :: 0 <= i < |points| ==> Inside(side, boundary, points[i])
  }

  /** `c` lies in the bounding box of the segment from `p` to `q`. */
  predicate Between(p: Point, q: Point, c: Point)
  {
    Min(p.x, q.x) <= c.x <= Max(p.x, q.x) && Min(p.y, q.y) <= c.y <= Max(p.y, q.y)
  }

  /** Where the edge from `from` to `to` crosses the boundary line, with
      the source's formula for each side. */
  function Crossing(side: Side, boundary: Rectangle, from: Point, to: Point): (c: Point)
    requires Inside(side, boundary, from) != Inside(side, boundary, to)
    ensures Inside(side, boundary, c)
    ensures Between(from, to, c)
  {
    match side
    case Top => Point(Interpolate(from.y, from.x, to.y, to.x, boundary.top), boundary.top)
    case Right => Point(boundary.right, Interpolate(from.x, from.y, to.x, to.y, boundary.right))
    case Bottom => Point(Interpolate(from.y, from.x, to.y, to.x, boundary.bottom), boundary.bottom)
    case Left => Point(boundary.left, Interpolate(from.x, from.y, to.x, to.y, boundary.left))
  }

  /** The clip passes' formula `b0 + (a - a0) * (b1 - b0) / (a1 - a0)`:
      the other coordinate where the segment from (a0, b0) to (a1, b1)
      reaches `a`. Between the ends it stays between the ends. */
  function Interpolate(a0: real, b0: real, a1: real, b1: real, a: real): (b: real)
    requires a0 != a1
    ensures Min(a0, a1) <= a <= Max(a0, a1) ==> Min(b0, b1) <= b <= Max(b0, b1)
  {
    var b := b0 + (a - a0) * (b1 - b0) / (a1 - a0);
    if Min(a0, a1) <= a <= Max(a0, a1) then
      ProductOverQuotient(a - a0, b1 - b0, a1 - a0);
      InterpolationOnSegment(a0, b0, a1, b1, a, b);
      b
    else b
  }

  /** What one pass emits for the edge from `from` to `to`: `from` if it is
      kept, then the crossing if the edge crosses the boundary line. */
  function EdgeOutput(side: Side, boundary: Rectangle, from: Point, to: Point): seq<Point>
  {
    (if Inside(side, boundary, from) then [from] else [])
    + (if Inside(side, boundary, from) != Inside(side, boundary, to)
       then [Crossing(side, boundary, from, to)] else [])
  }

  /** Two appends in turn append their concatenation. */
  lemma EmitAppends(before: seq<Point>, middle: seq<Point>, after: seq<Point>, first: seq<Point>, second: seq<Point>)
    requires middle == before + first && after == middle + second
    ensures after == before + (first + second)
  {
  }

  /** The output of one pass over the first `k` edges. */
  function ClipPrefix(side: Side, boundary: Rectangle, points: seq<Point>, k: nat): seq<Point>
    requires k <= |points|
  {
    if k == 0 then []
    else ClipPrefix(side, boundary, points, k - 1)
         + EdgeOutput(side, boundary, points[k - 1], points[k % |points|])
  }

  function ClipSide(side: Side, boundary: Rectangle, points: seq<Point>): seq<Point>
  {
    ClipPrefix(side, boundary, points, |points|)
  }

  /** The four passes of `polygon.clip`: top, right, bottom, left. */
  function ClipAll(points: seq<Point>, boundary: Rectangle): seq<Point>
  {
    ClipSide(Left, boundary, ClipSide(Bottom, boundary, ClipSide(Right, boundary, ClipSide(Top, boundary, points))))
  }

  /** `clipTop`, `clipRight`, `clipBottom` and `clipLeft`: one pass of the
      Sutherland–Hodgman algorithm against one boundary edge. */
  method ClipPass(side: Side, points: seq<Point>, boundary: Rectangle) returns (newPoints: seq<Point>)
    ensures newPoints == ClipSide(side, boundary, points)
  {
    newPoints := [];
    var index := 0;
    while index < |points|
      invariant 0 <= index <= |points|
      invariant newPoints == ClipPrefix(side, boundary, points, index)
    {
      var from := points[index];
      var to := points[(index + 1) % |points|];
      ghost var before := newPoints;
      if Inside(side, boundary, from) {
        newPoints := newPoints + [from];
      }
      ghost var kept := newPoints;
      if Inside(side, boundary, from) != Inside(side, boundary, to) {
        newPoints := newPoints + [Crossing(side, boundary, from, to)];
      }
      assert newPoints == before + EdgeOutput(side, boundary, from, to) by {
        EmitAppends(before, kept, newPoints, (if Inside(side, boundary, from) then [from] else []),
                    (if Inside(side, boundary, from) != Inside(side, boundary, to)
                     then [Crossing(side, boundary, from, to)] else []));
      }
      index := index + 1;
    }
  }

  /** `polygon.clip`. */
  method Clip(p: Polygon, boundary: Rectangle) returns (q: Polygon)
    ensures q.points == ClipAll(p.points, boundary)
  {
    var points := p.points;
    points := ClipPass(Top, points, boundary);
    points := ClipPass(Right, points, boundary);
    points := ClipPass(Bottom, points, boundary);
    points := ClipPass(Left, points, boundary);
    return Polygon(points);
  }

  /** A pass keeps only points on its side of the boundary line, and keeps
      any other side's half-plane that held every input point. */
  lemma {:induction false} ClipPrefixInside(side: Side, other: Side, boundary: Rectangle,
                                            points: seq<Point>, k: nat)
    requires k <= |points|
    ensures AllInside(side, boundary, ClipPrefix(side, boundary, points, k))
    ensures AllInside(other, boundary, points) ==>
              AllInside(other, boundary, ClipPrefix(side, boundary, points, k))
  {
    if k > 0 {
      ClipPrefixInside(side, other, boundary, points, k - 1);
      var from, to := points[k - 1], points[k % |points|];
      if AllInside(other, boundary, points) {
        assert Inside(other, boundary, from) && Inside(other, boundary, to);
      }
    }
  }

  /** Every point of a clipped polygon lies in the closed boundary
      rectangle. */
  lemma ClipWithin(points: seq<Point>, boundary: Rectangle)
    ensures forall i :: 0 <= i < |ClipAll(points, boundary)| ==> InClosed(boundary, ClipAll(points, boundary)[i])
  {
    var s1 := ClipSide(Top, boundary, points);
    var s2 := ClipSide(Right, boundary, s1);
    var s3 := ClipSide(Bottom, boundary, s2);
    var s4 := ClipSide(Left, boundary, s3);
    ClipPrefixInside(Top, Top, boundary, points, |points|);
    ClipPrefixInside(Right, Top, boundary, s1, |s1|);
    ClipPrefixInside(Bottom, Top, boundary, s2, |s2|);
    ClipPrefixInside(Bottom, Right, boundary, s2, |s2|);
    ClipPrefixInside(Left, Top, boundary, s3, |s3|);
    ClipPrefixInside(Left, Right, boundary, s3, |s3|);
    ClipPrefixInside(Left, Bottom, boundary, s3, |s3|);
  }

  /** A pass leaves a polygon already on its side of the line unchanged. */
  lemma {:induction false} ClipPrefixUnchanged(side: Side, boundary: Rectangle, points: seq<Point>, k: nat)
    requires k <= |points| && AllInside(side, boundary, points)
    ensures ClipPrefix(side, boundary, points, k) == points[..k]
  {
    if k > 0 {
      ClipPrefixUnchanged(side, boundary, points, k - 1);
      assert Inside(side, boundary, points[k % |points|]);
      assert points[..k] == points[..k - 1] + [points[k - 1]];
    }
  }

  /** Clipping a polygon that already lies in the closed boundary changes
      nothing. */
  lemma ClipInsideUnchanged(points: seq<Point>, boundary: Rectangle)
    requires forall i :: 0 <= i < |points| ==> InClosed(boundary, points[i])
    ensures ClipAll(points, boundary) == points
  {
    assert points[..|points|] == points;
    ClipPrefixUnchanged(Top, boundary, points, |points|);
    ClipPrefixUnchanged(Right, boundary, points, |points|);
    ClipPrefixUnchanged(Bottom, boundary, points, |points|);
    ClipPrefixUnchanged(Left, boundary, points, |points|);
  }

  /** A pass over a polygon wholly on the far side of the line emits
      nothing. */
  lemma {:induction false} ClipPrefixOutside(side: Side, boundary: Rectangle, points: seq<Point>, k: nat)
    requires k <= |points|
    requires forall i :: 0 <= i < |points| ==> !Inside(side, boundary, points[i])
    ensures ClipPrefix(side, boundary, points, k) == []
  {
    if k > 0 {
      ClipPrefixOutside(side, boundary, points, k - 1);
      assert !Inside(side, boundary, points[k % |points|]);
    }
  }

  /** A polygon wholly outside one boundary edge clips to no points. */
  lemma ClipOutsideEmpty(points: seq<Point>, boundary: Rectangle, side: Side)
    requires forall i :: 0 <= i < |points| ==> !Inside(side, boundary, points[i])
    ensures ClipAll(points, boundary) == []
  {
    var s1 := ClipSide(Top, boundary, points);
    if side == Top {
      ClipPrefixOutside(Top, boundary, points, |points|);
    } else {
      ClipStaysOutside(Top, side, boundary, points);
      var s2 := ClipSide(Right, boundary, s1);
      if side == Right {
        ClipPrefixOutside(Right, boundary, s1, |s1|);
      } else {
        ClipStaysOutside(Right, side, boundary, s1);
        var s3 := ClipSide(Bottom, boundary, s2);
        if side == Bottom {
          ClipPrefixOutside(Bottom, boundary, s2, |s2|);
        } else {
          ClipStaysOutside(Bottom, side, boundary, s2);
          ClipPrefixOutside(Left, boundary, s3, |s3|);
        }
      }
    }
  }

  /** The far side of one boundary line is kept by a pass against another. */
  lemma ClipStaysOutside(side: Side, other: Side, boundary: Rectangle, points: seq<Point>)
    requires side != other
    requires forall i :: 0 <= i < |points| ==> !Inside(other, boundary, points[i])
    ensures forall i :: 0 <= i < |ClipSide(side, boundary, points)| ==>
              !Inside(other, boundary, ClipSide(side, boundary, points)[i])
  {
    ClipPrefixOutsideKept(side, other, boundary, points, |points|);
  }

  lemma {:induction false} ClipPrefixOutsideKept(side: Side, other: Side, boundary: Rectangle,
                                                 points: seq<Point>, k: nat)
    requires k <= |points| && side != other
    requires forall i :: 0 <= i < |points| ==> !Inside(other, boundary, points[i])
    ensures forall i :: 0 <= i < |ClipPrefix(side, boundary, points, k)| ==>
              !Inside(other, boundary, ClipPrefix(side, boundary, points, k)[i])
  {
    if k > 0 {
      ClipPrefixOutsideKept(side, other, boundary, points, k - 1);
      var from, to := points[k - 1], points[k % |points|];
      assert !Inside(other, boundary, from) && !Inside(other, boundary, to);
    }
  }
}
