/** The points example: point sites in the plane, the squared Euclidean metric and
    the bounds and enclosing square the tree is built over. */
module Points {
  import opened Geometry

  /** A point: its two coordinates `v[0]`, `v[1]` and its id. */
  datatype Point = Point(v0: real, v1: real, id: int)

  /** `metric(pt1, pt2)`: the squared distance from the query point to the site. */
  function PointMetric(p: Point, q0: real, q1: real): (d: real)
  {
    SqDist(q0, q1, p.v0, p.v1)
  }

  /** The metric is a squared distance: never negative, symmetric, and zero
      exactly when the two points coincide. */
  lemma PointMetricProperties(p: Point, q: Point)
    ensures PointMetric(p, q.v0, q.v1) >= 0.0
    ensures PointMetric(p, q.v0, q.v1) == PointMetric(q, p.v0, p.v1)
    ensures PointMetric(p, q.v0, q.v1) == 0.0 <==> p.v0 == q.v0 && p.v1 == q.v1
  {
    SqDistProperties(q.v0, q.v1, p.v0, p.v1);
  }

  function Coord(p: Point, k: nat): (c: real)
    requires k < 2
  {
    if k == 0 then p.v0 else p.v1
  }

  /** lo and hi are the tight bounds of the points on both axes: every point lies
      between them, and each bound is a coordinate of some point. */
  predicate TightBounds(pts: seq<Point>, lo: seq<real>, hi: seq<real>)
  {
    |lo| == 2 && |hi| == 2 &&
    (forall i, k :: 0 <= i < |pts| && 0 <= k < 2 ==> lo[k] <= Coord(pts[i], k) <= hi[k]) &&
    (forall k :: 0 <= k < 2 ==>
      (exists i :: 0 <= i < |pts| && Coord(pts[i], k) == lo[k]) &&
      (exists i :: 0 <= i < |pts| && Coord(pts[i], k) == hi[k]))
  }

  /** The tight bounds are unique, so the square built from them is determined by
      the points. */
  lemma TightBoundsUnique(pts: seq<Point>, lo: seq<real>, hi: seq<real>, lo': seq<real>, hi': seq<real>)
    requires TightBounds(pts, lo, hi) && TightBounds(pts, lo', hi')
    ensures lo == lo' && hi == hi'
  {
    forall k | 0 <= k < 2 ensures lo[k] == lo'[k] && hi[k] == hi'[k] {
      var a :| 0 <= a < |pts| && Coord(pts[a], k) == lo[k];
      var a' :| 0 <= a' < |pts| && Coord(pts[a'], k) == lo'[k];
      var b :| 0 <= b < |pts| && Coord(pts[b], k) == hi[k];
      var b' :| 0 <= b' < |pts| && Coord(pts[b'], k) == hi'[k];
      assert lo[k] <= Coord(pts[a'], k) && lo'[k] <= Coord(pts[a], k);
      assert hi[k] >= Coord(pts[b'], k) && hi'[k] >= Coord(pts[b], k);
    }
  }

  /** The bounds loop of `main`: start from point 0, then widen by every later
      point. The result is the tight box: every point lies inside it and each bound
      is a coordinate of some point. */
  method Bounds(pts: seq<Point>) returns (lo: seq<real>, hi: seq<real>)
    requires |pts| >= 1
    ensures TightBounds(pts, lo, hi)
  {
    var min := new real[2];
    var max := new real[2];
    min[0], min[1] := pts[0].v0, pts[0].v1;
    max[0], max[1] := pts[0].v0, pts[0].v1;
    // the points that attain each bound
    ghost var a0, a1, b0, b1 := 0, 0, 0, 0;
    var i := 1;
    while i < |pts|
      invariant 1 <= i <= |pts|
      invariant forall j :: 0 <= j < i ==>
        min[0] <= pts[j].v0 <= max[0] && min[1] <= pts[j].v1 <= max[1]
      invariant a0 < i && a1 < i && b0 < i && b1 < i
      invariant pts[a0].v0 == min[0] && pts[a1].v1 == min[1]
      invariant pts[b0].v0 == max[0] && pts[b1].v1 == max[1]
    {
      if pts[i].v0 < min[0] { min[0] := pts[i].v0; a0 := i; }
      if pts[i].v1 < min[1] { min[1] := pts[i].v1; a1 := i; }
      if pts[i].v0 > max[0] { max[0] := pts[i].v0; b0 := i; }
      if pts[i].v1 > max[1] { max[1] := pts[i].v1; b1 := i; }
      i := i + 1;
    }
    assert Coord(pts[a0], 0) == min[0] && Coord(pts[a1], 1) == min[1];
    assert Coord(pts[b0], 0) == max[0] && Coord(pts[b1], 1) == max[1];
    lo, hi := min[..], max[..];
  }

  /** The square the tree is built over: the midpoint of the bounds and the larger
      half-extent. It is not degenerate and holds every point. */
  method RootSquare(pts: seq<Point>) returns (sq: Square)
    requires |pts| >= 1
    ensures |sq.mid| == 2 && sq.radius >= 0.0
    ensures forall i, k :: 0 <= i < |pts| && 0 <= k < 2 ==>
      sq.mid[k] - sq.radius <= Coord(pts[i], k) <= sq.mid[k] + sq.radius
    ensures exists lo: seq<real>, hi: seq<real> :: TightBounds(pts, lo, hi) && sq == EnclosingSquare(lo, hi)
  {
    var lo, hi := Bounds(pts);
    sq := EnclosingSquare(lo, hi);
    assert lo[0] <= Coord(pts[0], 0) <= hi[0] && lo[1] <= Coord(pts[0], 1) <= hi[1];
  }
}
