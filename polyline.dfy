/** The three site metrics on a vertex list given as parallel coordinate
    sequences `xs`, `ys`: a point (vertex 0), a polyline (consecutive segments) and
    a polygon (consecutive segments plus the closing edge back to vertex 0).

    The polyline loops in the source run `i < n` and read vertex `i + 1`, so their
    last iteration reads one vertex past the end. `LineDist` is the intended
    metric over the `n - 1` segments that exist; `LineDistPastEnd` models the loop
    as written, with the value found past the end as an extra parameter. */
module Polyline {
  import opened Wrappers
  import opened Geometry
  import opened Segment
  import opened MinScan

  /** A vertex list with as many x as y coordinates. */
  predicate WellFormed(xs: seq<real>, ys: seq<real>)
  {
    |xs| == |ys|
  }

  /** Squared distance from (x, y) to vertex 0 (the point metric). */
  function PointDist(xs: seq<real>, ys: seq<real>, x: real, y: real): (d: real)
    requires WellFormed(xs, ys) && |xs| >= 1
  {
    SqDist(x, y, xs[0], ys[0])
  }

  /** The point metric is non-negative and zero exactly at vertex 0. */
  lemma PointDistProperties(xs: seq<real>, ys: seq<real>, x: real, y: real)
    requires WellFormed(xs, ys) && |xs| >= 1
    ensures PointDist(xs, ys, x, y) >= 0.0
    ensures PointDist(xs, ys, x, y) == 0.0 <==> x == xs[0] && y == ys[0]
  {
    SqDistProperties(x, y, xs[0], ys[0]);
  }

  /** Number of segments of a polyline with `n` vertices. */
  function SegmentCount(n: nat): (c: nat)
  {
    if n == 0 then 0 else n - 1
  }

  /** Distances from (x, y) to the segments (i, i + 1), i < n - 1, in loop order. */
  function LineSegDists(xs: seq<real>, ys: seq<real>, x: real, y: real): (ds: seq<real>)
    requires WellFormed(xs, ys)
    ensures |ds| == SegmentCount(|xs|)
  {
    seq(SegmentCount(|xs|), i requires 0 <= i < SegmentCount(|xs|) =>
      PtDistanceToLine(x, y, xs[i], ys[i], xs[i + 1], ys[i + 1]))
  }

  /** Squared distance from (x, y) to the point at parameter s of segment i. */
  function LineAlong(xs: seq<real>, ys: seq<real>, i: nat, x: real, y: real, s: real): (d: real)
    requires WellFormed(xs, ys) && i + 1 < |xs|
  {
    Along(x, y, xs[i], ys[i], xs[i + 1], ys[i + 1], s)
  }

  /** The intended polyline metric: running minimum over the existing segments. */
  function LineDist(xs: seq<real>, ys: seq<real>, x: real, y: real): (d: Option<real>)
    requires WellFormed(xs, ys)
  {
    RunningMin(LineSegDists(xs, ys, x, y))
  }

  /** Index of the vertex edge `i` of an `n`-gon ends at: the next one, or vertex 0
      for the last edge. */
  function Next(i: nat, n: nat): (j: nat)
    requires i < n
    ensures j < n
  {
    if i + 1 == n then 0 else i + 1
  }

  /** Distances from (x, y) to the `n` edges of the polygon, in loop order. */
  function PolySegDists(xs: seq<real>, ys: seq<real>, x: real, y: real): (ds: seq<real>)
    requires WellFormed(xs, ys)
    ensures |ds| == |xs|
  {
    seq(|xs|, i requires 0 <= i < |xs| =>
      PtDistanceToLine(x, y, xs[i], ys[i], xs[Next(i, |xs|)], ys[Next(i, |xs|)]))
  }

  /** Squared distance from (x, y) to the point at parameter s of edge i. */
  function PolyAlong(xs: seq<real>, ys: seq<real>, i: nat, x: real, y: real, s: real): (d: real)
    requires WellFormed(xs, ys) && i < |xs|
  {
    Along(x, y, xs[i], ys[i], xs[Next(i, |xs|)], ys[Next(i, |xs|)], s)
  }

  /** The polygon metric: running minimum over all edges. */
  function PolyDist(xs: seq<real>, ys: seq<real>, x: real, y: real): (d: Option<real>)
    requires WellFormed(xs, ys)
  {
    RunningMin(PolySegDists(xs, ys, x, y))
  }

  /** The polyline metric has a value exactly when there is a segment, and the
      value is the least squared distance from (x, y) to a point of the polyline. */
  lemma LineDistIsPolylineDistance(xs: seq<real>, ys: seq<real>, x: real, y: real)
    requires WellFormed(xs, ys)
    ensures LineDist(xs, ys, x, y).Some? <==> |xs| >= 2
    ensures LineDist(xs, ys, x, y).Some? ==>
      var m := LineDist(xs, ys, x, y).value;
      m >= 0.0 &&
      (forall i: nat, s :: i < |xs| - 1 && 0.0 <= s <= 1.0 ==> m <= LineAlong(xs, ys, i, x, y, s)) &&
      (exists i: nat, s :: i < |xs| - 1 && 0.0 <= s <= 1.0 && m == LineAlong(xs, ys, i, x, y, s))
  {
    var ds := LineSegDists(xs, ys, x, y);
    RunningMinIsMin(ds);
    if |xs| >= 2 {
      var m := LineDist(xs, ys, x, y).value;
      forall i: nat, s | i < |xs| - 1 && 0.0 <= s <= 1.0
        ensures m <= LineAlong(xs, ys, i, x, y, s)
      {
        assert m <= ds[i];
        Minimal(x, y, xs[i], ys[i], xs[i + 1], ys[i + 1], s);
      }
      var k :| 0 <= k < |ds| && ds[k] == m;
      IsSegmentDistance(x, y, xs[k], ys[k], xs[k + 1], ys[k + 1]);
      var t :| 0.0 <= t <= 1.0 && ds[k] == Along(x, y, xs[k], ys[k], xs[k + 1], ys[k + 1], t);
      assert k < |xs| - 1 && m == LineAlong(xs, ys, k, x, y, t);
    }
  }

  /** On a polyline with at least one segment, the metric is zero at every vertex. */
  lemma LineDistZeroAtVertex(xs: seq<real>, ys: seq<real>, k: nat)
    requires WellFormed(xs, ys) && |xs| >= 2 && k < |xs|
    ensures LineDist(xs, ys, xs[k], ys[k]) == Some(0.0)
  {
    var x, y := xs[k], ys[k];
    var ds := LineSegDists(xs, ys, x, y);
    var j := if k < |xs| - 1 then k else k - 1;
    SegmentZeroAtEndpoint(x, y, xs[j], ys[j], xs[j + 1], ys[j + 1]);
    forall i | 0 <= i < |ds| ensures ds[i] >= 0.0 {
      IsSegmentDistance(x, y, xs[i], ys[i], xs[i + 1], ys[i + 1]);
    }
    RunningMinHitsZero(ds, j);
  }

  /** The polygon metric has a value exactly when there is a vertex, and the value
      is the least squared distance from (x, y) to a point of the boundary,
      closing edge included. Every vertex index the metric reads is below `n`. */
  lemma PolyDistIsBoundaryDistance(xs: seq<real>, ys: seq<real>, x: real, y: real)
    requires WellFormed(xs, ys)
    ensures PolyDist(xs, ys, x, y).Some? <==> |xs| >= 1
    ensures PolyDist(xs, ys, x, y).Some? ==>
      var m := PolyDist(xs, ys, x, y).value;
      var n := |xs|;
      m >= 0.0 &&
      (forall i: nat, s :: i < n && 0.0 <= s <= 1.0 ==> m <= PolyAlong(xs, ys, i, x, y, s)) &&
      (exists i: nat, s :: i < n && 0.0 <= s <= 1.0 && m == PolyAlong(xs, ys, i, x, y, s))
  {
    var n := |xs|;
    var ds := PolySegDists(xs, ys, x, y);
    RunningMinIsMin(ds);
    if n >= 1 {
      var m := PolyDist(xs, ys, x, y).value;
      forall i: nat, s | i < n && 0.0 <= s <= 1.0
        ensures m <= PolyAlong(xs, ys, i, x, y, s)
      {
        assert m <= ds[i];
        Minimal(x, y, xs[i], ys[i], xs[Next(i, n)], ys[Next(i, n)], s);
      }
      var k :| 0 <= k < |ds| && ds[k] == m;
      IsSegmentDistance(x, y, xs[k], ys[k], xs[Next(k, n)], ys[Next(k, n)]);
      var t :| 0.0 <= t <= 1.0 && ds[k] == Along(x, y, xs[k], ys[k], xs[Next(k, n)], ys[Next(k, n)], t);
      assert k < n && m == PolyAlong(xs, ys, k, x, y, t);
    }
  }

  /** The polygon metric is zero at every vertex: vertex k starts edge k. */
  lemma PolyDistZeroAtVertex(xs: seq<real>, ys: seq<real>, k: nat)
    requires WellFormed(xs, ys) && k < |xs|
    ensures PolyDist(xs, ys, xs[k], ys[k]) == Some(0.0)
  {
    var n := |xs|;
    var x, y := xs[k], ys[k];
    var ds := PolySegDists(xs, ys, x, y);
    SegmentZeroAtEndpoint(x, y, xs[k], ys[k], xs[Next(k, n)], ys[Next(k, n)]);
    forall i | 0 <= i < |ds| ensures ds[i] >= 0.0 {
      IsSegmentDistance(x, y, xs[i], ys[i], xs[Next(i, n)], ys[Next(i, n)]);
    }
    RunningMinHitsZero(ds, k);
  }

  lemma SegmentZeroAtEndpoint(x: real, y: real, ax: real, ay: real, bx: real, by_: real)
    requires (x == ax && y == ay) || (x == bx && y == by_)
    ensures PtDistanceToLine(x, y, ax, ay, bx, by_) == 0.0
  {
    EndpointBounds(x, y, ax, ay, bx, by_);
  }

  /** A running minimum over non-negative values one of which is zero is zero. */
  lemma RunningMinHitsZero(ds: seq<real>, j: nat)
    requires j < |ds| && ds[j] == 0.0
    requires forall i :: 0 <= i < |ds| ==> ds[i] >= 0.0
    ensures RunningMin(ds) == Some(0.0)
  {
    RunningMinIsMin(ds);
  }

  /** The polygon metric is the polyline metric of the same vertices with the
      closing edge as one more segment. */
  lemma PolyDistIsClosedLine(xs: seq<real>, ys: seq<real>, x: real, y: real)
    requires WellFormed(xs, ys) && |xs| >= 1
    ensures PolyDist(xs, ys, x, y) == LineDist(xs + [xs[0]], ys + [ys[0]], x, y)
  {
    var n := |xs|;
    var a := PolySegDists(xs, ys, x, y);
    var b := LineSegDists(xs + [xs[0]], ys + [ys[0]], x, y);
    assert |a| == |b|;
    forall i | 0 <= i < n ensures a[i] == b[i] {
      if i + 1 == n {
        assert (xs + [xs[0]])[i + 1] == xs[0];
        assert (ys + [ys[0]])[i + 1] == ys[0];
      } else {
        assert (xs + [xs[0]])[i + 1] == xs[i + 1];
        assert (ys + [ys[0]])[i + 1] == ys[i + 1];
      }
      assert (xs + [xs[0]])[i] == xs[i] && (ys + [ys[0]])[i] == ys[i];
    }
    assert a == b;
  }

  /** The polyline loop as written: `i < n` iterations, the last one pairing
      vertex n - 1 with whatever lies past the end of the arrays, here (gx, gy). */
  function LineDistPastEnd(xs: seq<real>, ys: seq<real>, gx: real, gy: real, x: real, y: real): (d: Option<real>)
    requires WellFormed(xs, ys)
  {
    RunningMin(LineSegDists(xs + [gx], ys + [gy], x, y))
  }

  /** The loop as written takes the intended minimum together with one phantom
      segment from the last vertex to the value past the end. */
  lemma PastEndAddsPhantomSegment(xs: seq<real>, ys: seq<real>, gx: real, gy: real, x: real, y: real)
    requires WellFormed(xs, ys) && |xs| >= 1
    ensures var n := |xs|;
            var phantom := Some(PtDistanceToLine(x, y, xs[n - 1], ys[n - 1], gx, gy));
            var intended := LineDist(xs, ys, x, y);
            LineDistPastEnd(xs, ys, gx, gy, x, y) == if Below(phantom, intended) then phantom else intended
  {
    var n := |xs|;
    var xs', ys' := xs + [gx], ys + [gy];
    var full := LineSegDists(xs', ys', x, y);
    var phantom := PtDistanceToLine(x, y, xs[n - 1], ys[n - 1], gx, gy);
    assert full == LineSegDists(xs, ys, x, y) + [phantom] by {
      forall i | 0 <= i < n - 1 ensures full[i] == LineSegDists(xs, ys, x, y)[i] {
        assert xs'[i] == xs[i] && xs'[i + 1] == xs[i + 1] && ys'[i] == ys[i] && ys'[i + 1] == ys[i + 1];
      }
      assert xs'[n - 1] == xs[n - 1] && xs'[n] == gx && ys'[n - 1] == ys[n - 1] && ys'[n] == gy;
    }
    RunningMinAppend(LineSegDists(xs, ys, x, y), [phantom]);
    assert RunningMin([phantom]) == Some(phantom) by {
      assert [phantom][..0] == [];
    }
  }

  /** A concrete input on which the loop as written differs from the intended
      metric: a single vertex (0, 0), which has no segment, the value (5, 5) past the
      end, queried at (5, 5). The loop as written reports distance 0 instead of
      "no distance". */
  lemma PastEndChangesResult()
    ensures LineDistPastEnd([0.0], [0.0], 5.0, 5.0, 5.0, 5.0) == Some(0.0)
    ensures LineDist([0.0], [0.0], 5.0, 5.0) == None
  {
    assert LineSegDists([0.0], [0.0], 5.0, 5.0) == [];
    SegmentZeroAtEndpoint(5.0, 5.0, 0.0, 0.0, 5.0, 5.0);
    PastEndAddsPhantomSegment([0.0], [0.0], 5.0, 5.0, 5.0, 5.0);
  }
}
