/** The sites of the render-tree example: a vertex list in two arrays with a vertex
    count and an id, and a distance function chosen by the kind of site (point,
    polyline or polygon; in the header these are three subclasses of one base). */
module RenderSite {
  import opened Wrappers
  import opened Geometry
  import opened Segment
  import opened MinScan
  import opened Polyline

  datatype Shape = PointShape | LineShape | PolygonShape

  class Site {
    var xs: array<real>
    var ys: array<real>
    var n: nat
    var id: int
    var shape: Shape

    /** The first `n` entries of both arrays are vertices. */
    predicate Valid()
      reads this
    {
      n <= xs.Length && n <= ys.Length
    }

    function Xs(): (s: seq<real>)
      reads this, xs
      requires Valid()
    {
      xs[..n]
    }

    function Ys(): (s: seq<real>)
      reads this, ys
      requires Valid()
    {
      ys[..n]
    }

    /** A site over the given vertex arrays. The header's constructor sets only
        `n` to 0; a caller must assign `xs`, `ys`, `n` and `id` afterwards. Here
        they are all given at once. */
    constructor (xs: array<real>, ys: array<real>, n: nat, id: int, shape: Shape)
      requires n <= xs.Length && n <= ys.Length
      ensures Valid()
      ensures this.xs == xs && this.ys == ys && this.n == n && this.id == id && this.shape == shape
    {
      this.xs := xs;
      this.ys := ys;
      this.n := n;
      this.id := id;
      this.shape := shape;
    }

    /** `PointSite::distance_to`: the squared distance to vertex 0. */
    method PointDistanceTo(x: real, y: real) returns (d: real)
      requires Valid() && n >= 1
      ensures d == PointDist(Xs(), Ys(), x, y)
      ensures d >= 0.0 && (x == xs[0] && y == ys[0] ==> d == 0.0)
    {
      d := SqDist(x, y, xs[0], ys[0]);
      PointDistProperties(Xs(), Ys(), x, y);
    }

    /** `LineSite::distance_to` over the n - 1 segments between consecutive
        vertices. */
    method LineDistanceTo(x: real, y: real) returns (distance: Option<real>)
      requires Valid()
      ensures distance == LineDist(Xs(), Ys(), x, y)
    {
      ghost var ds := LineSegDists(Xs(), Ys(), x, y);
      distance := None;
      var i := 0;
      while i + 1 < n
        invariant 0 <= i <= (if n == 0 then 0 else n - 1)
        invariant distance == RunningMin(ds[..i])
      {
        var d := PtDistanceToLine(x, y, xs[i], ys[i], xs[i + 1], ys[i + 1]);
        assert ds[..i + 1][..i] == ds[..i];
        if Below(Some(d), distance) {
          distance := Some(d);
        }
        i := i + 1;
      }
      assert ds[..i] == ds;
    }

    /** `PolygonSite::distance_to`: every vertex is joined to the next one, the last
        to vertex 0, and only indices below n are read. */
    method PolygonDistanceTo(x: real, y: real) returns (distance: Option<real>)
      requires Valid()
      ensures distance == PolyDist(Xs(), Ys(), x, y)
    {
      ghost var ds := PolySegDists(Xs(), Ys(), x, y);
      distance := None;
      var i := 0;
      while i < n
        invariant 0 <= i <= n
        invariant distance == RunningMin(ds[..i])
      {
        var d;
        if i + 1 == n {
          d := PtDistanceToLine(x, y, xs[i], ys[i], xs[0], ys[0]);
        } else {
          d := PtDistanceToLine(x, y, xs[i], ys[i], xs[i + 1], ys[i + 1]);
        }
        assert ds[..i + 1][..i] == ds[..i];
        if Below(Some(d), distance) {
          distance := Some(d);
        }
        i := i + 1;
      }
      assert ds[..i] == ds;
    }

    /** The virtual `distance_to`, by the kind of site. */
    method DistanceTo(x: real, y: real) returns (distance: Option<real>)
      requires Valid() && (shape == PointShape ==> n >= 1)
      ensures shape == PointShape ==> distance == Some(PointDist(Xs(), Ys(), x, y))
      ensures shape == LineShape ==> distance == LineDist(Xs(), Ys(), x, y)
      ensures shape == PolygonShape ==> distance == PolyDist(Xs(), Ys(), x, y)
    {
      match shape {
        case PointShape =>
          var d := PointDistanceTo(x, y);
          distance := Some(d);
        case LineShape =>
          distance := LineDistanceTo(x, y);
        case PolygonShape =>
          distance := PolygonDistanceTo(x, y);
      }
    }
  }
}
