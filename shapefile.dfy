/** The sites of the shapefile example: each site holds a shape object read from
    the file (or none), and one metric serves points, arcs and polygons by the
    object's shape type. The constants are the shape-type codes of the ESRI
    Shapefile Technical Description. */
module ShapeFile {
  import opened Wrappers
  import opened Geometry
  import opened Segment
  import opened MinScan
  import opened Polyline

  const SHPT_POINT: int := 1
  const SHPT_ARC: int := 3
  const SHPT_POLYGON: int := 5

  /** The fields of a shape object the metric reads. */
  datatype ShpObject = ShpObject(nSHPType: int, nVertices: nat, padfX: seq<real>, padfY: seq<real>)

  /** The coordinate arrays hold `nVertices` entries, and a point has its vertex. */
  predicate ValidObject(o: ShpObject)
  {
    |o.padfX| == o.nVertices && |o.padfY| == o.nVertices &&
    (o.nSHPType == SHPT_POINT ==> o.nVertices >= 1)
  }

  class Site {
    var obj: Option<ShpObject>
    var id: nat

    /** A site starts with no object and id 0. */
    constructor ()
      ensures obj == None && id == 0
    {
      obj := None;
      id := 0;
    }

    /** `set_obj`: replaces the object and nothing else. */
    method SetObj(o: Option<ShpObject>)
      modifies this
      ensures obj == o && id == old(id)
    {
      obj := o;
    }
  }

  /** The value `metric(site, pt)` returns for the object `obj`; `None` is the
      largest double. */
  function ShpMetric(obj: Option<ShpObject>, x: real, y: real): (d: Option<real>)
    requires obj.Some? ==> ValidObject(obj.value)
  {
    match obj
    case None => None
    case Some(o) =>
      if o.nSHPType == SHPT_POINT then Some(PointDist(o.padfX, o.padfY, x, y))
      else if o.nSHPType == SHPT_ARC then LineDist(o.padfX, o.padfY, x, y)
      else if o.nSHPType == SHPT_POLYGON then PolyDist(o.padfX, o.padfY, x, y)
      else None
  }

  /** Which objects get a distance at all: points always, arcs with two or more
      vertices, polygons with one or more; a missing object or another shape type
      never does, so `closest_site` never picks such a site. */
  lemma ShpMetricDefined(obj: Option<ShpObject>, x: real, y: real)
    requires obj.Some? ==> ValidObject(obj.value)
    ensures ShpMetric(obj, x, y).Some? <==>
      obj.Some? && (obj.value.nSHPType == SHPT_POINT ||
                    (obj.value.nSHPType == SHPT_ARC && obj.value.nVertices >= 2) ||
                    (obj.value.nSHPType == SHPT_POLYGON && obj.value.nVertices >= 1))
    ensures ShpMetric(obj, x, y).Some? ==> ShpMetric(obj, x, y).value >= 0.0
  {
    if obj.Some? {
      var o := obj.value;
      if o.nSHPType == SHPT_POINT {
        PointDistProperties(o.padfX, o.padfY, x, y);
      } else if o.nSHPType == SHPT_ARC {
        LineDistIsPolylineDistance(o.padfX, o.padfY, x, y);
      } else if o.nSHPType == SHPT_POLYGON {
        PolyDistIsBoundaryDistance(o.padfX, o.padfY, x, y);
      }
    }
  }

  /** The `SHPT_ARC` branch of `metric`: the loop over the n - 1 segments between
      consecutive vertices. */
  method ArcDistance(o: ShpObject, x: real, y: real) returns (distance: Option<real>)
    requires ValidObject(o)
    ensures distance == LineDist(o.padfX, o.padfY, x, y)
  {
    ghost var ds := LineSegDists(o.padfX, o.padfY, x, y);
    distance := None;
    var i := 0;
    while i + 1 < o.nVertices
      invariant 0 <= i <= (if o.nVertices == 0 then 0 else o.nVertices - 1)
      invariant distance == RunningMin(ds[..i])
    {
      var d := PtDistanceToLine(x, y, o.padfX[i], o.padfY[i], o.padfX[i + 1], o.padfY[i + 1]);
      assert ds[..i + 1][..i] == ds[..i];
      if Below(Some(d), distance) {
        distance := Some(d);
      }
      i := i + 1;
    }
    assert ds[..i] == ds;
  }

  /** The `SHPT_POLYGON` branch of `metric`: every vertex joined to the next, the
      last one to vertex 0. */
  method PolygonDistance(o: ShpObject, x: real, y: real) returns (distance: Option<real>)
    requires ValidObject(o)
    ensures distance == PolyDist(o.padfX, o.padfY, x, y)
  {
    ghost var ds := PolySegDists(o.padfX, o.padfY, x, y);
    distance := None;
    var i := 0;
    while i < o.nVertices
      invariant 0 <= i <= o.nVertices
      invariant distance == RunningMin(ds[..i])
    {
      var d;
      if i + 1 == o.nVertices {
        d := PtDistanceToLine(x, y, o.padfX[i], o.padfY[i], o.padfX[0], o.padfY[0]);
      } else {
        d := PtDistanceToLine(x, y, o.padfX[i], o.padfY[i], o.padfX[i + 1], o.padfY[i + 1]);
      }
      assert ds[..i + 1][..i] == ds[..i];
      if Below(Some(d), distance) {
        distance := Some(d);
      }
      i := i + 1;
    }
    assert ds[..i] == ds;
  }

  /** `metric`: the switch on the shape type. */
  method Metric(site: Site, pt: array<real>) returns (distance: Option<real>)
    requires pt.Length >= 2
    requires site.obj.Some? ==> ValidObject(site.obj.value)
    ensures distance == ShpMetric(site.obj, pt[0], pt[1])
  {
    var obj := site.obj;
    distance := None;
    var x, y := pt[0], pt[1];
    if obj.Some? {
      var o := obj.value;
      if o.nSHPType == SHPT_POINT {
        distance := Some(SqDist(x, y, o.padfX[0], o.padfY[0]));
      } else if o.nSHPType == SHPT_ARC {
        distance := ArcDistance(o, x, y);
      } else if o.nSHPType == SHPT_POLYGON {
        distance := PolygonDistance(o, x, y);
      }
    }
  }
}
