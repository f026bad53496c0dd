/** The two builders side by side, on point sites in the plane. */
module Compare {
  import opened Wrappers
  import opened Geometry
  import opened Orthant
  import C = CQuadtree
  import Cpp = CppQuadtree
  import opened Points
  import MinScan

  /** The C++ builder over points with the points example's metric. */
  function PointConfig(pts: seq<Point>, maxDepth: int): (cfg: Cpp.Config<Point>)
  {
    Cpp.Config(2, 2 * 2, pts, maxDepth,
      (p: Point, pt: seq<real>) => if |pt| >= 2 then Some(PointMetric(p, pt[0], pt[1])) else None)
  }

  /** In the plane the builder's 2 * dim children are the four quadrants, so the
      leaves of every tree it builds cover the root square. */
  lemma PlaneLeavesCover<S>(cfg: Cpp.Config<S>, mid: seq<real>, radius: real, q: seq<real>)
    requires cfg.dim == 2 && cfg.nnodes == 2 * cfg.dim && |mid| == 2 && 0 <= cfg.maxDepth
    requires InCube(q, mid, radius)
    ensures exists leaf :: (leaf in Cpp.Leaves(Cpp.WorkerSpec(cfg, mid, radius, 0)) && leaf.Leaf? &&
                            InCube(q, leaf.mid, leaf.radius))
  {
    NnodesIsPow2Iff(2);
    Cpp.LeavesCoverCube(cfg, mid, radius, 0, q);
  }

  /** Sites at (0, 0) and (0.9, 0.9) on the unit square with max_depth 0: the C
      builder labels its single leaf with the site closest to the corner (0, 0),
      site 0, and the C++ builder with the site closest to the centre (0.5, 0.5),
      site 1. */
  lemma MaxDepthLabelsDiffer()
    ensures var sites := [C.Site([0.0], [0.0], C.PtEuclidean), C.Site([0.9], [0.9], C.PtEuclidean)];
      C.ValidSites(sites) && C.WorkerSpec(sites, 0.0, 1.0, 0.0, 1.0, 0, 0) == C.Leaf(0.0, 1.0, 0.0, 1.0, 0)
    ensures var pts := [Point(0.0, 0.0, 0), Point(0.9, 0.9, 1)];
      Cpp.WorkerSpec(PointConfig(pts, 0), [0.5, 0.5], 0.5, 0) == Cpp.Leaf([0.5, 0.5], 0.5, Some(1))
  {
    var sites := [C.Site([0.0], [0.0], C.PtEuclidean), C.Site([0.9], [0.9], C.PtEuclidean)];
    var vs := C.MetricValues(sites, 0.0, 0.0);
    assert vs == [Some(0.0), Some(1.62)];
    assert vs[..1][..0] == [] && vs[..1] == [vs[0]];
    assert vs[..2] == vs;
    assert MinScan.Scan(vs[..1]) == MinScan.Pick(0, Some(0.0));
    assert MinScan.Scan(vs) == MinScan.Pick(0, Some(0.0));
    var pts := [Point(0.0, 0.0, 0), Point(0.9, 0.9, 1)];
    var cfg := PointConfig(pts, 0);
    var ws := Cpp.Values(cfg, [0.5, 0.5]);
    assert ws == [Some(0.5), Some(0.32)];
    assert ws[..1][..0] == [] && ws[..1] == [ws[0]];
    assert ws[..2] == ws;
    assert MinScan.Scan(ws[..1]) == MinScan.Pick(0, Some(0.5));
    assert MinScan.Scan(ws) == MinScan.Pick(1, Some(0.32));
  }
}
