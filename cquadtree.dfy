/** The two-dimensional C library: metrics of point, polyline and polygon sites,
    the closest-site scan, the recursive quadtree worker and the builder.

    A site is a vertex list together with the metric the caller attached to it
    (the `metric` function pointer of the C struct, here a tag). A box is given by
    its bounds x1, x2, y1, y2; a node is either a leaf holding its box and the index
    of a site, or a split into the four quadrants ne, nw, sw, se. */
module CQuadtree {
  import opened Wrappers
  import opened Geometry
  import opened Segment
  import opened MinScan
  import opened Polyline

  /** The metric function a site carries. */
  datatype MetricKind = PtEuclidean | LineEuclidean | PolyEuclidean

  /** A site: `n` vertices in parallel arrays and its metric. */
  datatype Site = Site(xs: seq<real>, ys: seq<real>, metric: MetricKind)

  /** The point metric reads vertex 0, so a point site needs one. */
  predicate ValidSite(s: Site)
  {
    WellFormed(s.xs, s.ys) && (s.metric == PtEuclidean ==> |s.xs| >= 1)
  }

  predicate ValidSites(sites: seq<Site>)
  {
    forall i :: 0 <= i < |sites| ==> ValidSite(sites[i])
  }

  /** What `site->metric(x, y, site)` returns; `None` is `DBL_MAX`. */
  function SiteMetric(s: Site, x: real, y: real): (d: Option<real>)
    requires ValidSite(s)
  {
    match s.metric
    case PtEuclidean => Some(PointDist(s.xs, s.ys, x, y))
    case LineEuclidean => LineDist(s.xs, s.ys, x, y)
    case PolyEuclidean => PolyDist(s.xs, s.ys, x, y)
  }

  /** `line_euclidean_metric` over the n - 1 segments of the site. */
  method LineEuclideanMetric(x: real, y: real, s: Site) returns (distance: Option<real>)
    requires WellFormed(s.xs, s.ys)
    ensures distance == LineDist(s.xs, s.ys, x, y)
  {
    ghost var ds := LineSegDists(s.xs, s.ys, x, y);
    var count := if |s.xs| == 0 then 0 else |s.xs| - 1;
    distance := None;
    var i := 0;
    while i < count
      invariant 0 <= i <= count
      invariant distance == RunningMin(ds[..i])
    {
      var d := PtDistanceToLine(x, y, s.xs[i], s.ys[i], s.xs[i + 1], s.ys[i + 1]);
      assert ds[..i + 1][..i] == ds[..i];
      if Below(Some(d), distance) {
        distance := Some(d);
      }
      i := i + 1;
    }
    assert ds[..i] == ds;
  }

  /** `poly_euclidean_metric`: the same loop over n edges, the last one closing
      back to vertex 0. */
  method PolyEuclideanMetric(x: real, y: real, s: Site) returns (distance: Option<real>)
    requires WellFormed(s.xs, s.ys)
    ensures distance == PolyDist(s.xs, s.ys, x, y)
  {
    ghost var ds := PolySegDists(s.xs, s.ys, x, y);
    var n := |s.xs|;
    distance := None;
    var i := 0;
    while i < n
      invariant 0 <= i <= n
      invariant distance == RunningMin(ds[..i])
    {
      var d;
      if i + 1 == n {
        d := PtDistanceToLine(x, y, s.xs[i], s.ys[i], s.xs[0], s.ys[0]);
      } else {
        d := PtDistanceToLine(x, y, s.xs[i], s.ys[i], s.xs[i + 1], s.ys[i + 1]);
      }
      assert ds[..i + 1][..i] == ds[..i];
      if Below(Some(d), distance) {
        distance := Some(d);
      }
      i := i + 1;
    }
    assert ds[..i] == ds;
  }

  /** The call through the site's metric pointer. */
  method CallMetric(x: real, y: real, s: Site) returns (d: Option<real>)
    requires ValidSite(s)
    ensures d == SiteMetric(s, x, y)
  {
    match s.metric {
      case PtEuclidean =>
        d := Some(PointDist(s.xs, s.ys, x, y));
      case LineEuclidean =>
        d := LineEuclideanMetric(x, y, s);
      case PolyEuclidean =>
        d := PolyEuclideanMetric(x, y, s);
    }
  }

  /** The metric values of all sites at (x, y), in index order. */
  function MetricValues(sites: seq<Site>, x: real, y: real): (vs: seq<Option<real>>)
    requires ValidSites(sites)
    ensures |vs| == |sites|
  {
    seq(|sites|, i requires 0 <= i < |sites| => SiteMetric(sites[i], x, y))
  }

  /** The closest site's index, -1 when no site has a distance. */
  function Closest(sites: seq<Site>, x: real, y: real): (k: int)
    requires ValidSites(sites)
  {
    Scan(MetricValues(sites, x, y)).site
  }

  /** `closest_site`: -1 exactly when no site has a distance (in particular when
      there are no sites), and otherwise the lowest index of the smallest metric. */
  lemma ClosestIsFirstArgMin(sites: seq<Site>, x: real, y: real)
    requires ValidSites(sites)
    ensures var vs := MetricValues(sites, x, y);
      (Closest(sites, x, y) == -1 <==> forall j :: 0 <= j < |sites| ==> vs[j].None?) &&
      (Closest(sites, x, y) != -1 ==> IsFirstArgMin(vs, Closest(sites, x, y)))
    ensures |sites| == 0 ==> Closest(sites, x, y) == -1
  {
    ScanIsFirstArgMin(MetricValues(sites, x, y));
  }

  /** The loop of `closest_site`. */
  method ClosestSite(x: real, y: real, sites: seq<Site>) returns (site: int)
    requires ValidSites(sites)
    ensures site == Closest(sites, x, y)
  {
    ghost var vs := MetricValues(sites, x, y);
    site := -1;
    var distance: Option<real> := None;
    var i := 0;
    while i < |sites|
      invariant 0 <= i <= |sites|
      invariant Pick(site, distance) == Scan(vs[..i])
    {
      var d := CallMetric(x, y, sites[i]);
      assert vs[..i + 1][..i] == vs[..i];
      if Below(d, distance) {
        site := i;
        distance := d;
      }
      i := i + 1;
    }
    assert vs[..i] == vs;
  }

  /** A node of the C tree. */
  datatype QNode =
    | Leaf(x1: real, x2: real, y1: real, y2: real, siteId: int)
    | Split(ne: QNode, nw: QNode, sw: QNode, se: QNode)

  /** The four corners of a box agree on their closest site. */
  predicate CornersAgree(sites: seq<Site>, x1: real, x2: real, y1: real, y2: real)
    requires ValidSites(sites)
  {
    var cp1 := Closest(sites, x1, y1);
    var cp2 := Closest(sites, x1, y2);
    var cp3 := Closest(sites, x2, y1);
    var cp4 := Closest(sites, x2, y2);
    cp1 == cp2 && cp2 == cp3 && cp3 == cp4
  }

  function Mid(a: real, b: real): (m: real)
  {
    a + 0.5 * (b - a)
  }

  /** The tree `voronoi_quadtree_worker` builds for the box at `depth`. */
  function WorkerSpec(sites: seq<Site>, x1: real, x2: real, y1: real, y2: real, depth: int, maxDepth: int): (t: QNode)
    requires ValidSites(sites) && depth <= maxDepth
    decreases maxDepth - depth
  {
    if CornersAgree(sites, x1, x2, y1, y2) || depth == maxDepth then
      Leaf(x1, x2, y1, y2, Closest(sites, x1, y1))
    else
      var xmid := Mid(x1, x2);
      var ymid := Mid(y1, y2);
      Split(WorkerSpec(sites, xmid, x2, y1, ymid, depth + 1, maxDepth),
            WorkerSpec(sites, x1, xmid, y1, ymid, depth + 1, maxDepth),
            WorkerSpec(sites, x1, xmid, ymid, y2, depth + 1, maxDepth),
            WorkerSpec(sites, xmid, x2, ymid, y2, depth + 1, maxDepth))
  }

  /** `voronoi_quadtree_worker`. */
  method Worker(x1: real, x2: real, y1: real, y2: real, sites: seq<Site>, depth: int, maxDepth: int)
    returns (node: QNode)
    requires ValidSites(sites) && depth <= maxDepth
    ensures node == WorkerSpec(sites, x1, x2, y1, y2, depth, maxDepth)
    decreases maxDepth - depth
  {
    var cp1 := ClosestSite(x1, y1, sites);
    var cp2 := ClosestSite(x1, y2, sites);
    var cp3 := ClosestSite(x2, y1, sites);
    var cp4 := ClosestSite(x2, y2, sites);
    assert CornersAgree(sites, x1, x2, y1, y2) <==> cp1 == cp2 && cp2 == cp3 && cp3 == cp4;
    if (cp1 == cp2 && cp2 == cp3 && cp3 == cp4) || depth == maxDepth {
      node := Leaf(x1, x2, y1, y2, cp1);
    } else {
      var xmid := x1 + 0.5 * (x2 - x1);
      var ymid := y1 + 0.5 * (y2 - y1);
      var ne := Worker(xmid, x2, y1, ymid, sites, depth + 1, maxDepth);
      var nw := Worker(x1, xmid, y1, ymid, sites, depth + 1, maxDepth);
      var sw := Worker(x1, xmid, ymid, y2, sites, depth + 1, maxDepth);
      var se := Worker(xmid, x2, ymid, y2, sites, depth + 1, maxDepth);
      node := Split(ne, nw, sw, se);
      assert xmid == Mid(x1, x2) && ymid == Mid(y1, y2);
    }
  }

  // ----- Shape of the tree -----

  function Height(t: QNode): (h: nat)
  {
    match t
    case Leaf(_, _, _, _, _) => 0
    case Split(a, b, c, d) =>
      1 + Max4(Height(a), Height(b), Height(c), Height(d))
  }

  function Max4(a: nat, b: nat, c: nat, d: nat): (m: nat)
  {
    var ab := if a < b then b else a;
    var cd := if c < d then d else c;
    if ab < cd then cd else ab
  }

  function Leaves(t: QNode): (ls: seq<QNode>)
  {
    match t
    case Leaf(_, _, _, _, _) => [t]
    case Split(a, b, c, d) => Leaves(a) + Leaves(b) + Leaves(c) + Leaves(d)
  }

  function Pow4(k: nat): (p: nat)
    ensures p >= 1
  {
    if k == 0 then 1 else 4 * Pow4(k - 1)
  }

  /** A node at `depth` whose leaves are all at depth `max_depth` or above. */
  predicate DepthBounded(t: QNode, depth: int, maxDepth: int)
  {
    match t
    case Leaf(_, _, _, _, _) => depth <= maxDepth
    case Split(a, b, c, d) =>
      depth < maxDepth &&
      DepthBounded(a, depth + 1, maxDepth) && DepthBounded(b, depth + 1, maxDepth) &&
      DepthBounded(c, depth + 1, maxDepth) && DepthBounded(d, depth + 1, maxDepth)
  }

  lemma {:induction false} DepthBoundedHeight(t: QNode, depth: int, maxDepth: int)
    ensures DepthBounded(t, depth, maxDepth) <==> Height(t) <= maxDepth - depth
  {
    match t
    case Leaf(_, _, _, _, _) =>
    case Split(a, b, c, d) =>
      DepthBoundedHeight(a, depth + 1, maxDepth);
      DepthBoundedHeight(b, depth + 1, maxDepth);
      DepthBoundedHeight(c, depth + 1, maxDepth);
      DepthBoundedHeight(d, depth + 1, maxDepth);
  }

  /** A node at `depth` whose leaves are at `max_depth` or above has at most
      4^(max_depth - depth) leaves. */
  lemma {:induction false} LeavesByDepth(t: QNode, depth: int, maxDepth: int)
    requires DepthBounded(t, depth, maxDepth)
    ensures |Leaves(t)| <= Pow4(maxDepth - depth)
  {
    match t
    case Leaf(_, _, _, _, _) =>
    case Split(a, b, c, d) =>
      LeavesByDepth(a, depth + 1, maxDepth);
      LeavesByDepth(b, depth + 1, maxDepth);
      LeavesByDepth(c, depth + 1, maxDepth);
      LeavesByDepth(d, depth + 1, maxDepth);
      QuarterBound(|Leaves(a)|, |Leaves(b)|, |Leaves(c)|, |Leaves(d)|, maxDepth - depth);
  }

  /** One step of the worker below `max_depth`: a leaf, or a split into the trees of
      the four quadrants. */
  lemma WorkerStep(sites: seq<Site>, x1: real, x2: real, y1: real, y2: real, depth: int, maxDepth: int)
    requires ValidSites(sites) && depth <= maxDepth
    ensures var t := WorkerSpec(sites, x1, x2, y1, y2, depth, maxDepth);
      var xm, ym := Mid(x1, x2), Mid(y1, y2);
      t.Leaf? ||
      (depth < maxDepth &&
       t == Split(WorkerSpec(sites, xm, x2, y1, ym, depth + 1, maxDepth),
                  WorkerSpec(sites, x1, xm, y1, ym, depth + 1, maxDepth),
                  WorkerSpec(sites, x1, xm, ym, y2, depth + 1, maxDepth),
                  WorkerSpec(sites, xm, x2, ym, y2, depth + 1, maxDepth)))
  {
  }

  /** The recursion stops by `max_depth`: no leaf of the tree built at `depth` lies
      deeper than `max_depth`. */
  lemma {:induction false} WorkerShallow(sites: seq<Site>, x1: real, x2: real, y1: real, y2: real, depth: int, maxDepth: int)
    requires ValidSites(sites) && depth <= maxDepth
    ensures DepthBounded(WorkerSpec(sites, x1, x2, y1, y2, depth, maxDepth), depth, maxDepth)
    decreases maxDepth - depth
  {
    WorkerStep(sites, x1, x2, y1, y2, depth, maxDepth);
    if WorkerSpec(sites, x1, x2, y1, y2, depth, maxDepth).Split? {
      var xm, ym := Mid(x1, x2), Mid(y1, y2);
      WorkerShallow(sites, xm, x2, y1, ym, depth + 1, maxDepth);
      WorkerShallow(sites, x1, xm, y1, ym, depth + 1, maxDepth);
      WorkerShallow(sites, x1, xm, ym, y2, depth + 1, maxDepth);
      WorkerShallow(sites, xm, x2, ym, y2, depth + 1, maxDepth);
    }
  }

  /** The tree built at `depth` is at most `max_depth - depth` levels high. */
  lemma WorkerHeight(sites: seq<Site>, x1: real, x2: real, y1: real, y2: real, depth: int, maxDepth: int)
    requires ValidSites(sites) && depth <= maxDepth
    ensures Height(WorkerSpec(sites, x1, x2, y1, y2, depth, maxDepth)) <= maxDepth - depth
  {
    WorkerShallow(sites, x1, x2, y1, y2, depth, maxDepth);
    DepthBoundedHeight(WorkerSpec(sites, x1, x2, y1, y2, depth, maxDepth), depth, maxDepth);
  }

  /** The tree built at `depth` has at most 4^(max_depth - depth) leaves. */
  lemma WorkerLeafCount(sites: seq<Site>, x1: real, x2: real, y1: real, y2: real, depth: int, maxDepth: int)
    requires ValidSites(sites) && depth <= maxDepth
    ensures |Leaves(WorkerSpec(sites, x1, x2, y1, y2, depth, maxDepth))| <= Pow4(maxDepth - depth)
  {
    WorkerShallow(sites, x1, x2, y1, y2, depth, maxDepth);
    LeavesByDepth(WorkerSpec(sites, x1, x2, y1, y2, depth, maxDepth), depth, maxDepth);
  }

  lemma QuarterBound(a: nat, b: nat, c: nat, d: nat, k: nat)
    requires k >= 1
    requires a <= Pow4(k - 1) && b <= Pow4(k - 1) && c <= Pow4(k - 1) && d <= Pow4(k - 1)
    ensures a + b + c + d <= Pow4(k)
  {
  }

  /** Every leaf is either at `max_depth` or has a box whose four corners share its
      label as closest site; `depth` is the depth of the node in the tree. */
  predicate LeavesSound(sites: seq<Site>, t: QNode, depth: int, maxDepth: int)
    requires ValidSites(sites)
  {
    match t
    case Leaf(x1, x2, y1, y2, id) =>
      id == Closest(sites, x1, y1) && (depth == maxDepth || CornersAgree(sites, x1, x2, y1, y2))
    case Split(a, b, c, d) =>
      LeavesSound(sites, a, depth + 1, maxDepth) && LeavesSound(sites, b, depth + 1, maxDepth) &&
      LeavesSound(sites, c, depth + 1, maxDepth) && LeavesSound(sites, d, depth + 1, maxDepth)
  }

  lemma {:induction false} WorkerLeavesSound(sites: seq<Site>, x1: real, x2: real, y1: real, y2: real, depth: int, maxDepth: int)
    requires ValidSites(sites) && depth <= maxDepth
    ensures LeavesSound(sites, WorkerSpec(sites, x1, x2, y1, y2, depth, maxDepth), depth, maxDepth)
    decreases maxDepth - depth
  {
    if !(CornersAgree(sites, x1, x2, y1, y2) || depth == maxDepth) {
      var xmid := Mid(x1, x2);
      var ymid := Mid(y1, y2);
      WorkerLeavesSound(sites, xmid, x2, y1, ymid, depth + 1, maxDepth);
      WorkerLeavesSound(sites, x1, xmid, y1, ymid, depth + 1, maxDepth);
      WorkerLeavesSound(sites, x1, xmid, ymid, y2, depth + 1, maxDepth);
      WorkerLeavesSound(sites, xmid, x2, ymid, y2, depth + 1, maxDepth);
    }
  }

  // ----- A single site -----

  /** Whether a site's metric has a value; it does not depend on the query point. */
  predicate HasMetric(s: Site)
  {
    match s.metric
    case PtEuclidean => true
    case LineEuclidean => |s.xs| >= 2
    case PolyEuclidean => |s.xs| >= 1
  }

  lemma SiteMetricDefined(s: Site, x: real, y: real)
    requires ValidSite(s)
    ensures SiteMetric(s, x, y).Some? <==> HasMetric(s)
  {
    LineDistIsPolylineDistance(s.xs, s.ys, x, y);
    PolyDistIsBoundaryDistance(s.xs, s.ys, x, y);
  }

  /** With one site every corner has the same closest site, so the worker returns a
      single leaf at any max_depth, labelled 0, or -1 when the site has no metric. */
  lemma SingleSiteOneLeaf(sites: seq<Site>, x1: real, x2: real, y1: real, y2: real, depth: int, maxDepth: int)
    requires ValidSites(sites) && |sites| == 1 && depth <= maxDepth
    ensures WorkerSpec(sites, x1, x2, y1, y2, depth, maxDepth)
         == Leaf(x1, x2, y1, y2, if HasMetric(sites[0]) then 0 else -1)
  {
    var k := if HasMetric(sites[0]) then 0 else -1;
    forall x, y ensures Closest(sites, x, y) == k {
      SiteMetricDefined(sites[0], x, y);
      ScanOne(MetricValues(sites, x, y));
    }
    assert CornersAgree(sites, x1, x2, y1, y2);
  }

  // ----- A negative max_depth -----

  /** The worker as written, without the requirement depth <= max_depth, run for at
      most `fuel` nested calls; `None` means the recursion had not finished. */
  function WorkerFuel(sites: seq<Site>, x1: real, x2: real, y1: real, y2: real, depth: int, maxDepth: int, fuel: nat): (r: Option<QNode>)
    requires ValidSites(sites)
    decreases fuel
  {
    if fuel == 0 then None
    else if CornersAgree(sites, x1, x2, y1, y2) || depth == maxDepth then
      Some(Leaf(x1, x2, y1, y2, Closest(sites, x1, y1)))
    else
      var xmid := Mid(x1, x2);
      var ymid := Mid(y1, y2);
      var ne := WorkerFuel(sites, xmid, x2, y1, ymid, depth + 1, maxDepth, fuel - 1);
      var nw := WorkerFuel(sites, x1, xmid, y1, ymid, depth + 1, maxDepth, fuel - 1);
      var sw := WorkerFuel(sites, x1, xmid, ymid, y2, depth + 1, maxDepth, fuel - 1);
      var se := WorkerFuel(sites, xmid, x2, ymid, y2, depth + 1, maxDepth, fuel - 1);
      if ne.Some? && nw.Some? && sw.Some? && se.Some? then Some(Split(ne.value, nw.value, sw.value, se.value))
      else None
  }

  /** With depth <= max_depth, max_depth - depth + 1 levels of calls suffice and
      give the tree of `WorkerSpec`. */
  lemma {:induction false} WorkerFuelAgrees(sites: seq<Site>, x1: real, x2: real, y1: real, y2: real, depth: int, maxDepth: int, fuel: nat)
    requires ValidSites(sites) && depth <= maxDepth && fuel > maxDepth - depth
    ensures WorkerFuel(sites, x1, x2, y1, y2, depth, maxDepth, fuel) == Some(WorkerSpec(sites, x1, x2, y1, y2, depth, maxDepth))
    decreases maxDepth - depth
  {
    if CornersAgree(sites, x1, x2, y1, y2) || depth == maxDepth {
      FuelLeaf(sites, x1, x2, y1, y2, depth, maxDepth, fuel);
    } else {
      var xm, ym := Mid(x1, x2), Mid(y1, y2);
      WorkerFuelAgrees(sites, xm, x2, y1, ym, depth + 1, maxDepth, fuel - 1);
      WorkerFuelAgrees(sites, x1, xm, y1, ym, depth + 1, maxDepth, fuel - 1);
      WorkerFuelAgrees(sites, x1, xm, ym, y2, depth + 1, maxDepth, fuel - 1);
      WorkerFuelAgrees(sites, xm, x2, ym, y2, depth + 1, maxDepth, fuel - 1);
      FuelSplit(sites, x1, x2, y1, y2, depth, maxDepth, fuel);
    }
  }

  /** The leaf step of `WorkerFuelAgrees`. */
  lemma FuelLeaf(sites: seq<Site>, x1: real, x2: real, y1: real, y2: real, depth: int, maxDepth: int, fuel: nat)
    requires ValidSites(sites) && depth <= maxDepth && fuel >= 1
    requires CornersAgree(sites, x1, x2, y1, y2) || depth == maxDepth
    ensures WorkerFuel(sites, x1, x2, y1, y2, depth, maxDepth, fuel) == Some(WorkerSpec(sites, x1, x2, y1, y2, depth, maxDepth))
  {
  }

  /** The split step of `WorkerFuelAgrees`: children that agree make parents that
      agree. */
  lemma FuelSplit(sites: seq<Site>, x1: real, x2: real, y1: real, y2: real, depth: int, maxDepth: int, fuel: nat)
    requires ValidSites(sites) && depth < maxDepth && fuel >= 1
    requires !CornersAgree(sites, x1, x2, y1, y2)
    requires var xm, ym := Mid(x1, x2), Mid(y1, y2);
      WorkerFuel(sites, xm, x2, y1, ym, depth + 1, maxDepth, fuel - 1) == Some(WorkerSpec(sites, xm, x2, y1, ym, depth + 1, maxDepth)) &&
      WorkerFuel(sites, x1, xm, y1, ym, depth + 1, maxDepth, fuel - 1) == Some(WorkerSpec(sites, x1, xm, y1, ym, depth + 1, maxDepth)) &&
      WorkerFuel(sites, x1, xm, ym, y2, depth + 1, maxDepth, fuel - 1) == Some(WorkerSpec(sites, x1, xm, ym, y2, depth + 1, maxDepth)) &&
      WorkerFuel(sites, xm, x2, ym, y2, depth + 1, maxDepth, fuel - 1) == Some(WorkerSpec(sites, xm, x2, ym, y2, depth + 1, maxDepth))
    ensures WorkerFuel(sites, x1, x2, y1, y2, depth, maxDepth, fuel) == Some(WorkerSpec(sites, x1, x2, y1, y2, depth, maxDepth))
  {
  }

  /** Two point sites, at (0, 0) and (10, 0). */
  function TwoPoints(): (sites: seq<Site>)
  {
    [Site([0.0], [0.0], PtEuclidean), Site([10.0], [0.0], PtEuclidean)]
  }

  lemma AxisDifference(x: real)
    ensures SqDist(x, 0.0, 0.0, 0.0) - SqDist(x, 0.0, 10.0, 0.0) == 20.0 * x - 100.0
  {}

  /** On the x axis the first site is closest up to x = 5 (the tie at 5 goes to the
      lower index) and the second beyond. */
  lemma TwoPointsOnAxis(x: real)
    ensures ValidSites(TwoPoints())
    ensures x <= 5.0 ==> Closest(TwoPoints(), x, 0.0) == 0
    ensures x > 5.0 ==> Closest(TwoPoints(), x, 0.0) == 1
  {
    var vs := MetricValues(TwoPoints(), x, 0.0);
    AxisDifference(x);
    assert vs == [Some(SqDist(x, 0.0, 0.0, 0.0)), Some(SqDist(x, 0.0, 10.0, 0.0))];
    assert vs[..1][..0] == [];
    assert vs[..1] == [vs[0]];
    assert Scan(vs[..1]) == Pick(0, vs[0]);
  }

  /** With max_depth = -1 the worker on the box from (5, 0) to (x2, 0), x2 > 5, never
      returns: its left corners lie on the bisector x = 5 and go to site 0, its right
      corners go to site 1, so it splits, and its north west quadrant is the same
      kind of box, from (5, 0) to the midpoint. */
  lemma {:induction false} NegativeDepthDiverges(x2: real, depth: int, fuel: nat)
    requires x2 > 5.0 && depth >= 0
    ensures ValidSites(TwoPoints())
    ensures WorkerFuel(TwoPoints(), 5.0, x2, 0.0, 0.0, depth, -1, fuel) == None
    decreases fuel
  {
    TwoPointsOnAxis(5.0);
    TwoPointsOnAxis(x2);
    if fuel > 0 {
      assert !CornersAgree(TwoPoints(), 5.0, x2, 0.0, 0.0);
      var xm := Mid(5.0, x2);
      assert xm > 5.0 && Mid(0.0, 0.0) == 0.0;
      NegativeDepthDiverges(xm, depth + 1, fuel - 1);
    }
  }

  /** `build_voronoi_quadtree` with max_depth = -1 on the sites (0, 0) and (10, 0):
      the root box from (0, 0) to (10, 0) (`BoundsOfTwoPoints`) splits, and its north
      east quadrant is the box from (5, 0) to (10, 0), which never returns. */
  lemma NegativeDepthFromRoot(fuel: nat)
    ensures ValidSites(TwoPoints())
    ensures WorkerFuel(TwoPoints(), 0.0, 10.0, 0.0, 0.0, 0, -1, fuel) == None
  {
    RootCornersDisagree();
    if fuel > 0 {
      NegativeDepthDiverges(10.0, 1, fuel - 1);
      FuelNoneFromNe(TwoPoints(), 0.0, 10.0, 0.0, 0.0, 5.0, 0.0, 0, -1, fuel);
    }
  }

  /** The corners (0, 0) and (10, 0) of the root box go to different sites. */
  lemma RootCornersDisagree()
    ensures ValidSites(TwoPoints())
    ensures !CornersAgree(TwoPoints(), 0.0, 10.0, 0.0, 0.0)
    ensures Mid(0.0, 10.0) == 5.0 && Mid(0.0, 0.0) == 0.0
  {
    TwoPointsOnAxis(0.0);
    TwoPointsOnAxis(10.0);
  }

  /** A call that splits does not return when its north east quadrant does not. */
  lemma FuelNoneFromNe(sites: seq<Site>, x1: real, x2: real, y1: real, y2: real, xm: real, ym: real,
                       depth: int, maxDepth: int, fuel: nat)
    requires ValidSites(sites) && fuel >= 1 && depth != maxDepth
    requires !CornersAgree(sites, x1, x2, y1, y2) && xm == Mid(x1, x2) && ym == Mid(y1, y2)
    requires WorkerFuel(sites, xm, x2, y1, ym, depth + 1, maxDepth, fuel - 1) == None
    ensures WorkerFuel(sites, x1, x2, y1, y2, depth, maxDepth, fuel) == None
  {
  }

  /** The root box `build_voronoi_quadtree` computes for the two sites. */
  lemma BoundsOfTwoPoints()
    ensures Bounds(TwoPoints()) == Box(0.0, 10.0, 0.0, 0.0)
  {
    TwoPointsVertices();
    FoldTwo(0.0, 10.0);
    FoldTwo(0.0, 0.0);
  }

  /** The vertex coordinates of the two sites, in the order the loop visits them. */
  lemma TwoPointsVertices()
    ensures AllXs(TwoPoints()) == [0.0, 10.0] && AllYs(TwoPoints()) == [0.0, 0.0]
  {
    var sites := TwoPoints();
    assert sites[..1][..0] == [] && sites[..1] == [sites[0]];
    assert sites[..2] == sites;
  }

  /** The bounds loop over two coordinates a <= b, started from a. */
  lemma FoldTwo(a: real, b: real)
    requires a <= b
    ensures MinFrom(a, [a, b]) == a && MaxFrom(a, [a, b]) == b
  {
    assert [a, b][..1] == [a] && [a][..0] == [];
    assert MinFrom(a, [a]) == a && MaxFrom(a, [a]) == a;
  }

  // ----- Tiling -----

  predicate InBox(qx: real, qy: real, x1: real, x2: real, y1: real, y2: real)
  {
    x1 <= qx <= x2 && y1 <= qy <= y2
  }

  predicate InLeaf(qx: real, qy: real, t: QNode)
  {
    t.Leaf? && InBox(qx, qy, t.x1, t.x2, t.y1, t.y2)
  }

  /** How many of the four quadrants of the box contain (qx, qy). */
  function QuadrantCount(qx: real, qy: real, x1: real, x2: real, y1: real, y2: real): (c: nat)
  {
    var xm, ym := Mid(x1, x2), Mid(y1, y2);
    (if InBox(qx, qy, xm, x2, y1, ym) then 1 else 0) + (if InBox(qx, qy, x1, xm, y1, ym) then 1 else 0) +
    (if InBox(qx, qy, x1, xm, ym, y2) then 1 else 0) + (if InBox(qx, qy, xm, x2, ym, y2) then 1 else 0)
  }

  /** The split point lies between the bounds, and the four quadrants cover the
      box, lie inside it and overlap only on the two split lines. */
  lemma QuadrantsTile(x1: real, x2: real, y1: real, y2: real, qx: real, qy: real)
    requires x1 <= x2 && y1 <= y2
    ensures x1 <= Mid(x1, x2) <= x2 && y1 <= Mid(y1, y2) <= y2
    ensures InBox(qx, qy, x1, x2, y1, y2) <==> QuadrantCount(qx, qy, x1, x2, y1, y2) >= 1
    ensures InBox(qx, qy, x1, x2, y1, y2) && qx != Mid(x1, x2) && qy != Mid(y1, y2) ==>
      QuadrantCount(qx, qy, x1, x2, y1, y2) == 1
  {}

  /** Every node of ls is a leaf whose box lies inside the given box. */
  predicate AllWithin(ls: seq<QNode>, x1: real, x2: real, y1: real, y2: real)
  {
    forall k :: 0 <= k < |ls| ==> ls[k].Leaf? && x1 <= ls[k].x1 && ls[k].x2 <= x2 && y1 <= ls[k].y1 && ls[k].y2 <= y2
  }

  /** Some leaf of ls contains (qx, qy). */
  predicate Covers(ls: seq<QNode>, qx: real, qy: real)
  {
    exists k :: 0 <= k < |ls| && InLeaf(qx, qy, ls[k])
  }

  lemma AllWithinJoin(ls: seq<QNode>, ms: seq<QNode>, x1: real, x2: real, y1: real, y2: real)
    requires AllWithin(ls, x1, x2, y1, y2) && AllWithin(ms, x1, x2, y1, y2)
    ensures AllWithin(ls + ms, x1, x2, y1, y2)
  {
    forall k | 0 <= k < |ls + ms|
      ensures (ls + ms)[k].Leaf? && x1 <= (ls + ms)[k].x1 && (ls + ms)[k].x2 <= x2 && y1 <= (ls + ms)[k].y1 && (ls + ms)[k].y2 <= y2
    {
      if k >= |ls| {
        assert (ls + ms)[k] == ms[k - |ls|];
      }
    }
  }

  lemma AllWithinWiden(ls: seq<QNode>, x1: real, x2: real, y1: real, y2: real, u1: real, u2: real, v1: real, v2: real)
    requires AllWithin(ls, x1, x2, y1, y2) && u1 <= x1 && x2 <= u2 && v1 <= y1 && y2 <= v2
    ensures AllWithin(ls, u1, u2, v1, v2)
  {}

  lemma CoversJoin(ls: seq<QNode>, ms: seq<QNode>, qx: real, qy: real)
    requires Covers(ls, qx, qy) || Covers(ms, qx, qy)
    ensures Covers(ls + ms, qx, qy)
  {
    if Covers(ls, qx, qy) {
      var k :| 0 <= k < |ls| && InLeaf(qx, qy, ls[k]);
      assert (ls + ms)[k] == ls[k];
    } else {
      var k :| 0 <= k < |ms| && InLeaf(qx, qy, ms[k]);
      assert (ls + ms)[|ls| + k] == ms[k];
    }
  }

  /** The leaves of the tree built for a box tile it: every leaf box lies inside the
      box, and every point of the box lies in some leaf. */
  lemma {:induction false} WorkerTiles(sites: seq<Site>, x1: real, x2: real, y1: real, y2: real, depth: int, maxDepth: int, qx: real, qy: real)
    requires ValidSites(sites) && depth <= maxDepth
    requires x1 <= x2 && y1 <= y2
    ensures AllWithin(Leaves(WorkerSpec(sites, x1, x2, y1, y2, depth, maxDepth)), x1, x2, y1, y2)
    ensures InBox(qx, qy, x1, x2, y1, y2) ==> Covers(Leaves(WorkerSpec(sites, x1, x2, y1, y2, depth, maxDepth)), qx, qy)
    decreases maxDepth - depth
  {
    var t := WorkerSpec(sites, x1, x2, y1, y2, depth, maxDepth);
    if CornersAgree(sites, x1, x2, y1, y2) || depth == maxDepth {
      assert Leaves(t) == [t];
      assert InBox(qx, qy, x1, x2, y1, y2) ==> InLeaf(qx, qy, Leaves(t)[0]);
    } else {
      var xm, ym := Mid(x1, x2), Mid(y1, y2);
      QuadrantsTile(x1, x2, y1, y2, qx, qy);
      var la := Leaves(WorkerSpec(sites, xm, x2, y1, ym, depth + 1, maxDepth));
      var lb := Leaves(WorkerSpec(sites, x1, xm, y1, ym, depth + 1, maxDepth));
      var lc := Leaves(WorkerSpec(sites, x1, xm, ym, y2, depth + 1, maxDepth));
      var ld := Leaves(WorkerSpec(sites, xm, x2, ym, y2, depth + 1, maxDepth));
      assert Leaves(t) == la + lb + lc + ld;
      WorkerTiles(sites, xm, x2, y1, ym, depth + 1, maxDepth, qx, qy);
      WorkerTiles(sites, x1, xm, y1, ym, depth + 1, maxDepth, qx, qy);
      WorkerTiles(sites, x1, xm, ym, y2, depth + 1, maxDepth, qx, qy);
      WorkerTiles(sites, xm, x2, ym, y2, depth + 1, maxDepth, qx, qy);
      AllWithinWiden(la, xm, x2, y1, ym, x1, x2, y1, y2);
      AllWithinWiden(lb, x1, xm, y1, ym, x1, x2, y1, y2);
      AllWithinWiden(lc, x1, xm, ym, y2, x1, x2, y1, y2);
      AllWithinWiden(ld, xm, x2, ym, y2, x1, x2, y1, y2);
      AllWithinJoin(la, lb, x1, x2, y1, y2);
      AllWithinJoin(la + lb, lc, x1, x2, y1, y2);
      AllWithinJoin(la + lb + lc, ld, x1, x2, y1, y2);
      if InBox(qx, qy, x1, x2, y1, y2) {
        if Covers(la, qx, qy) || Covers(lb, qx, qy) {
          CoversJoin(la, lb, qx, qy);
          CoversJoin(la + lb, lc, qx, qy);
        } else if Covers(lc, qx, qy) {
          CoversJoin(la + lb, lc, qx, qy);
        }
        CoversJoin(la + lb + lc, ld, qx, qy);
      }
    }
  }

  // ----- The builder -----

  /** All x (respectively y) coordinates of all sites, in loop order. */
  function AllXs(sites: seq<Site>): (xs: seq<real>)
  {
    if sites == [] then [] else AllXs(sites[..|sites| - 1]) + sites[|sites| - 1].xs
  }

  function AllYs(sites: seq<Site>): (ys: seq<real>)
  {
    if sites == [] then [] else AllYs(sites[..|sites| - 1]) + sites[|sites| - 1].ys
  }

  /** The running `if (v < lo) lo = v` over vs, from init. */
  function MinFrom(init: real, vs: seq<real>): (m: real)
  {
    if vs == [] then init
    else
      var lo := MinFrom(init, vs[..|vs| - 1]);
      if vs[|vs| - 1] < lo then vs[|vs| - 1] else lo
  }

  /** The running `if (v > hi) hi = v` over vs, from init. */
  function MaxFrom(init: real, vs: seq<real>): (m: real)
  {
    if vs == [] then init
    else
      var hi := MaxFrom(init, vs[..|vs| - 1]);
      if vs[|vs| - 1] > hi then vs[|vs| - 1] else hi
  }

  lemma {:induction false} MinMaxFromBound(init: real, vs: seq<real>)
    ensures MinFrom(init, vs) <= init && MaxFrom(init, vs) >= init
    ensures forall k :: 0 <= k < |vs| ==> MinFrom(init, vs) <= vs[k] <= MaxFrom(init, vs)
    ensures MinFrom(init, vs) == init || exists k :: 0 <= k < |vs| && MinFrom(init, vs) == vs[k]
    ensures MaxFrom(init, vs) == init || exists k :: 0 <= k < |vs| && MaxFrom(init, vs) == vs[k]
  {
    if vs != [] {
      var front := vs[..|vs| - 1];
      MinMaxFromBound(init, front);
      assert forall k :: 0 <= k < |front| ==> vs[k] == front[k];
    }
  }

  /** Folding over a concatenation folds over the second part from the result of
      the first. */
  lemma {:induction false} FoldAppend(init: real, vs: seq<real>, ws: seq<real>)
    ensures MinFrom(init, vs + ws) == MinFrom(MinFrom(init, vs), ws)
    ensures MaxFrom(init, vs + ws) == MaxFrom(MaxFrom(init, vs), ws)
  {
    if ws == [] {
      assert vs + ws == vs;
    } else {
      var front := ws[..|ws| - 1];
      assert (vs + ws)[..|vs + ws| - 1] == vs + front;
      assert (vs + ws)[|vs + ws| - 1] == ws[|ws| - 1];
      FoldAppend(init, vs, front);
    }
  }

  /** The inner loop of the builder: widen the bounds by the vertices of one site. */
  method ExtendBounds(s: Site, x1: real, x2: real, y1: real, y2: real)
    returns (lx: real, hx: real, ly: real, hy: real)
    requires WellFormed(s.xs, s.ys)
    ensures lx == MinFrom(x1, s.xs) && hx == MaxFrom(x2, s.xs)
    ensures ly == MinFrom(y1, s.ys) && hy == MaxFrom(y2, s.ys)
  {
    lx, hx, ly, hy := x1, x2, y1, y2;
    var j := 0;
    while j < |s.xs|
      invariant 0 <= j <= |s.xs|
      invariant lx == MinFrom(x1, s.xs[..j]) && hx == MaxFrom(x2, s.xs[..j])
      invariant ly == MinFrom(y1, s.ys[..j]) && hy == MaxFrom(y2, s.ys[..j])
    {
      assert s.xs[..j + 1][..j] == s.xs[..j];
      assert s.ys[..j + 1][..j] == s.ys[..j];
      if s.xs[j] < lx { lx := s.xs[j]; }
      if s.xs[j] > hx { hx := s.xs[j]; }
      if s.ys[j] < ly { ly := s.ys[j]; }
      if s.ys[j] > hy { hy := s.ys[j]; }
      j := j + 1;
    }
    assert s.xs[..j] == s.xs && s.ys[..j] == s.ys;
  }

  lemma {:induction false} AllXsMembers(sites: seq<Site>, i: nat, j: nat)
    requires i < |sites| && j < |sites[i].xs|
    ensures exists k :: 0 <= k < |AllXs(sites)| && AllXs(sites)[k] == sites[i].xs[j]
  {
    var front := sites[..|sites| - 1];
    if i == |sites| - 1 {
      assert AllXs(sites)[|AllXs(front)| + j] == sites[i].xs[j];
    } else {
      AllXsMembers(front, i, j);
      var k :| 0 <= k < |AllXs(front)| && AllXs(front)[k] == front[i].xs[j];
      assert AllXs(sites)[k] == sites[i].xs[j];
    }
  }

  lemma {:induction false} AllYsMembers(sites: seq<Site>, i: nat, j: nat)
    requires i < |sites| && j < |sites[i].ys|
    ensures exists k :: 0 <= k < |AllYs(sites)| && AllYs(sites)[k] == sites[i].ys[j]
  {
    var front := sites[..|sites| - 1];
    if i == |sites| - 1 {
      assert AllYs(sites)[|AllYs(front)| + j] == sites[i].ys[j];
    } else {
      AllYsMembers(front, i, j);
      var k :| 0 <= k < |AllYs(front)| && AllYs(front)[k] == front[i].ys[j];
      assert AllYs(sites)[k] == sites[i].ys[j];
    }
  }

  /** The box the builder starts from: the running minima and maxima over all
      vertices, from vertex 0 of site 0. */
  datatype Box = Box(x1: real, x2: real, y1: real, y2: real)

  function Bounds(sites: seq<Site>): (b: Box)
    requires |sites| > 0 && |sites[0].xs| >= 1 && |sites[0].ys| >= 1
  {
    var x0, y0 := sites[0].xs[0], sites[0].ys[0];
    Box(MinFrom(x0, AllXs(sites)), MaxFrom(x0, AllXs(sites)),
        MinFrom(y0, AllYs(sites)), MaxFrom(y0, AllYs(sites)))
  }

  /** The root box contains every vertex of every site. */
  lemma BoundsContainVertices(sites: seq<Site>, i: nat, j: nat)
    requires |sites| > 0 && |sites[0].xs| >= 1 && |sites[0].ys| >= 1
    requires i < |sites| && j < |sites[i].xs| && j < |sites[i].ys|
    ensures var b := Bounds(sites);
      b.x1 <= sites[i].xs[j] <= b.x2 && b.y1 <= sites[i].ys[j] <= b.y2
  {
    var x0, y0 := sites[0].xs[0], sites[0].ys[0];
    MinMaxFromBound(x0, AllXs(sites));
    MinMaxFromBound(y0, AllYs(sites));
    AllXsMembers(sites, i, j);
    AllYsMembers(sites, i, j);
  }

  /** The root box is tight: each bound is a coordinate of some vertex. */
  lemma BoundsAttained(sites: seq<Site>)
    requires |sites| > 0 && |sites[0].xs| >= 1 && |sites[0].ys| >= 1
    ensures var b := Bounds(sites); var xs, ys := AllXs(sites), AllYs(sites);
      (exists k :: 0 <= k < |xs| && xs[k] == b.x1) && (exists k :: 0 <= k < |xs| && xs[k] == b.x2) &&
      (exists k :: 0 <= k < |ys| && ys[k] == b.y1) && (exists k :: 0 <= k < |ys| && ys[k] == b.y2)
    ensures Bounds(sites).x1 <= Bounds(sites).x2 && Bounds(sites).y1 <= Bounds(sites).y2
  {
    var x0, y0 := sites[0].xs[0], sites[0].ys[0];
    MinMaxFromBound(x0, AllXs(sites));
    MinMaxFromBound(y0, AllYs(sites));
    AllXsMembers(sites, 0, 0);
    AllYsMembers(sites, 0, 0);
  }

  /** `build_voronoi_quadtree`: no tree for no sites, otherwise the worker on the
      bounding box of all vertices, from depth 0. */
  method Build(sites: seq<Site>, maxDepth: int) returns (root: Option<QNode>)
    requires ValidSites(sites) && maxDepth >= 0
    requires |sites| > 0 ==> |sites[0].xs| >= 1
    ensures |sites| == 0 ==> root == None
    ensures |sites| > 0 ==> var b := Bounds(sites);
      root == Some(WorkerSpec(sites, b.x1, b.x2, b.y1, b.y2, 0, maxDepth))
  {
    if |sites| == 0 {
      return None;
    }
    var x1, x2, y1, y2 := sites[0].xs[0], sites[0].xs[0], sites[0].ys[0], sites[0].ys[0];
    ghost var x0, y0 := x1, y1;
    var i := 0;
    while i < |sites|
      invariant 0 <= i <= |sites|
      invariant x1 == MinFrom(x0, AllXs(sites[..i])) && x2 == MaxFrom(x0, AllXs(sites[..i]))
      invariant y1 == MinFrom(y0, AllYs(sites[..i])) && y2 == MaxFrom(y0, AllYs(sites[..i]))
    {
      assert ValidSite(sites[i]);
      assert sites[..i + 1][..i] == sites[..i];
      FoldAppend(x0, AllXs(sites[..i]), sites[i].xs);
      FoldAppend(y0, AllYs(sites[..i]), sites[i].ys);
      x1, x2, y1, y2 := ExtendBounds(sites[i], x1, x2, y1, y2);
      i := i + 1;
    }
    assert sites[..i] == sites;
    var node := Worker(x1, x2, y1, y2, sites, 0, maxDepth);
    root := Some(node);
  }
}
