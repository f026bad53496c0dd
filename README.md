# Voronoi quadtree, modelled in Dafny

The repository approximates a Voronoi diagram by adaptive subdivision. A box is
checked at its corners. If every corner has the same closest site, the box becomes a
leaf labelled with that site. Otherwise the box is split and each part is handled the
same way, down to a maximum depth.

This project models:

- the distance metrics of point, polyline and polygon sites, each with the clamped
  squared distance from a point to a segment;
- `closest_site`, a first-minimum scan with strict `<`;
- the two-dimensional C builder (`src/voronoi_quadtree.c`): the worker over boxes
  `x1, x2, y1, y2` with quadrants ne, nw, sw, se, and the builder that computes the
  root box from all site vertices;
- the generic C++ builder (`include/voronoi_quadtree.h`): a `dim`-dimensional cube
  given by centre and radius; corner `i` comes from the bits of `i`, the corner loop
  stops at the first disagreement, and `delete_worker` frees the tree;
- the example drivers' metrics and root squares:
  - the render-tree sites (`examples/render-tree/site.h`);
  - the shapefile metric (`examples/shapefile/shapefile.cpp`);
  - the points metric and bounds loop (`examples/points/main.cpp`).

Modelling conventions:

- Coordinates are `real`.
- The sentinel `DBL_MAX` / `numeric_limits<double>::max()` that starts every
  running minimum is `None` of an `Option<real>`. `MinScan.Below` models the
  comparison `d < distance`: a number is always below `None`, and `None` is never
  below anything.
- Each loop of the source is a `method` with a `while` loop. Most methods are proved
  equal to a specification function (`RunningMin`, `Scan`, `WorkerSpec`, ...), and
  the properties the source intends are lemmas about those functions. The others
  (`Points.Bounds`, `Points.RootSquare`, `ShapeFile.Site.SetObj`) state their
  result or new state directly.

Modules, one file each:

| file | module | models |
|---|---|---|
| `wrappers.dfy` | `Wrappers` | the `Option` type |
| `geometry.dfy` | `Geometry` | squared distance; the enclosing square of the drivers |
| `segment.dfy` | `Segment` | `pt_distance_to_line` |
| `minscan.dfy` | `MinScan` | running minimum and first arg-min |
| `polyline.dfy` | `Polyline` | vertex-list metrics |
| `cquadtree.dfy` | `CQuadtree` | the C library |
| `orthant.dfy` | `Orthant` | bit-pattern corners and children |
| `cppquadtree.dfy` | `CppQuadtree` | the C++ builder and its class |
| `site.dfy` | `RenderSite` | render-tree sites |
| `shapefile.dfy` | `ShapeFile` | shapefile metric |
| `points.dfy` | `Points` | points example |
| `compare.dfy` | `Compare` | the two builders side by side |

Three behaviours of the code shape the model:

- **Label of a max-depth leaf.** The C worker labels a max-depth leaf by the site
  closest to corner `(x1, y1)`. The C++ worker uses the site closest to the centre
  (`Compare.MaxDepthLabelsDiffer`).
- **No input checks.** Neither builder rejects a negative `max_depth` or a line site
  with fewer than two vertices. A negative `max_depth` removes the depth limit, so
  the recursion ends only where the corners agree. On the point sites (0, 0) and
  (10, 0) it never ends (`CQuadtree.NegativeDepthFromRoot`, see Findings). A
  one-vertex line site is read past the end of its arrays. The model requires
  `max_depth >= 0` and gives a line with fewer than two vertices no distance.
- **Number of children.** The generic builder allocates `2 * dim` children per node,
  which is `2^dim` only for dim 1 and 2. The class stores `2 * dim`. The
  specification function takes the child count as a parameter, so both counts can be
  studied.

## Model

| member | source | states |
|---|---|---|
| Segment.Clamp01 | src/voronoi_quadtree.c:55-56 | the clamped parameter lies in [0, 1]; it is unchanged inside, 1 above and 0 below |
| Segment.IsSegmentDistance | src/voronoi_quadtree.c:41-62 | the result is non-negative, at most the squared distance to every point a + s(b - a), s in [0, 1], and equal to one of them; `LineSite::pt_distance_to_line` (examples/render-tree/site.h:61-82) and the shapefile copy (examples/shapefile/shapefile.cpp:52-73) are the same routine |
| Segment.Minimal | src/voronoi_quadtree.c:54-61 | the clamped projection is no farther than any point of the segment |
| Segment.Attained | src/voronoi_quadtree.c:54-61 | the result is the squared distance to an actual point of the segment |
| Segment.Degenerate | src/voronoi_quadtree.c:49-52 | the denominator is zero exactly when a = b, and then the result is the squared distance to a |
| Segment.EndpointBounds | src/voronoi_quadtree.c:54-61 | the result is at most the squared distance to either endpoint, and zero at an endpoint |
| Segment.Reverse | src/voronoi_quadtree.c:41-62 | the result is the same with the two endpoints swapped |
| Segment.OnSegmentZero | src/voronoi_quadtree.c:41-62 | a query point a + s(b - a) with s in [0, 1] is at distance zero |
| Segment.ZeroOnSegment | src/voronoi_quadtree.c:41-62 | distance zero means the query point is a + s(b - a) for some s in [0, 1] |
| MinScan.RunningMinIsMin | src/voronoi_quadtree.c:66-75 | the running minimum with the sentinel start is "none" exactly on no candidates, and otherwise the least candidate |
| MinScan.RunningMinAppend | src/voronoi_quadtree.c:80-95 | the minimum over a concatenation is the smaller of the two minima, the first on a tie |
| MinScan.ScanIsFirstArgMin | src/voronoi_quadtree.c:98-112 | the scan returns -1 exactly when no site has a distance; otherwise the lowest index of the least distance, with that distance |
| MinScan.FirstArgMinUnique | src/voronoi_quadtree.c:105-108 | with strict `<` the first minimum is unique, so the answer is determined |
| MinScan.ScanOne | src/voronoi_quadtree.c:98-112 | over one site the scan picks that site exactly when it has a distance, and -1 otherwise |
| Polyline.PointDistProperties | src/voronoi_quadtree.c:36-39 | the point metric is non-negative and zero exactly at vertex 0 |
| Polyline.LineDistIsPolylineDistance | src/voronoi_quadtree.c:64-76 | the intended polyline metric has a value exactly when there are two or more vertices, and it is the least distance to a point of some segment (i, i + 1), attained on one |
| Polyline.LineDistZeroAtVertex | src/voronoi_quadtree.c:64-76 | the polyline metric is zero at every vertex |
| Polyline.PolyDistIsBoundaryDistance | src/voronoi_quadtree.c:78-96 | the polygon metric has a value exactly when there is a vertex, and it is the least distance to a point of one of the n edges, closing edge included |
| Polyline.PolyDistZeroAtVertex | examples/render-tree/site.h:102-120 | the polygon metric is zero at every vertex, since each vertex starts an edge |
| Polyline.PolyDistIsClosedLine | src/voronoi_quadtree.c:84-88 | the polygon metric equals the polyline metric of the vertices with vertex 0 appended |
| Polyline.Next | src/voronoi_quadtree.c:84-88 | the end vertex of an edge is an index below n, so the polygon loop reads only in-bounds vertices |
| Polyline.PastEndAddsPhantomSegment | src/voronoi_quadtree.c:67-68 | the loop as written yields the intended minimum combined with one phantom segment from vertex n - 1 to whatever lies past the end |
| Polyline.PastEndChangesResult | src/voronoi_quadtree.c:67-68 | on a one-vertex line the loop as written can report distance 0 where the intended metric has none |
| CQuadtree.LineEuclideanMetric | src/voronoi_quadtree.c:64-76 | the loop over the n - 1 segments computes the polyline metric |
| CQuadtree.PolyEuclideanMetric | src/voronoi_quadtree.c:78-96 | the loop over n edges, the last one closing to vertex 0, computes the polygon metric |
| CQuadtree.CallMetric | src/voronoi_quadtree.c:104 | the call through the site's metric pointer yields that site's metric |
| CQuadtree.ClosestIsFirstArgMin | src/voronoi_quadtree.c:98-112 | `closest_site` is -1 exactly when no site has a distance (always when n == 0), and otherwise the lowest index of the smallest metric |
| CQuadtree.ClosestSite | src/voronoi_quadtree.c:98-112 | the loop returns that closest site |
| CQuadtree.Worker | src/voronoi_quadtree.c:114-146 | the worker builds the tree `WorkerSpec`: four corners, a leaf for agreeing corners or max depth labelled cp1, otherwise ne, nw, sw, se |
| CQuadtree.WorkerShallow | src/voronoi_quadtree.c:123 | no leaf of the tree lies deeper than `max_depth` |
| CQuadtree.WorkerHeight | src/voronoi_quadtree.c:123 | the tree built at `depth` is at most `max_depth - depth` levels high |
| CQuadtree.WorkerLeafCount | src/voronoi_quadtree.c:138-141 | the tree built at `depth` has at most 4^(max_depth - depth) leaves |
| CQuadtree.SiteMetricDefined | src/voronoi_quadtree.c:36-96 | whether a site has a distance depends only on its metric and vertex count, not on the query point |
| CQuadtree.SingleSiteOneLeaf | src/voronoi_quadtree.c:114-146 | with one site the worker returns a single leaf at any max_depth, labelled 0, or -1 when the site has no distance |
| CQuadtree.WorkerLeavesSound | src/voronoi_quadtree.c:123-131 | every leaf is labelled with the site closest to its corner (x1, y1), and its four corners agree unless it is at max depth |
| CQuadtree.QuadrantsTile | src/voronoi_quadtree.c:135-141 | xmid and ymid lie between the bounds; the four quadrants cover the box and overlap only on the split lines |
| CQuadtree.WorkerTiles | src/voronoi_quadtree.c:114-146 | every leaf box lies inside the box of the call, and every point of that box lies in some leaf |
| CQuadtree.WorkerFuelAgrees | src/voronoi_quadtree.c:114-146 | with depth <= max_depth, the worker as written returns within max_depth - depth + 1 nested calls, with the tree `WorkerSpec` |
| CQuadtree.TwoPointsOnAxis | src/voronoi_quadtree.c:98-112 | for sites (0, 0) and (10, 0) the point (x, 0) is closest to site 0 up to x = 5, where the tie goes to the lower index, and to site 1 beyond |
| CQuadtree.NegativeDepthDiverges | src/voronoi_quadtree.c:123 | with max_depth = -1 the worker on the box from (5, 0) to (x2, 0), x2 > 5, whose left edge is the bisector x = 5, never returns, however many nested calls are allowed |
| CQuadtree.NegativeDepthFromRoot | src/voronoi_quadtree.c:123 | with max_depth = -1 the worker on the root box of the sites (0, 0) and (10, 0) never returns: the root splits and its ne quadrant from (5, 0) to (10, 0) does not return |
| CQuadtree.BoundsOfTwoPoints | src/voronoi_quadtree.c:153-161 | the root box the builder computes for the sites (0, 0) and (10, 0) runs from (0, 0) to (10, 0) |
| CQuadtree.FoldTwo | src/voronoi_quadtree.c:155-160 | started from the first of two ordered coordinates, the widening loop ends with the first as minimum and the second as maximum |
| CQuadtree.ExtendBounds | src/voronoi_quadtree.c:155-160 | the inner loop widens the bounds to the running minima and maxima over one site's vertices |
| CQuadtree.BoundsContainVertices | src/voronoi_quadtree.c:153-161 | every vertex of every site lies inside the root box |
| CQuadtree.BoundsAttained | src/voronoi_quadtree.c:153-161 | the root box is tight: each bound is a vertex coordinate, and x1 <= x2, y1 <= y2 |
| CQuadtree.Build | src/voronoi_quadtree.c:148-165 | no tree for no sites; otherwise the worker's tree for the bounding box of all vertices, from depth 0 |
| Orthant.ChildInsideParent | include/voronoi_quadtree.h:132-140 | a child cube, with half the radius and centre moved by radius / 2 per axis by the bits of i, lies inside its parent |
| Orthant.ChildrenCover | include/voronoi_quadtree.h:133-140 | with 2^dim children every point of the parent lies in some child |
| Orthant.ChildrenOverlapOnFaces | include/voronoi_quadtree.h:133-140 | with 2^dim children, a point in two different children lies on a splitting hyperplane through the centre, so the children meet only on faces |
| Orthant.OffsetsDistinct | include/voronoi_quadtree.h:95-102 | distinct indices below 2^dim give distinct corners when the radius is positive |
| Orthant.NnodesIsPow2Iff | include/voronoi_quadtree.h:52 | 2 * dim equals 2^dim exactly when dim is 1 or 2 |
| Orthant.ChildrenMissOrthant | include/voronoi_quadtree.h:52 | for dim >= 3 the centre of the all-bits-set orthant lies in the parent but in none of the 2 * dim children |
| CppQuadtree.ClosestToIsFirstArgMin | include/voronoi_quadtree.h:68-82 | `closest_site` is null exactly when no site has a distance and otherwise the first site of least distance; when every site has a distance it is null exactly when n == 0 |
| CppQuadtree.NoBreakIff | include/voronoi_quadtree.h:95-112 | the corner loop runs to its end exactly when, once a corner has a site, every later corner has the same one |
| CppQuadtree.LeafIffCornersAgree | include/voronoi_quadtree.h:94-126 | below max depth, with every corner's site defined, the node is a leaf exactly when all corners share a site, which is then its label; the early break does not change this |
| CppQuadtree.NodeShape | include/voronoi_quadtree.h:113-143 | at max depth the node is a leaf for the centre's closest site; an internal node has nnodes children, child i centred at mid[d] +- radius / 2 by bit d of i, with radius / 2 |
| CppQuadtree.WorkerWellFormed | include/voronoi_quadtree.h:117-143 | every leaf stores a centre of dim coordinates and every internal node has exactly nnodes children |
| CppQuadtree.WorkerHeight | include/voronoi_quadtree.h:94 | the tree built at `depth` is at most `max_depth - depth` levels high |
| CppQuadtree.WorkerLeafCount | include/voronoi_quadtree.h:142 | the tree has at most nnodes^(max_depth - depth) leaves, and a single leaf when nnodes == 0 |
| CppQuadtree.SingleSiteOneLeaf | include/voronoi_quadtree.h:113-143 | with one site whose metric is defined everywhere the worker returns a single leaf at any max_depth, labelled with that site unless nnodes == 0 below max depth |
| CppQuadtree.WorkerTiled | include/voronoi_quadtree.h:117-143 | each node of the tree carries the cube of its position: a leaf stores it, and child i of an internal node has centre Offset(mid, radius / 2, i) and radius / 2 |
| CppQuadtree.LeafInsideCube | include/voronoi_quadtree.h:128-143 | every leaf cube lies inside the root cube |
| CppQuadtree.LeavesCoverCube | include/voronoi_quadtree.h:128-143 | with 2^dim children per node every point of the root cube lies in some leaf |
| CppQuadtree.LeavesMissOrthant | include/voronoi_quadtree.h:52 | with the 2 * dim children of the constructor and dim >= 3, an internal root leaves a point of its cube outside every leaf |
| CppQuadtree.DeleteOrderShape | include/voronoi_quadtree.h:152-161 | `delete_worker` frees each node once, as a path into the tree, the node itself last and no node before one of its descendants |
| CppQuadtree.DeleteOrderComplete | include/voronoi_quadtree.h:152-161 | every node of the tree is freed |
| CppQuadtree.VoronoiQuadtree.constructor | include/voronoi_quadtree.h:49-56 | stores the parameters, 2 * dim children per node, and the root built from depth 0 |
| CppQuadtree.VoronoiQuadtree.ClosestSite | include/voronoi_quadtree.h:68-82 | the loop returns the first site of least metric, or null |
| CppQuadtree.VoronoiQuadtree.FillOffset | include/voronoi_quadtree.h:96-102 | writes corner i: coordinate d is mid[d] + r when bit d of i is set, else mid[d] - r |
| CppQuadtree.VoronoiQuadtree.CornerTest | include/voronoi_quadtree.h:94-112 | the loop with its early break reports whether the corners agree in the sense of `NoBreak`, and then the last corner's site |
| CppQuadtree.VoronoiQuadtree.Worker | include/voronoi_quadtree.h:84-150 | the worker builds the tree `WorkerSpec` |
| CppQuadtree.VoronoiQuadtree.DeleteWorker | include/voronoi_quadtree.h:152-161 | the recursion frees the nodes in the order `DeleteOrder`, children before parent |
| RenderSite.Site.constructor | examples/render-tree/site.h:28-36 | a site over the given vertex arrays, count, id and kind |
| RenderSite.Site.PointDistanceTo | examples/render-tree/site.h:52-55 | the squared distance to vertex 0: non-negative and zero at that vertex |
| RenderSite.Site.LineDistanceTo | examples/render-tree/site.h:84-96 | the loop over the n - 1 segments computes the polyline metric |
| RenderSite.Site.PolygonDistanceTo | examples/render-tree/site.h:102-120 | the loop pairing vertex n - 1 with vertex 0 computes the polygon metric |
| RenderSite.Site.DistanceTo | examples/render-tree/site.h:46 | the virtual call yields the metric of the site's kind |
| ShapeFile.Site.constructor | examples/shapefile/shapefile.cpp:37-39 | a site starts with no object and id 0 |
| ShapeFile.Site.SetObj | examples/shapefile/shapefile.cpp:46-49 | replaces the object and nothing else |
| ShapeFile.ShpMetricDefined | examples/shapefile/shapefile.cpp:75-126 | the metric has a value exactly for a point, an arc of two or more vertices or a polygon of one or more; a missing object or other shape type gets none; every value is non-negative |
| ShapeFile.ArcDistance | examples/shapefile/shapefile.cpp:91-101 | the arc loop over the n - 1 segments computes the polyline metric |
| ShapeFile.PolygonDistance | examples/shapefile/shapefile.cpp:103-121 | the polygon loop, closing edge included, computes the polygon metric |
| ShapeFile.Metric | examples/shapefile/shapefile.cpp:75-126 | the switch gives the point, arc or polygon distance by shape type, and none otherwise |
| Geometry.SqDistProperties | src/voronoi_quadtree.c:36-39 | the squared distance is non-negative, symmetric and zero exactly on coinciding points |
| Geometry.EnclosingSquare | examples/shapefile/shapefile.cpp:259-263 | the centre is the midpoint of the bounds, the radius is one of the half-extents, and the square contains both bounds |
| Geometry.EnclosingSquareContains | examples/shapefile/shapefile.cpp:259-263 | every point of the bounds box lies inside the square, whose radius is non-negative |
| Points.PointMetricProperties | examples/points/main.cpp:46-50 | the metric is non-negative, symmetric, and zero exactly when the points coincide |
| Points.Bounds | examples/points/main.cpp:158-168 | after the loop every point lies between min and max on both axes, and each bound is a coordinate of some point |
| Points.TightBoundsUnique | examples/points/main.cpp:158-168 | the tight bounds of a point set are unique |
| Points.RootSquare | examples/points/main.cpp:158-174 | the square is the enclosing square of the tight bounds (midpoint, larger half-extent), so it has a non-negative radius and contains every point |
| Compare.PlaneLeavesCover | include/voronoi_quadtree.h:52 | in the plane the 2 * dim children are the four quadrants, so the leaves cover the root square |
| Compare.MaxDepthLabelsDiffer | src/voronoi_quadtree.c:123-131 | on the same two sites at max depth 0 the C builder labels its leaf by corner (x1, y1) and the C++ builder by the centre, with different results |

## Left out

- PostScript rendering (`render_point`, `render_line`, `render_poly`, `render_voronoi_quadtree`), `examples/render-tree/render_tree.c` and the drivers' `main` functions beyond the bounds and square code: output and driver I/O.
- shapelib calls (`SHPOpen`, `SHPGetInfo`, `SHPReadObject`, `SHPDestroyObject`): foreign file I/O. A shape object is a record of type, vertex count and coordinates. The shapefile bounds come from the file header, so `Geometry.EnclosingSquare` takes them as parameters.
- `read_points` and the random site colours of the points example: input parsing and display only.
- IEEE-754 doubles: rounding, overflow and the exact test `denom == 0.0` of real arithmetic.
- The sentinel as a value. A metric that returns exactly `DBL_MAX` (or larger) would never be picked in the source; in the model every number is below `None`.
- Memory management (`new`, `delete`, `malloc`, destructors). `delete_worker` is a method that logs the nodes it frees as paths into the tree.
- Pointers. A C++ site pointer is the index of the site; the null pointer is `None`. The null-child test in `delete_worker` is never taken on a tree the worker builds (`CppQuadtree.WorkerWellFormed`).
- The C library's metric function pointer is a tag naming one of the three metrics. The C++ metric is a total function passed to the configuration.
- RenderSite.Site.constructor: takes the arrays, count, id and kind at once. In the source the constructor sets only `n` to 0; a caller must assign `xs`, `ys`, `n` and `id` afterwards.
- The render-tree subclasses `PointSite`, `LineSite` and `PolygonSite` are one class with a kind tag. Their metrics read only `xs`, `ys` and `n`, and the methods have no `modifies` clause, so they change nothing.
- CppQuadtree.VoronoiQuadtree.Worker: a leaf here always stores the radius. In the source the leaf's radius is assigned inside the per-axis copy loop, so it stays unset when dim == 0.
- CppQuadtree.VoronoiQuadtree.FillOffset: reads bit d of i without the limit that `1 << d` has in C++ for d of 32 or more.
- CQuadtree.LineEuclideanMetric, RenderSite.Site.LineDistanceTo and ShapeFile.ArcDistance: model the n - 1 segments the loop is meant to visit, not the read one past the end of the arrays (see Findings).
- CQuadtree.ValidSite, ShapeFile.ValidObject and RenderSite.Site.PointDistanceTo: a point site or point shape must have at least one vertex. Every point metric reads vertex 0 (`xs[0]`, `padfX[0]`) without checking the count; a point with no vertex reads memory the model does not represent.
- CQuadtree.Build: requires max_depth >= 0, which the source does not check (see Findings). It also requires a first site with a vertex, which the source reads unconditionally.
- CppQuadtree.VoronoiQuadtree.constructor: requires max_depth >= 0 for the same reason, and a centre of dim coordinates.
- ShapeFile.Metric: requires a query point of two coordinates and coordinate arrays of nVertices entries, which the source assumes.

## Findings

| source | as written | input that shows it | evidently intended | confidence | as-written member | corrected member |
|---|---|---|---|---|---|---|
| src/voronoi_quadtree.c:67-68 | the loop runs `i < n` and reads vertex i + 1, so the last pass reads one past the end of `xs` and `ys` | a line site with the single vertex (0, 0), the value (5, 5) past the end, queried at (5, 5): distance 0 instead of `DBL_MAX` | the minimum over the n - 1 segments (i, i + 1) | not executed | Polyline.PastEndChangesResult | Polyline.LineDistIsPolylineDistance |
| examples/render-tree/site.h:87-88 | the same `i < n` loop in `LineSite::distance_to` | the same one-vertex line site | the minimum over the n - 1 segments | not executed | Polyline.PastEndAddsPhantomSegment | RenderSite.Site.LineDistanceTo |
| examples/shapefile/shapefile.cpp:92-95 | the same loop over `nVertices` in the `SHPT_ARC` branch | an arc with one vertex | the minimum over the nVertices - 1 segments | not executed | Polyline.PastEndAddsPhantomSegment | ShapeFile.ArcDistance |
| include/voronoi_quadtree.h:52 | `nnodes(2*dim)` children per node | dim = 3 with a root that splits: the centre of the all-bits-set orthant lies in no leaf | 2^dim children, one per orthant | not executed | CppQuadtree.LeavesMissOrthant | CppQuadtree.LeavesCoverCube |
| src/voronoi_quadtree.c:123 | the recursion stops only at `depth == max_depth` or on agreeing corners | build with max_depth = -1 on the point sites (0, 0) and (10, 0): the root box from (0, 0) to (10, 0) splits, its ne quadrant from (5, 0) to (10, 0) splits, and from there every nw child from (5, 0) to (x2, 0) splits again | a depth below 0 is rejected, or the test is `depth >= max_depth` | not executed | CQuadtree.NegativeDepthFromRoot | CQuadtree.WorkerFuelAgrees |
