/** The generic C++ builder: a `dim`-dimensional cube given by its centre and
    radius, an arbitrary site type and a metric supplied by the caller.

    The metric returns `None` where the caller's metric returns the largest double.
    A node is a leaf holding its centre, radius and site (the index of a site, or
    `None` for the null pointer), or an internal node holding its children. */
module CppQuadtree {
  import opened Wrappers
  import opened MinScan
  import opened Orthant

  datatype Node =
    | Leaf(mid: seq<real>, radius: real, site: Option<nat>)
    | Internal(nodes: seq<Node>)

  /** The fields the builder reads: dimension, child count, sites, depth limit and
      metric. */
  datatype Config<!S> = Config(dim: nat, nnodes: nat, sites: seq<S>, maxDepth: int,
                              metric: (S, seq<real>) -> Option<real>)

  // ----- closest_site -----

  function Values<S>(cfg: Config<S>, pt: seq<real>): (vs: seq<Option<real>>)
    ensures |vs| == |cfg.sites|
  {
    seq(|cfg.sites|, i requires 0 <= i < |cfg.sites| => cfg.metric(cfg.sites[i], pt))
  }

  /** An index of the loop as a site pointer: -1 is the null pointer. */
  function SiteOf(k: int): (s: Option<nat>)
  {
    if k < 0 then None else Some(k)
  }

  /** The site `closest_site(pt)` returns. */
  function ClosestTo<S>(cfg: Config<S>, pt: seq<real>): (s: Option<nat>)
  {
    SiteOf(Scan(Values(cfg, pt)).site)
  }

  /** The result is null exactly when no site has a distance, and otherwise the
      first site of least distance; when every site has a distance, it is null
      exactly when there are no sites. */
  lemma ClosestToIsFirstArgMin<S>(cfg: Config<S>, pt: seq<real>)
    ensures var vs := Values(cfg, pt);
      (ClosestTo(cfg, pt).None? <==> forall j :: 0 <= j < |vs| ==> vs[j].None?) &&
      (ClosestTo(cfg, pt).Some? ==> IsFirstArgMin(vs, ClosestTo(cfg, pt).value))
    ensures (forall j :: 0 <= j < |cfg.sites| ==> Values(cfg, pt)[j].Some?) ==>
      (ClosestTo(cfg, pt).None? <==> |cfg.sites| == 0)
  {
    var vs := Values(cfg, pt);
    ScanIsFirstArgMin(vs);
    if |cfg.sites| > 0 && forall j :: 0 <= j < |cfg.sites| ==> vs[j].Some? {
      assert vs[0].Some?;
    }
  }

  // ----- The corner test -----

  /** The sites closest to the corners, in the order the loop visits them. */
  function CornerSites<S>(cfg: Config<S>, mid: seq<real>, radius: real): (cs: seq<Option<nat>>)
    ensures |cs| == cfg.nnodes
  {
    seq(cfg.nnodes, i requires 0 <= i < cfg.nnodes => ClosestTo(cfg, Offset(mid, radius, i)))
  }

  /** The corner loop runs to the end without breaking: a corner only differs from
      the one before it when that one had no site. */
  predicate NoBreak(cs: seq<Option<nat>>)
  {
    forall i :: 1 <= i < |cs| ==> cs[i - 1].None? || cs[i] == cs[i - 1]
  }

  /** One more corner that does not break the loop. */
  lemma NoBreakExtend(cs: seq<Option<nat>>, i: nat)
    requires i < |cs| && NoBreak(cs[..i])
    requires i == 0 || cs[i - 1].None? || cs[i] == cs[i - 1]
    ensures NoBreak(cs[..i + 1])
  {
    var pre := cs[..i + 1];
    forall k | 1 <= k < i + 1 ensures pre[k - 1].None? || pre[k] == pre[k - 1] {
      if k < i {
        assert pre[k] == cs[..i][k] && pre[k - 1] == cs[..i][k - 1];
      }
    }
  }

  /** `closest` after a loop without a break: the last corner's site. */
  function LastSite(cs: seq<Option<nat>>): (s: Option<nat>)
  {
    if |cs| == 0 then None else cs[|cs| - 1]
  }

  /** The tree `worker(mid, radius, depth)` builds. */
  function WorkerSpec<S>(cfg: Config<S>, mid: seq<real>, radius: real, depth: int): (t: Node)
    requires depth <= cfg.maxDepth
    decreases cfg.maxDepth - depth
  {
    if depth == cfg.maxDepth then Leaf(mid, radius, ClosestTo(cfg, mid))
    else
      var cs := CornerSites(cfg, mid, radius);
      if NoBreak(cs) then Leaf(mid, radius, LastSite(cs))
      else
        Internal(seq(cfg.nnodes, i requires 0 <= i < cfg.nnodes =>
          WorkerSpec(cfg, Offset(mid, 0.5 * radius, i), 0.5 * radius, depth + 1)))
  }

  /** Once a corner has a site, every later corner has the same one. */
  lemma {:induction false} NoBreakIff(cs: seq<Option<nat>>)
    ensures NoBreak(cs) <==> forall i, j :: 0 <= i < j < |cs| && cs[i].Some? ==> cs[j] == cs[i]
  {
    if NoBreak(cs) && |cs| > 0 {
      var front := cs[..|cs| - 1];
      assert NoBreak(front) by {
        forall i | 1 <= i < |front| ensures front[i - 1].None? || front[i] == front[i - 1] {
          assert front[i] == cs[i] && front[i - 1] == cs[i - 1];
        }
      }
      NoBreakIff(front);
      forall i, j | 0 <= i < j < |cs| && cs[i].Some? ensures cs[j] == cs[i] {
        if j < |cs| - 1 {
          assert front[i] == cs[i] && front[j] == cs[j];
        } else if i < j - 1 {
          assert front[i] == cs[i] && front[j - 1] == cs[j - 1];
        }
      }
    }
  }

  /** Below max_depth, when every corner has a site, the node is a leaf exactly when
      all corners share the same site, and then that site is its label. */
  lemma LeafIffCornersAgree<S>(cfg: Config<S>, mid: seq<real>, radius: real, depth: int)
    requires depth < cfg.maxDepth
    requires forall i :: 0 <= i < cfg.nnodes ==> CornerSites(cfg, mid, radius)[i].Some?
    ensures var cs := CornerSites(cfg, mid, radius); var t := WorkerSpec(cfg, mid, radius, depth);
      (t.Leaf? <==> forall i, j :: 0 <= i < cfg.nnodes && 0 <= j < cfg.nnodes ==> cs[i] == cs[j]) &&
      (t.Leaf? ==> (t.mid == mid && t.radius == radius &&
                    forall i :: 0 <= i < cfg.nnodes ==> t.site == cs[i]))
  {
    var cs := CornerSites(cfg, mid, radius);
    NoBreakIff(cs);
    if NoBreak(cs) {
      forall i, j | 0 <= i < cfg.nnodes && 0 <= j < cfg.nnodes ensures cs[i] == cs[j] {
        if i < j { assert cs[j] == cs[i]; }
        else if j < i { assert cs[i] == cs[j]; }
      }
    }
  }

  /** At max_depth no corner is looked at: the node is a leaf for the centre's
      closest site. Below it, an internal node has `nnodes` children, child i of
      radius `radius / 2` centred at `mid[d] +- radius / 2` by bit d of i. */
  lemma NodeShape<S>(cfg: Config<S>, mid: seq<real>, radius: real, depth: int, i: nat, d: nat)
    requires depth <= cfg.maxDepth
    ensures depth == cfg.maxDepth ==> WorkerSpec(cfg, mid, radius, depth) == Leaf(mid, radius, ClosestTo(cfg, mid))
    ensures var t := WorkerSpec(cfg, mid, radius, depth);
      t.Internal? ==> (|t.nodes| == cfg.nnodes &&
                       (i < cfg.nnodes && d < |mid| ==>
                          (var c := Offset(mid, 0.5 * radius, i);
                           t.nodes[i] == WorkerSpec(cfg, c, 0.5 * radius, depth + 1) &&
                           c[d] == (if BitSet(i, d) then mid[d] + 0.5 * radius else mid[d] - 0.5 * radius))))
  {
  }

  /** With one site whose metric is defined everywhere, every corner has that
      site, so the worker returns a single leaf at any max_depth. It is labelled
      with the site unless the loop saw no corner (nnodes == 0 below max_depth). */
  lemma SingleSiteOneLeaf<S>(cfg: Config<S>, mid: seq<real>, radius: real, depth: int)
    requires |cfg.sites| == 1 && depth <= cfg.maxDepth
    requires forall pt :: cfg.metric(cfg.sites[0], pt).Some?
    ensures WorkerSpec(cfg, mid, radius, depth).Leaf?
    ensures depth == cfg.maxDepth || cfg.nnodes > 0 ==> WorkerSpec(cfg, mid, radius, depth).site == Some(0)
  {
    forall pt ensures ClosestTo(cfg, pt) == Some(0) {
      assert Values(cfg, pt)[0] == cfg.metric(cfg.sites[0], pt);
      ScanOne(Values(cfg, pt));
    }
    var cs := CornerSites(cfg, mid, radius);
    assert forall i :: 0 <= i < |cs| ==> cs[i] == Some(0);
  }

  // ----- Shape of the tree -----

  /** Leaves store `dim` coordinates; internal nodes have `nnodes` children. */
  predicate WellFormed<S>(cfg: Config<S>, t: Node)
  {
    match t
    case Leaf(mid, _, _) => |mid| == cfg.dim
    case Internal(ns) => |ns| == cfg.nnodes && forall i :: 0 <= i < |ns| ==> WellFormed(cfg, ns[i])
  }

  lemma {:induction false} WorkerWellFormed<S>(cfg: Config<S>, mid: seq<real>, radius: real, depth: int)
    requires depth <= cfg.maxDepth && |mid| == cfg.dim
    ensures WellFormed(cfg, WorkerSpec(cfg, mid, radius, depth))
    decreases cfg.maxDepth - depth
  {
    var t := WorkerSpec(cfg, mid, radius, depth);
    if t.Internal? {
      forall i | 0 <= i < cfg.nnodes ensures WellFormed(cfg, t.nodes[i]) {
        WorkerWellFormed(cfg, Offset(mid, 0.5 * radius, i), 0.5 * radius, depth + 1);
      }
    }
  }

  predicate HeightAtMost(t: Node, h: int)
  {
    match t
    case Leaf(_, _, _) => h >= 0
    case Internal(ns) => h >= 1 && forall i :: 0 <= i < |ns| ==> HeightAtMost(ns[i], h - 1)
  }

  /** The recursion stops by max_depth: the tree built at `depth` is at most
      `max_depth - depth` levels high. */
  lemma {:induction false} WorkerHeight<S>(cfg: Config<S>, mid: seq<real>, radius: real, depth: int)
    requires depth <= cfg.maxDepth
    ensures HeightAtMost(WorkerSpec(cfg, mid, radius, depth), cfg.maxDepth - depth)
    decreases cfg.maxDepth - depth
  {
    var t := WorkerSpec(cfg, mid, radius, depth);
    if t.Internal? {
      forall i | 0 <= i < cfg.nnodes ensures HeightAtMost(t.nodes[i], cfg.maxDepth - depth - 1) {
        WorkerHeight(cfg, Offset(mid, 0.5 * radius, i), 0.5 * radius, depth + 1);
      }
    }
  }

  /** The leaves of the children from index `from` on, left to right. */
  function LeavesFrom(t: Node, from: nat): (ls: seq<Node>)
    decreases t, if t.Internal? && from < |t.nodes| then |t.nodes| - from else 0
  {
    match t
    case Leaf(_, _, _) => [t]
    case Internal(ns) =>
      if from >= |ns| then [] else LeavesFrom(ns[from], 0) + LeavesFrom(t, from + 1)
  }

  function Leaves(t: Node): (ls: seq<Node>)
  {
    LeavesFrom(t, 0)
  }

  /** A leaf of an internal node is a leaf of one of its children. */
  lemma {:induction false} LeavesFromMember(t: Node, from: nat, leaf: Node)
    requires t.Internal?
    ensures leaf in LeavesFrom(t, from) <==>
      exists i :: from <= i < |t.nodes| && leaf in Leaves(t.nodes[i])
    decreases if from < |t.nodes| then |t.nodes| - from else 0
  {
    if from < |t.nodes| {
      LeavesFromMember(t, from + 1, leaf);
    }
  }

  /** Every element of `Leaves` is a leaf. */
  lemma {:induction false} LeavesAreLeaves(t: Node, from: nat)
    ensures forall k :: 0 <= k < |LeavesFrom(t, from)| ==> LeavesFrom(t, from)[k].Leaf?
    decreases t, if t.Internal? && from < |t.nodes| then |t.nodes| - from else 0
  {
    if t.Internal? && from < |t.nodes| {
      LeavesAreLeaves(t.nodes[from], 0);
      LeavesAreLeaves(t, from + 1);
    }
  }

  function Pow(b: nat, e: nat): (p: nat)
    ensures b >= 1 ==> p >= 1
  {
    if e == 0 then 1 else b * Pow(b, e - 1)
  }

  lemma {:induction false} LeavesFromBound(t: Node, from: nat, bound: nat)
    requires t.Internal? && from <= |t.nodes|
    requires forall i :: from <= i < |t.nodes| ==> |Leaves(t.nodes[i])| <= bound
    ensures |LeavesFrom(t, from)| <= (|t.nodes| - from) * bound
    decreases |t.nodes| - from
  {
    if from < |t.nodes| {
      LeavesFromBound(t, from + 1, bound);
      assert (|t.nodes| - from) * bound == bound + (|t.nodes| - from - 1) * bound;
    }
  }

  /** A tree of height at most h whose internal nodes have n children each has at
      most n^h leaves. */
  lemma {:induction false} LeavesByHeight(t: Node, mid: seq<real>, radius: real, n: nat, h: int)
    requires n >= 1 && h >= 0 && HeightAtMost(t, h) && Tiled(t, mid, radius, n)
    ensures |Leaves(t)| <= Pow(n, h)
    decreases t
  {
    if t.Internal? {
      forall i | 0 <= i < |t.nodes| ensures |Leaves(t.nodes[i])| <= Pow(n, h - 1) {
        LeavesByHeight(t.nodes[i], Offset(mid, 0.5 * radius, i), 0.5 * radius, n, h - 1);
      }
      LeavesFromBound(t, 0, Pow(n, h - 1));
    }
  }

  /** The tree built at `depth` has at most nnodes^(max_depth - depth) leaves; with
      no children per node it is a single leaf. */
  lemma WorkerLeafCount<S>(cfg: Config<S>, mid: seq<real>, radius: real, depth: int)
    requires depth <= cfg.maxDepth
    ensures cfg.nnodes >= 1 ==> |Leaves(WorkerSpec(cfg, mid, radius, depth))| <= Pow(cfg.nnodes, cfg.maxDepth - depth)
    ensures cfg.nnodes == 0 ==> Leaves(WorkerSpec(cfg, mid, radius, depth)) == [WorkerSpec(cfg, mid, radius, depth)]
  {
    var t := WorkerSpec(cfg, mid, radius, depth);
    if cfg.nnodes >= 1 {
      WorkerHeight(cfg, mid, radius, depth);
      WorkerTiled(cfg, mid, radius, depth);
      LeavesByHeight(t, mid, radius, cfg.nnodes, cfg.maxDepth - depth);
    } else {
      assert t.Leaf?;
    }
  }

  // ----- Geometry of the leaves -----

  /** The cubes of `t` as the worker lays them out: a leaf stores the cube it was
      built for, and child i of an internal node is built for the cube of half the
      radius centred at Offset(mid, radius / 2, i); every internal node has n
      children. */
  predicate Tiled(t: Node, mid: seq<real>, radius: real, n: nat)
    decreases t
  {
    match t
    case Leaf(m, r, _) => m == mid && r == radius
    case Internal(ns) =>
      |ns| == n && forall i :: 0 <= i < |ns| ==> Tiled(ns[i], Offset(mid, 0.5 * radius, i), 0.5 * radius, n)
  }

  lemma {:induction false} WorkerTiled<S>(cfg: Config<S>, mid: seq<real>, radius: real, depth: int)
    requires depth <= cfg.maxDepth
    ensures Tiled(WorkerSpec(cfg, mid, radius, depth), mid, radius, cfg.nnodes)
    decreases cfg.maxDepth - depth
  {
    var t := WorkerSpec(cfg, mid, radius, depth);
    if t.Internal? {
      forall i | 0 <= i < cfg.nnodes ensures Tiled(t.nodes[i], Offset(mid, 0.5 * radius, i), 0.5 * radius, cfg.nnodes) {
        WorkerTiled(cfg, Offset(mid, 0.5 * radius, i), 0.5 * radius, depth + 1);
      }
    }
  }

  lemma {:induction false} TiledLeafInside(t: Node, mid: seq<real>, radius: real, n: nat, leaf: Node, q: seq<real>)
    requires Tiled(t, mid, radius, n) && radius >= 0.0
    requires leaf in Leaves(t) && leaf.Leaf? && InCube(q, leaf.mid, leaf.radius)
    ensures InCube(q, mid, radius)
    decreases t
  {
    if t.Internal? {
      LeavesFromMember(t, 0, leaf);
      var i :| 0 <= i < |t.nodes| && leaf in Leaves(t.nodes[i]);
      TiledLeafInside(t.nodes[i], Offset(mid, 0.5 * radius, i), 0.5 * radius, n, leaf, q);
      ChildInsideParent(mid, radius, i, q);
    } else {
      assert Leaves(t) == [t];
    }
  }

  lemma {:induction false} TiledCover(t: Node, mid: seq<real>, radius: real, q: seq<real>)
    requires Tiled(t, mid, radius, Pow2(|mid|)) && InCube(q, mid, radius)
    ensures exists leaf :: leaf in Leaves(t) && leaf.Leaf? && InCube(q, leaf.mid, leaf.radius)
    decreases t
  {
    if t.Leaf? {
      assert t in Leaves(t);
    } else {
      ChildrenCover(mid, radius, q);
      var i :| 0 <= i < Pow2(|mid|) && InChild(q, mid, radius, i);
      TiledCover(t.nodes[i], Offset(mid, 0.5 * radius, i), 0.5 * radius, q);
      var leaf :| leaf in Leaves(t.nodes[i]) && leaf.Leaf? && InCube(q, leaf.mid, leaf.radius);
      LeavesFromMember(t, 0, leaf);
    }
  }

  /** Every leaf cube of the tree built for a cube lies inside that cube. */
  lemma LeafInsideCube<S>(cfg: Config<S>, mid: seq<real>, radius: real, depth: int, leaf: Node, q: seq<real>)
    requires depth <= cfg.maxDepth && radius >= 0.0
    requires leaf in Leaves(WorkerSpec(cfg, mid, radius, depth))
    requires leaf.Leaf? && InCube(q, leaf.mid, leaf.radius)
    ensures InCube(q, mid, radius)
  {
    WorkerTiled(cfg, mid, radius, depth);
    TiledLeafInside(WorkerSpec(cfg, mid, radius, depth), mid, radius, cfg.nnodes, leaf, q);
  }

  /** With 2^dim children every point of the cube lies in some leaf cube. */
  lemma LeavesCoverCube<S>(cfg: Config<S>, mid: seq<real>, radius: real, depth: int, q: seq<real>)
    requires depth <= cfg.maxDepth && cfg.nnodes == Pow2(|mid|)
    requires InCube(q, mid, radius)
    ensures exists leaf :: leaf in Leaves(WorkerSpec(cfg, mid, radius, depth)) && leaf.Leaf? && InCube(q, leaf.mid, leaf.radius)
  {
    WorkerTiled(cfg, mid, radius, depth);
    TiledCover(WorkerSpec(cfg, mid, radius, depth), mid, radius, q);
  }

  /** A leaf of a split tree lies inside one of the children's cubes. */
  lemma TiledLeafInChild(t: Node, mid: seq<real>, radius: real, n: nat, leaf: Node, q: seq<real>)
    requires Tiled(t, mid, radius, n) && t.Internal? && radius >= 0.0
    requires leaf in Leaves(t) && leaf.Leaf? && InCube(q, leaf.mid, leaf.radius)
    ensures exists i :: 0 <= i < n && InChild(q, mid, radius, i)
  {
    LeavesFromMember(t, 0, leaf);
    var i :| 0 <= i < |t.nodes| && leaf in Leaves(t.nodes[i]);
    TiledLeafInside(t.nodes[i], Offset(mid, 0.5 * radius, i), 0.5 * radius, n, leaf, q);
    assert InChild(q, mid, radius, i);
  }

  /** With the 2 * dim children the builder uses, a split cube of dimension 3 or more
      has a point, the centre of its last orthant, that lies in no leaf cube. */
  lemma LeavesMissOrthant<S>(cfg: Config<S>, mid: seq<real>, radius: real, depth: int)
    requires depth <= cfg.maxDepth && |mid| >= 3 && radius > 0.0 && cfg.nnodes == 2 * |mid|
    requires WorkerSpec(cfg, mid, radius, depth).Internal?
    ensures var q := Offset(mid, 0.5 * radius, Pow2(|mid|) - 1);
      InCube(q, mid, radius) &&
      forall leaf :: leaf in Leaves(WorkerSpec(cfg, mid, radius, depth)) && leaf.Leaf? ==> !InCube(q, leaf.mid, leaf.radius)
  {
    var q := Offset(mid, 0.5 * radius, Pow2(|mid|) - 1);
    ChildrenMissOrthant(mid, radius);
    WorkerTiled(cfg, mid, radius, depth);
    forall leaf | leaf in Leaves(WorkerSpec(cfg, mid, radius, depth)) && leaf.Leaf?
      ensures !InCube(q, leaf.mid, leaf.radius)
    {
      if InCube(q, leaf.mid, leaf.radius) {
        TiledLeafInChild(WorkerSpec(cfg, mid, radius, depth), mid, radius, cfg.nnodes, leaf, q);
        assert false;
      }
    }
  }

  // ----- delete_worker -----

  /** A path of child indices from `t` to one of its nodes. */
  predicate IsPath(t: Node, p: seq<nat>)
    decreases |p|
  {
    p == [] || (t.Internal? && p[0] < |t.nodes| && IsPath(t.nodes[p[0]], p[1..]))
  }

  /** The nodes `delete_worker` frees, as paths from the root, in the order it frees
      them: the subtrees of children `from` on, and then the node itself. */
  function DeleteOrder(t: Node, path: seq<nat>, from: nat): (log: seq<seq<nat>>)
    decreases t, if t.Internal? && from < |t.nodes| then |t.nodes| - from else 0
  {
    match t
    case Leaf(_, _, _) => [path]
    case Internal(ns) =>
      if from >= |ns| then [path]
      else DeleteOrder(ns[from], path + [from], 0) + DeleteOrder(t, path, from + 1)
  }

  predicate NoDuplicates<T(==)>(s: seq<T>)
  {
    forall a, b :: 0 <= a < b < |s| ==> s[a] != s[b]
  }

  /** p is a proper prefix of r: r lies strictly below p. */
  predicate Below2(p: seq<nat>, r: seq<nat>)
  {
    |p| < |r| && r[..|p|] == p
  }

  /** Every entry of `log` extends `path` by a path of `t` whose first step, if any,
      is at least `from`. */
  predicate EntriesBelow(log: seq<seq<nat>>, t: Node, path: seq<nat>, from: nat)
  {
    forall k :: 0 <= k < |log| ==>
      |path| <= |log[k]| && log[k][..|path|] == path &&
      IsPath(t, log[k][|path|..]) && (|log[k]| == |path| || log[k][|path|] >= from)
  }

  /** An entry of the log of child `from` is an entry below `t` whose first step is
      `from`. */
  lemma ChildEntry(t: Node, path: seq<nat>, from: nat, r: seq<nat>)
    requires t.Internal? && from < |t.nodes|
    requires |path| + 1 <= |r| && r[..|path| + 1] == path + [from]
    requires IsPath(t.nodes[from], r[|path| + 1..])
    ensures |path| <= |r| && r[..|path|] == path && IsPath(t, r[|path|..]) &&
      |r| > |path| && r[|path|] == from
  {
    var cpath := path + [from];
    assert r[..|path|] == cpath[..|path|] == path;
    assert r[|path|] == cpath[|path|] == from;
    assert r[|path|..][1..] == r[|cpath|..];
  }

  lemma EntriesJoin(xs: seq<seq<nat>>, ys: seq<seq<nat>>, t: Node, path: seq<nat>, from: nat)
    requires EntriesBelow(ys, t, path, from + 1)
    requires forall k :: 0 <= k < |xs| ==>
      |path| <= |xs[k]| && xs[k][..|path|] == path && IsPath(t, xs[k][|path|..]) && |xs[k]| > |path| && xs[k][|path|] == from
    ensures EntriesBelow(xs + ys, t, path, from)
  {
    var log := xs + ys;
    forall k | 0 <= k < |log|
      ensures |path| <= |log[k]| && log[k][..|path|] == path &&
        IsPath(t, log[k][|path|..]) && (|log[k]| == |path| || log[k][|path|] >= from)
    {
      if k >= |xs| {
        assert log[k] == ys[k - |xs|];
      }
    }
  }

  /** Every entry extends `path` by a path of the tree, and the node itself comes
      last. */
  lemma {:induction false} DeleteOrderPaths(t: Node, path: seq<nat>, from: nat)
    ensures var log := DeleteOrder(t, path, from);
      |log| >= 1 && log[|log| - 1] == path && EntriesBelow(log, t, path, from)
    decreases t, if t.Internal? && from < |t.nodes| then |t.nodes| - from else 0
  {
    if t.Internal? && from < |t.nodes| {
      var xs := DeleteOrder(t.nodes[from], path + [from], 0);
      var ys := DeleteOrder(t, path, from + 1);
      DeleteOrderPaths(t.nodes[from], path + [from], 0);
      DeleteOrderPaths(t, path, from + 1);
      assert xs + ys == DeleteOrder(t, path, from);
      forall k | 0 <= k < |xs| ensures |xs[k]| > |path| && xs[k][|path|] == from {
        ChildEntry(t, path, from, xs[k]);
      }
      EntriesJoin(xs, ys, t, path, from);
    }
  }

  /** An entry under child `from` and an entry after it under a later child or the
      node itself: they differ, and the second is not below the first. */
  lemma CrossEntries(path: seq<nat>, from: nat, r: seq<nat>, u: seq<nat>)
    requires |path| < |r| && r[..|path|] == path && r[|path|] == from
    requires |path| <= |u| && u[..|path|] == path && (|u| == |path| || u[|path|] >= from + 1)
    ensures r != u && !Below2(r, u)
  {
    if |u| > |path| {
      assert r[|path|] != u[|path|];
    }
  }

  /** No node is freed twice, and none is freed before a node below it. */
  lemma {:induction false} DeleteOrderOrdered(t: Node, path: seq<nat>, from: nat)
    ensures var log := DeleteOrder(t, path, from);
      forall a, b :: 0 <= a < b < |log| ==> log[a] != log[b] && !Below2(log[a], log[b])
    decreases t, if t.Internal? && from < |t.nodes| then |t.nodes| - from else 0
  {
    if t.Internal? && from < |t.nodes| {
      var xs := DeleteOrder(t.nodes[from], path + [from], 0);
      var ys := DeleteOrder(t, path, from + 1);
      DeleteOrderOrdered(t.nodes[from], path + [from], 0);
      DeleteOrderOrdered(t, path, from + 1);
      DeleteOrderPaths(t.nodes[from], path + [from], 0);
      DeleteOrderPaths(t, path, from + 1);
      var log := xs + ys;
      assert log == DeleteOrder(t, path, from);
      forall a, b | 0 <= a < b < |log| ensures log[a] != log[b] && !Below2(log[a], log[b]) {
        if b < |xs| {
          assert log[a] == xs[a] && log[b] == xs[b];
        } else if a >= |xs| {
          assert log[a] == ys[a - |xs|] && log[b] == ys[b - |xs|];
        } else {
          ChildEntry(t, path, from, xs[a]);
          assert log[b] == ys[b - |xs|];
          CrossEntries(path, from, xs[a], ys[b - |xs|]);
        }
      }
    }
  }

  /** The shape of the deletion order: every entry extends `path` by a path of the
      tree whose first step is at least `from`, the node itself comes last, no node
      is freed twice, and no node is freed before a node below it. */
  lemma DeleteOrderShape(t: Node, path: seq<nat>, from: nat)
    ensures var log := DeleteOrder(t, path, from);
      |log| >= 1 && log[|log| - 1] == path &&
      EntriesBelow(log, t, path, from) &&
      NoDuplicates(log) &&
      (forall a, b :: 0 <= a < b < |log| ==> !Below2(log[a], log[b]))
  {
    DeleteOrderPaths(t, path, from);
    DeleteOrderOrdered(t, path, from);
  }

  /** Every node of the tree is freed: each path of `t` whose first step is at
      least `from` appears in the order. */
  lemma {:induction false} DeleteOrderComplete(t: Node, path: seq<nat>, from: nat, p: seq<nat>)
    requires IsPath(t, p) && (p == [] || p[0] >= from)
    ensures path + p in DeleteOrder(t, path, from)
    decreases t, if t.Internal? && from < |t.nodes| then |t.nodes| - from else 0
  {
    if p == [] {
      DeleteOrderShape(t, path, from);
      assert path + p == path;
    } else if t.Internal? && from < |t.nodes| {
      if p[0] == from {
        DeleteOrderComplete(t.nodes[from], path + [from], 0, p[1..]);
        assert path + [from] + p[1..] == path + p;
      } else {
        DeleteOrderComplete(t, path, from + 1, p);
      }
    }
  }

  // ----- The class -----

  class VoronoiQuadtree<S> {
    const dim: nat
    const nnodes: nat
    const sites: seq<S>
    const maxDepth: int
    const metric: (S, seq<real>) -> Option<real>
    var root: Node

    function Cfg(): (c: Config<S>)
    {
      Config(dim, nnodes, sites, maxDepth, metric)
    }

    /** Stores the parameters, with 2 * dim children per node, and builds the tree
        from depth 0. */
    constructor (dim: nat, mid: array<real>, radius: real, sites: seq<S>, maxDepth: int,
                 metric: (S, seq<real>) -> Option<real>)
      requires mid.Length == dim && maxDepth >= 0
      ensures this.dim == dim && this.nnodes == 2 * dim && this.sites == sites
      ensures this.maxDepth == maxDepth && this.metric == metric
      ensures root == WorkerSpec(Cfg(), mid[..], radius, 0)
    {
      this.dim := dim;
      this.nnodes := 2 * dim;
      this.sites := sites;
      this.maxDepth := maxDepth;
      this.metric := metric;
      new;
      root := Worker(mid, radius, 0);
    }

    /** `closest_site`: the running minimum over the sites. */
    method ClosestSite(pt: array<real>) returns (site: Option<nat>)
      ensures site == ClosestTo(Cfg(), pt[..])
    {
      ghost var vs := Values(Cfg(), pt[..]);
      site := None;
      var distance: Option<real> := None;
      var i := 0;
      while i < |sites|
        invariant 0 <= i <= |sites|
        invariant SiteOf(Scan(vs[..i]).site) == site && Scan(vs[..i]).dist == distance
        invariant Scan(vs[..i]).site >= -1
      {
        var d := metric(sites[i], pt[..]);
        assert vs[..i + 1][..i] == vs[..i];
        if Below(d, distance) {
          site := Some(i);
          distance := d;
        }
        i := i + 1;
      }
      assert vs[..i] == vs;
    }

    /** Writes corner (or child centre) i of the cube (mid, r) into pt. */
    method FillOffset(pt: array<real>, mid: array<real>, r: real, i: nat)
      requires pt.Length == dim && mid.Length == dim && pt != mid
      modifies pt
      ensures pt[..] == Offset(mid[..], r, i)
    {
      var d := 0;
      while d < dim
        invariant 0 <= d <= dim
        invariant forall e :: 0 <= e < d ==> pt[e] == Offset(mid[..], r, i)[e]
      {
        if BitSet(i, d) {
          pt[d] := mid[d] + r;
        } else {
          pt[d] := mid[d] - r;
        }
        d := d + 1;
      }
    }

    /** The corner loop of `worker`, with its early exit: whether it ran to the end,
        and the last corner's site if it did. */
    method CornerTest(mid: array<real>, radius: real, pt: array<real>) returns (allSame: bool, closest: Option<nat>)
      requires mid.Length == dim && pt.Length == dim && pt != mid
      modifies pt
      ensures allSame == NoBreak(CornerSites(Cfg(), mid[..], radius))
      ensures allSame ==> closest == LastSite(CornerSites(Cfg(), mid[..], radius))
    {
      ghost var cs := CornerSites(Cfg(), mid[..], radius);
      closest := None;
      var lastClosest: Option<nat> := None;
      allSame := true;
      var i := 0;
      while i < nnodes && allSame
        invariant 0 <= i <= nnodes && allSame
        invariant mid[..] == old(mid[..])
        invariant NoBreak(cs[..i])
        invariant lastClosest == closest == (if i == 0 then None else cs[i - 1])
      {
        FillOffset(pt, mid, radius, i);
        closest := ClosestSite(pt);
        assert closest == cs[i];
        if lastClosest != None && closest != lastClosest {
          allSame := false;
          assert !NoBreak(cs);
          break;
        }
        NoBreakExtend(cs, i);
        lastClosest := closest;
        i := i + 1;
      }
      if allSame {
        assert cs[..i] == cs;
      }
    }

    /** `worker`: the corner loop with its early exit, then a leaf or the
        recursive construction of the children. */
    method Worker(mid: array<real>, radius: real, depth: int) returns (node: Node)
      requires mid.Length == dim && depth <= maxDepth
      ensures node == WorkerSpec(Cfg(), mid[..], radius, depth)
      decreases maxDepth - depth
    {
      var closest: Option<nat>;
      var allSame := true;
      var pt := new real[dim];
      if depth != maxDepth {
        allSame, closest := CornerTest(mid, radius, pt);
      } else {
        closest := ClosestSite(mid);
      }
      if allSame {
        var m := new real[dim];
        var d := 0;
        while d < dim
          invariant 0 <= d <= dim
          invariant forall e :: 0 <= e < d ==> m[e] == mid[e]
        {
          m[d] := mid[d];
          d := d + 1;
        }
        assert m[..] == mid[..];
        node := Leaf(m[..], radius, closest);
      } else {
        var newRadius := 0.5 * radius;
        var nodes: seq<Node> := [];
        var i := 0;
        while i < nnodes
          invariant 0 <= i <= nnodes && |nodes| == i
          invariant forall k :: 0 <= k < i ==>
            nodes[k] == WorkerSpec(Cfg(), Offset(mid[..], newRadius, k), newRadius, depth + 1)
        {
          FillOffset(pt, mid, newRadius, i);
          var child := Worker(pt, newRadius, depth + 1);
          nodes := nodes + [child];
          i := i + 1;
        }
        node := Internal(nodes);
      }
    }

    /** `delete_worker`, reporting the nodes it frees as paths from `t`'s position
        `path`, children before their parent. */
    method DeleteWorker(t: Node, path: seq<nat>) returns (log: seq<seq<nat>>)
      requires WellFormed(Cfg(), t)
      ensures log == DeleteOrder(t, path, 0)
    {
      log := [];
      if t.Internal? {
        var i := 0;
        while i < nnodes
          invariant 0 <= i <= nnodes
          invariant log + DeleteOrder(t, path, i) == DeleteOrder(t, path, 0)
        {
          var sub := DeleteWorker(t.nodes[i], path + [i]);
          assert DeleteOrder(t, path, i) == sub + DeleteOrder(t, path, i + 1);
          log := log + sub;
          i := i + 1;
        }
      }
      log := log + [path];
    }
  }
}
