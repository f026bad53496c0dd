/** Corner and child-centre enumeration of the generic (dim-dimensional) builder.

    The builder walks the indices i = 0, 1, ..., nnodes - 1 and derives a point from
    each: coordinate d is `mid[d] + r` when bit d of i is set and `mid[d] - r`
    otherwise. With r = radius these are the corners of the box, with r = radius/2
    the centres of the children. Indices below 2^dim enumerate every sign pattern
    exactly once; the builder however uses nnodes = 2 * dim, which is 2^dim only for
    dim = 1 and dim = 2. */
module Orthant {

  function Pow2(d: nat): (p: nat)
    ensures p >= 1
  {
    if d == 0 then 1 else 2 * Pow2(d - 1)
  }

  /** Bit d of i, the test `i & (1 << d)`. */
  predicate BitSet(i: nat, d: nat)
  {
    if d == 0 then i % 2 == 1 else BitSet(i / 2, d - 1)
  }

  /** The point derived from index i: every coordinate moved by r, up or down
      according to the bits of i. */
  function Offset(mid: seq<real>, r: real, i: nat): (p: seq<real>)
    ensures |p| == |mid|
  {
    seq(|mid|, d requires 0 <= d < |mid| => if BitSet(i, d) then mid[d] + r else mid[d] - r)
  }

  /** q lies in the closed cube of centre mid and half-side r. */
  predicate InCube(q: seq<real>, mid: seq<real>, r: real)
  {
    |q| == |mid| && forall d :: 0 <= d < |mid| ==> mid[d] - r <= q[d] <= mid[d] + r
  }

  /** q lies in child i of the cube (mid, r): centre Offset(mid, r / 2, i), half-side
      r / 2. */
  predicate InChild(q: seq<real>, mid: seq<real>, r: real, i: nat)
  {
    InCube(q, Offset(mid, 0.5 * r, i), 0.5 * r)
  }

  /** The index whose bit d is bits[d]. */
  function IndexOf(bits: seq<bool>): (i: nat)
  {
    if bits == [] then 0 else (if bits[0] then 1 else 0) + 2 * IndexOf(bits[1..])
  }

  lemma {:induction false} IndexOfBits(bits: seq<bool>)
    ensures IndexOf(bits) < Pow2(|bits|)
    ensures forall d :: 0 <= d < |bits| ==> (BitSet(IndexOf(bits), d) <==> bits[d])
  {
    if bits != [] {
      var rest := bits[1..];
      IndexOfBits(rest);
      var i := IndexOf(bits);
      assert i / 2 == IndexOf(rest);
      forall d | 0 <= d < |bits| ensures BitSet(i, d) <==> bits[d] {
        if d > 0 {
          assert rest[d - 1] == bits[d];
        }
      }
    }
  }

  /** Indices below 2^dim are determined by their low dim bits. */
  lemma {:induction false} BitsDetermine(i: nat, j: nat, dim: nat)
    requires i < Pow2(dim) && j < Pow2(dim)
    requires forall d :: 0 <= d < dim ==> (BitSet(i, d) <==> BitSet(j, d))
    ensures i == j
  {
    if dim > 0 {
      forall d | 0 <= d < dim - 1 ensures BitSet(i / 2, d) <==> BitSet(j / 2, d) {
        assert BitSet(i, d + 1) <==> BitSet(j, d + 1);
      }
      BitsDetermine(i / 2, j / 2, dim - 1);
      assert BitSet(i, 0) <==> BitSet(j, 0);
    }
  }

  /** A child cube lies inside its parent. */
  lemma ChildInsideParent(mid: seq<real>, r: real, i: nat, q: seq<real>)
    requires r >= 0.0
    requires InChild(q, mid, r, i)
    ensures InCube(q, mid, r)
  {
    var c := Offset(mid, 0.5 * r, i);
    forall d | 0 <= d < |mid| ensures mid[d] - r <= q[d] <= mid[d] + r {
      assert c[d] - 0.5 * r <= q[d] <= c[d] + 0.5 * r;
    }
  }

  /** With 2^dim children, every point of the parent cube lies in some child: the
      child whose bit d records whether q is above the centre on axis d. */
  lemma ChildrenCover(mid: seq<real>, r: real, q: seq<real>)
    requires InCube(q, mid, r)
    ensures exists i :: 0 <= i < Pow2(|mid|) && InChild(q, mid, r, i)
  {
    var bits := seq(|mid|, d requires 0 <= d < |mid| => q[d] >= mid[d]);
    var i := IndexOf(bits);
    IndexOfBits(bits);
    var c := Offset(mid, 0.5 * r, i);
    forall d | 0 <= d < |mid| ensures c[d] - 0.5 * r <= q[d] <= c[d] + 0.5 * r {
      assert BitSet(i, d) <==> bits[d];
    }
    assert InChild(q, mid, r, i);
  }

  /** Distinct indices below 2^dim give distinct points when r > 0. */
  lemma OffsetsDistinct(mid: seq<real>, r: real, i: nat, j: nat)
    requires r > 0.0 && i < Pow2(|mid|) && j < Pow2(|mid|) && i != j
    ensures Offset(mid, r, i) != Offset(mid, r, j)
  {
    if forall d :: 0 <= d < |mid| ==> (BitSet(i, d) <==> BitSet(j, d)) {
      BitsDetermine(i, j, |mid|);
    } else {
      var d :| 0 <= d < |mid| && !(BitSet(i, d) <==> BitSet(j, d));
      assert Offset(mid, r, i)[d] != Offset(mid, r, j)[d];
    }
  }

  /** With 2^dim children, two different children share only boundary points: a
      point in both lies on one of the parent's splitting hyperplanes. So same-level
      boxes are disjoint up to their faces. */
  lemma ChildrenOverlapOnFaces(mid: seq<real>, r: real, i: nat, j: nat, q: seq<real>)
    requires i < Pow2(|mid|) && j < Pow2(|mid|) && i != j
    requires InChild(q, mid, r, i) && InChild(q, mid, r, j)
    ensures exists d :: 0 <= d < |mid| && q[d] == mid[d]
  {
    if forall d :: 0 <= d < |mid| ==> (BitSet(i, d) <==> BitSet(j, d)) {
      BitsDetermine(i, j, |mid|);
    } else {
      var d :| 0 <= d < |mid| && !(BitSet(i, d) <==> BitSet(j, d));
      var ci, cj := Offset(mid, 0.5 * r, i), Offset(mid, 0.5 * r, j);
      assert ci[d] - 0.5 * r <= q[d] <= ci[d] + 0.5 * r;
      assert cj[d] - 0.5 * r <= q[d] <= cj[d] + 0.5 * r;
    }
  }

  lemma {:induction false} Pow2Grows(dim: nat)
    requires dim >= 3
    ensures 2 * dim < Pow2(dim)
  {
    if dim > 3 {
      Pow2Grows(dim - 1);
    }
  }

  /** The builder's child count 2 * dim equals 2^dim exactly for dim 1 and 2. */
  lemma NnodesIsPow2Iff(dim: nat)
    ensures 2 * dim == Pow2(dim) <==> dim == 1 || dim == 2
  {
    if dim >= 3 {
      Pow2Grows(dim);
    }
  }

  lemma {:induction false} AllOnes(dim: nat)
    ensures IndexOf(seq(dim, d => true)) == Pow2(dim) - 1
  {
    if dim > 0 {
      assert seq(dim, d => true)[1..] == seq(dim - 1, d => true);
      AllOnes(dim - 1);
    }
  }

  /** For dim >= 3 the 2 * dim children miss part of the parent: the centre of the
      all-bits-set orthant lies in the parent cube but in none of the children that
      are built. */
  lemma ChildrenMissOrthant(mid: seq<real>, r: real)
    requires |mid| >= 3 && r > 0.0
    ensures var q := Offset(mid, 0.5 * r, Pow2(|mid|) - 1);
      InCube(q, mid, r) &&
      forall i :: 0 <= i < 2 * |mid| ==> !InChild(q, mid, r, i)
  {
    var dim := |mid|;
    var top := Pow2(dim) - 1;
    var ones := seq(dim, d => true);
    AllOnes(dim);
    IndexOfBits(ones);
    var q := Offset(mid, 0.5 * r, top);
    assert InChild(q, mid, r, top);
    ChildInsideParent(mid, r, top, q);
    Pow2Grows(dim);
    forall i | 0 <= i < 2 * dim ensures !InChild(q, mid, r, i) {
      if InChild(q, mid, r, i) {
        forall d | 0 <= d < dim ensures BitSet(i, d) <==> BitSet(top, d) {
          assert BitSet(top, d) <==> ones[d];
          var c := Offset(mid, 0.5 * r, i);
          assert c[d] - 0.5 * r <= q[d];
        }
        BitsDetermine(i, top, dim);
        assert false;
      }
    }
  }
}
