/** Plane geometry shared by every metric: the dot product, the squared Euclidean
    distance, and the enclosing square the example drivers compute from a bounding
    box. Coordinates are mathematical reals; no square root is ever taken.

    The sign lemmas below (`MulPos` to `DotNonNeg`) model nothing in the
    repository: they are arithmetic helpers for the solver, used by the
    squared-length and segment proofs. They are stated over distinct parameters and strict
    comparisons on purpose: callers instantiate them with repeated arguments
    (`DotPos(a, b, a, b)`), which keeps every product the solver sees a plain
    one. */
module Geometry {

  // Helpers for the solver: the sign of a product of two reals, by the signs of
  // the factors.

  lemma MulPos(p: real, q: real)
    requires p > 0.0 && q > 0.0
    ensures p * q > 0.0
  {}

  lemma MulNegNeg(p: real, q: real)
    requires p < 0.0 && q < 0.0
    ensures p * q > 0.0
  {}

  lemma MulNonNeg(p: real, q: real)
    requires !(p < 0.0) && !(q < 0.0)
    ensures !(p * q < 0.0)
  {}

  lemma MulNonPos(p: real, q: real)
    requires !(p > 0.0) && !(q > 0.0)
    ensures !(p * q < 0.0)
  {}

  /** A square is never negative. */
  lemma SquareNonNeg(a: real)
    ensures !(a * a < 0.0)
  {
    if a > 0.0 { MulPos(a, a); } else if a < 0.0 { MulNegNeg(a, a); }
  }

  /** The dot product of (ux, uy) and (vx, vy). */
  function Dot(ux: real, uy: real, vx: real, vy: real): (p: real)
  {
    ux * vx + uy * vy
  }

  lemma DotPos(a: real, b: real, c: real, d: real)
    requires a * c > 0.0 && !(b * d < 0.0)
    ensures Dot(a, b, c, d) > 0.0
  {}

  lemma DotNonNeg(a: real, b: real, c: real, d: real)
    requires !(a * c < 0.0) && !(b * d < 0.0)
    ensures !(Dot(a, b, c, d) < 0.0)
  {}

  /** The squared length of a vector is never negative, and it is positive unless
      the vector is zero. */
  lemma DotSelf(a: real, b: real)
    ensures !(Dot(a, b, a, b) < 0.0)
    ensures Dot(a, b, a, b) > 0.0 || (!(a < 0.0) && !(a > 0.0) && !(b < 0.0) && !(b > 0.0))
  {
    SquareNonNeg(a);
    SquareNonNeg(b);
    DotNonNeg(a, b, a, b);
    if a > 0.0 {
      MulPos(a, a);
      DotPos(a, b, a, b);
    } else if a < 0.0 {
      MulNegNeg(a, a);
      DotPos(a, b, a, b);
    } else if b > 0.0 {
      MulPos(b, b);
      DotPos(b, a, b, a);
      assert Dot(b, a, b, a) == Dot(a, b, a, b);
    } else if b < 0.0 {
      MulNegNeg(b, b);
      DotPos(b, a, b, a);
      assert Dot(b, a, b, a) == Dot(a, b, a, b);
    }
  }

  /** Squared length is zero exactly for the zero vector. */
  lemma DotSelfZero(a: real, b: real)
    ensures Dot(a, b, a, b) >= 0.0
    ensures Dot(a, b, a, b) == 0.0 <==> a == 0.0 && b == 0.0
  {
    DotSelf(a, b);
  }

  /** Squared distance between (x1, y1) and (x2, y2). */
  function SqDist(x1: real, y1: real, x2: real, y2: real): (d: real)
  {
    Dot(x1 - x2, y1 - y2, x1 - x2, y1 - y2)
  }

  /** The squared distance is symmetric, non-negative and vanishes exactly on
      coinciding points. */
  lemma SqDistProperties(x1: real, y1: real, x2: real, y2: real)
    ensures SqDist(x1, y1, x2, y2) >= 0.0
    ensures SqDist(x1, y1, x2, y2) == SqDist(x2, y2, x1, y1)
    ensures SqDist(x1, y1, x2, y2) == 0.0 <==> x1 == x2 && y1 == y2
  {
    DotSelfZero(x1 - x2, y1 - y2);
  }

  /** An axis-aligned square given by its centre and half-extent. */
  datatype Square = Square(mid: seq<real>, radius: real)

  /** `std::max` on doubles: the second argument when the first is below it. */
  function Max(a: real, b: real): (m: real)
    ensures m >= a && m >= b && (m == a || m == b)
  {
    if a < b then b else a
  }

  /** The square centred on the midpoint of the bounds `lo`..`hi` (two axes) whose
      radius is the larger of the two half-extents. */
  function EnclosingSquare(lo: seq<real>, hi: seq<real>): (sq: Square)
    requires |lo| == 2 && |hi| == 2
    ensures |sq.mid| == 2
    ensures forall k :: 0 <= k < 2 ==> sq.mid[k] - lo[k] == hi[k] - sq.mid[k]
    ensures forall k :: 0 <= k < 2 ==> sq.mid[k] - sq.radius <= lo[k] && hi[k] <= sq.mid[k] + sq.radius
    ensures sq.radius == (hi[0] - lo[0]) * 0.5 || sq.radius == (hi[1] - lo[1]) * 0.5
    ensures lo[0] <= hi[0] && lo[1] <= hi[1] ==> sq.radius >= 0.0
  {
    Square([(lo[0] + hi[0]) * 0.5, (lo[1] + hi[1]) * 0.5],
           Max((hi[0] - lo[0]) * 0.5, (hi[1] - lo[1]) * 0.5))
  }

  /** Every point of the bounds box lies inside the enclosing square. */
  lemma EnclosingSquareContains(lo: seq<real>, hi: seq<real>, p: seq<real>)
    requires |lo| == 2 && |hi| == 2 && |p| == 2
    requires forall k :: 0 <= k < 2 ==> lo[k] <= p[k] <= hi[k]
    ensures var sq := EnclosingSquare(lo, hi);
      sq.radius >= 0.0 &&
      forall k :: 0 <= k < 2 ==> sq.mid[k] - sq.radius <= p[k] <= sq.mid[k] + sq.radius
  {
    var sq := EnclosingSquare(lo, hi);
    assert forall k :: 0 <= k < 2 ==> sq.mid[k] - sq.radius <= lo[k] && hi[k] <= sq.mid[k] + sq.radius;
  }
}
