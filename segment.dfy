/** The point-to-segment distance used by the polyline and polygon metrics. The C
    library, the render-tree site header and the shapefile example each carry an
    identical copy of this routine; all three are modelled by `PtDistanceToLine`.

    The routine projects the query point on the line through `a` and `b`, clamps
    the projection parameter to [0, 1] and returns the squared distance to the
    clamped point; a zero-length segment falls back to the squared distance to `a`.
    The lemmas show that the result is exactly the least squared distance from the
    query point to a point of the segment. */
module Segment {
  import opened Geometry

  /** The two clamping tests of the routine: above 1 becomes 1, then below 0
      becomes 0. */
  function Clamp01(t: real): (c: real)
    ensures 0.0 <= c <= 1.0
    ensures 0.0 <= t <= 1.0 ==> c == t
    ensures t > 1.0 ==> c == 1.0
    ensures t < 0.0 ==> c == 0.0
  {
    if t > 1.0 then 1.0 else if t < 0.0 then 0.0 else t
  }

  /** Squared distance from (x, y) to the segment from (ax, ay) to (bx, by_). */
  function PtDistanceToLine(x: real, y: real, ax: real, ay: real, bx: real, by_: real): (d: real)
  {
    var vx := bx - ax;
    var vy := by_ - ay;
    var wx := x - ax;
    var wy := y - ay;
    var denom := Dot(vx, vy, vx, vy);
    if denom == 0.0 then SqDist(ax, ay, x, y)
    else
      var t := Clamp01(Dot(vx, vy, wx, wy) / denom);
      SqDist(ax + t * vx, ay + t * vy, x, y)
  }

  /** Squared distance from (x, y) to the point a + s * (b - a) of the line. */
  function Along(x: real, y: real, ax: real, ay: real, bx: real, by_: real, s: real): (d: real)
  {
    SqDist(ax + s * (bx - ax), ay + s * (by_ - ay), x, y)
  }

  /** `Along` as a quadratic in `s`: q - 2 s w + s^2 d. */
  function Quad(q: real, w: real, d: real, s: real): (v: real)
  {
    q - 2.0 * s * w + s * s * d
  }

  lemma AlongQuad(x: real, y: real, ax: real, ay: real, bx: real, by_: real, s: real)
    ensures Along(x, y, ax, ay, bx, by_, s)
         == Quad(Dot(x - ax, y - ay, x - ax, y - ay),
                 Dot(bx - ax, by_ - ay, x - ax, y - ay),
                 Dot(bx - ax, by_ - ay, bx - ax, by_ - ay), s)
  {}

  /** On [0, 1] the quadratic with positive leading coefficient is least at the
      clamped vertex w / d. */
  lemma QuadMin(q: real, w: real, d: real, s: real, t: real)
    requires d > 0.0 && !(s < 0.0) && !(s > 1.0) && t == Clamp01(w / d)
    ensures !(Quad(q, w, d, s) < Quad(q, w, d, t))
  {
    var u := w / d;
    assert w == u * d;
    assert Quad(q, w, d, s) - Quad(q, w, d, t) == d * ((s - t) * (s + t - 2.0 * u));
    var p := (s - t) * (s + t - 2.0 * u);
    if u > 1.0 {
      MulNonPos(s - t, s + t - 2.0 * u);
    } else if u < 0.0 {
      MulNonNeg(s - t, s + t - 2.0 * u);
    } else {
      assert s + t - 2.0 * u == s - t;
      SquareNonNeg(s - t);
    }
    MulNonNeg(d, p);
  }

  /** The result is no larger than the squared distance to any point of the
      segment. */
  lemma Minimal(x: real, y: real, ax: real, ay: real, bx: real, by_: real, s: real)
    requires 0.0 <= s <= 1.0
    ensures PtDistanceToLine(x, y, ax, ay, bx, by_) <= Along(x, y, ax, ay, bx, by_, s)
  {
    var d := Dot(bx - ax, by_ - ay, bx - ax, by_ - ay);
    var w := Dot(bx - ax, by_ - ay, x - ax, y - ay);
    var q := Dot(x - ax, y - ay, x - ax, y - ay);
    DotSelf(bx - ax, by_ - ay);
    AlongQuad(x, y, ax, ay, bx, by_, s);
    if d == 0.0 {
      assert bx == ax && by_ == ay;
    } else {
      AlongQuad(x, y, ax, ay, bx, by_, Clamp01(w / d));
      QuadMin(q, w, d, s, Clamp01(w / d));
    }
  }

  /** The result is the squared distance to an actual point of the segment. */
  lemma Attained(x: real, y: real, ax: real, ay: real, bx: real, by_: real)
    ensures exists t :: 0.0 <= t <= 1.0 && PtDistanceToLine(x, y, ax, ay, bx, by_) == Along(x, y, ax, ay, bx, by_, t)
  {
    var d := Dot(bx - ax, by_ - ay, bx - ax, by_ - ay);
    var w := Dot(bx - ax, by_ - ay, x - ax, y - ay);
    if d == 0.0 {
      assert PtDistanceToLine(x, y, ax, ay, bx, by_) == Along(x, y, ax, ay, bx, by_, 0.0);
    } else {
      var t := Clamp01(w / d);
      assert PtDistanceToLine(x, y, ax, ay, bx, by_) == Along(x, y, ax, ay, bx, by_, t);
    }
  }

  /** Together: the result is the least squared distance from (x, y) to the
      segment, and it is never negative. */
  lemma IsSegmentDistance(x: real, y: real, ax: real, ay: real, bx: real, by_: real)
    ensures PtDistanceToLine(x, y, ax, ay, bx, by_) >= 0.0
    ensures forall s :: 0.0 <= s <= 1.0 ==> PtDistanceToLine(x, y, ax, ay, bx, by_) <= Along(x, y, ax, ay, bx, by_, s)
    ensures exists t :: 0.0 <= t <= 1.0 && PtDistanceToLine(x, y, ax, ay, bx, by_) == Along(x, y, ax, ay, bx, by_, t)
  {
    forall s | 0.0 <= s <= 1.0
      ensures PtDistanceToLine(x, y, ax, ay, bx, by_) <= Along(x, y, ax, ay, bx, by_, s)
    {
      Minimal(x, y, ax, ay, bx, by_, s);
    }
    Attained(x, y, ax, ay, bx, by_);
    var t :| 0.0 <= t <= 1.0 && PtDistanceToLine(x, y, ax, ay, bx, by_) == Along(x, y, ax, ay, bx, by_, t);
    SqDistProperties(ax + t * (bx - ax), ay + t * (by_ - ay), x, y);
  }

  /** The segment has zero length exactly when its endpoints coincide, and then the
      result is the squared distance to `a`. */
  lemma Degenerate(x: real, y: real, ax: real, ay: real, bx: real, by_: real)
    ensures Dot(bx - ax, by_ - ay, bx - ax, by_ - ay) == 0.0 <==> ax == bx && ay == by_
    ensures ax == bx && ay == by_ ==> PtDistanceToLine(x, y, ax, ay, bx, by_) == SqDist(ax, ay, x, y)
  {
    DotSelfZero(bx - ax, by_ - ay);
  }

  /** The result is at most the squared distance to either endpoint; in particular
      it is zero when the query point is an endpoint. */
  lemma EndpointBounds(x: real, y: real, ax: real, ay: real, bx: real, by_: real)
    ensures PtDistanceToLine(x, y, ax, ay, bx, by_) <= SqDist(ax, ay, x, y)
    ensures PtDistanceToLine(x, y, ax, ay, bx, by_) <= SqDist(bx, by_, x, y)
    ensures (x == ax && y == ay) || (x == bx && y == by_) ==> PtDistanceToLine(x, y, ax, ay, bx, by_) == 0.0
  {
    Minimal(x, y, ax, ay, bx, by_, 0.0);
    Minimal(x, y, ax, ay, bx, by_, 1.0);
    assert Along(x, y, ax, ay, bx, by_, 0.0) == SqDist(ax, ay, x, y);
    assert Along(x, y, ax, ay, bx, by_, 1.0) == SqDist(bx, by_, x, y);
    IsSegmentDistance(x, y, ax, ay, bx, by_);
    SqDistProperties(ax, ay, x, y);
    SqDistProperties(bx, by_, x, y);
  }

  /** The point a + s * (b - a) of the line is (x, y). */
  predicate OnLineAt(x: real, y: real, ax: real, ay: real, bx: real, by_: real, s: real)
  {
    x == ax + s * (bx - ax) && y == ay + s * (by_ - ay)
  }

  /** Walking the segment from the other end: parameter s from a is 1 - s from b. */
  lemma AlongReversed(x: real, y: real, ax: real, ay: real, bx: real, by_: real, s: real)
    ensures Along(x, y, ax, ay, bx, by_, s) == Along(x, y, bx, by_, ax, ay, 1.0 - s)
  {
    assert ax + s * (bx - ax) == bx + (1.0 - s) * (ax - bx);
    assert ay + s * (by_ - ay) == by_ + (1.0 - s) * (ay - by_);
  }

  /** The distance does not depend on the order of the segment's endpoints. */
  lemma Reverse(x: real, y: real, ax: real, ay: real, bx: real, by_: real)
    ensures PtDistanceToLine(x, y, ax, ay, bx, by_) == PtDistanceToLine(x, y, bx, by_, ax, ay)
  {
    Attained(x, y, ax, ay, bx, by_);
    var t :| 0.0 <= t <= 1.0 && PtDistanceToLine(x, y, ax, ay, bx, by_) == Along(x, y, ax, ay, bx, by_, t);
    AlongReversed(x, y, ax, ay, bx, by_, t);
    Minimal(x, y, bx, by_, ax, ay, 1.0 - t);
    Attained(x, y, bx, by_, ax, ay);
    var u :| 0.0 <= u <= 1.0 && PtDistanceToLine(x, y, bx, by_, ax, ay) == Along(x, y, bx, by_, ax, ay, u);
    AlongReversed(x, y, bx, by_, ax, ay, u);
    Minimal(x, y, ax, ay, bx, by_, 1.0 - u);
  }

  /** A query point on the segment is at distance zero. */
  lemma OnSegmentZero(x: real, y: real, ax: real, ay: real, bx: real, by_: real, s: real)
    requires 0.0 <= s <= 1.0 && OnLineAt(x, y, ax, ay, bx, by_, s)
    ensures PtDistanceToLine(x, y, ax, ay, bx, by_) == 0.0
  {
    Minimal(x, y, ax, ay, bx, by_, s);
    SqDistProperties(ax + s * (bx - ax), ay + s * (by_ - ay), x, y);
    IsSegmentDistance(x, y, ax, ay, bx, by_);
  }

  /** Distance zero means the query point lies on the segment. */
  lemma ZeroOnSegment(x: real, y: real, ax: real, ay: real, bx: real, by_: real)
    requires PtDistanceToLine(x, y, ax, ay, bx, by_) == 0.0
    ensures exists s :: 0.0 <= s <= 1.0 && OnLineAt(x, y, ax, ay, bx, by_, s)
  {
    Attained(x, y, ax, ay, bx, by_);
    var t :| 0.0 <= t <= 1.0 && PtDistanceToLine(x, y, ax, ay, bx, by_) == Along(x, y, ax, ay, bx, by_, t);
    SqDistProperties(ax + t * (bx - ax), ay + t * (by_ - ay), x, y);
    assert OnLineAt(x, y, ax, ay, bx, by_, t);
  }
}
