/**
 * Points in the normalised drawing plane and the segment-segment
 * intersection primitive that every validation decision of the editor uses.
 * Coordinates are exact reals; the source computes in floating point.
 */
module Geometry {
  import opened Wrappers

  datatype Point = Point(x: real, y: real)

  /** Tolerance on SQUARED distance, used both for closing a loop and for
      telling a touch at the candidate's start apart from a real crossing. */
  const Tol: real := 0.001

  function SqDist(a: Point, b: Point): real
  {
    (a.x - b.x) * (a.x - b.x) + (a.y - b.y) * (a.y - b.y)
  }

  function Min(a: real, b: real): real { if a <= b then a else b }
  function Max(a: real, b: real): real { if a <= b then b else a }

  /** Index of the vertex after vertex j of a closed ring of n vertices:
      the source's `(j + 1) % n`, wrapping from the last vertex to the first. */
  function RingNext(j: nat, n: nat): (r: nat)
    requires j < n
    ensures r < n
    ensures j + 1 < n ==> r == j + 1
    ensures j + 1 == n ==> r == 0
  {
    (j + 1) % n
  }

  /** q lies in the closed axis-aligned bounding box of segment a-b. */
  predicate InBox(q: Point, a: Point, b: Point)
  {
    && Min(a.x, b.x) <= q.x <= Max(a.x, b.x)
    && Min(a.y, b.y) <= q.y <= Max(a.y, b.y)
  }

  /** The determinant of the direction vectors of p1-p2 and p3-p4; zero
      exactly when the two directions are parallel (or one is degenerate). */
  function Det(p1: Point, p2: Point, p3: Point, p4: Point): real
  {
    (p1.x - p2.x) * (p3.y - p4.y) - (p1.y - p2.y) * (p3.x - p4.x)
  }

  /** The meeting point of the two infinite lines, by the determinant formula. */
  function LineMeet(p1: Point, p2: Point, p3: Point, p4: Point): Point
    requires Det(p1, p2, p3, p4) != 0.0
  {
    var d := Det(p1, p2, p3, p4);
    var pre := p1.x * p2.y - p1.y * p2.x;
    var post := p3.x * p4.y - p3.y * p4.x;
    Point((pre * (p3.x - p4.x) - (p1.x - p2.x) * post) / d,
          (pre * (p3.y - p4.y) - (p1.y - p2.y) * post) / d)
  }

  /** q satisfies the implicit equation of the line through a and b. */
  ghost predicate OnLine(q: Point, a: Point, b: Point)
  {
    (a.y - b.y) * q.x + (b.x - a.x) * q.y == b.x * a.y - a.x * b.y
  }

  function Lerp(a: Point, b: Point, t: real): Point
  {
    Point(a.x + t * (b.x - a.x), a.y + t * (b.y - a.y))
  }

  /** q lies on the closed segment a-b. */
  ghost predicate OnSegment(q: Point, a: Point, b: Point)
  {
    exists t :: 0.0 <= t <= 1.0 && q == Lerp(a, b, t)
  }

  /**
   * Segment p1-p2 against segment p3-p4: None for parallel or collinear
   * segments, otherwise the meeting point of the two lines if it lies in the
   * bounding boxes of both segments.
   */
  function Intersection(p1: Point, p2: Point, p3: Point, p4: Point): (r: Option<Point>)
    ensures Det(p1, p2, p3, p4) == 0.0 ==> r == None
    ensures r.Some? ==>
      && Min(p1.x, p2.x) <= r.value.x <= Max(p1.x, p2.x)
      && Min(p3.x, p4.x) <= r.value.x <= Max(p3.x, p4.x)
      && Min(p1.y, p2.y) <= r.value.y <= Max(p1.y, p2.y)
      && Min(p3.y, p4.y) <= r.value.y <= Max(p3.y, p4.y)
    ensures r.Some? ==> OnLine(r.value, p1, p2) && OnLine(r.value, p3, p4)
  {
    if Det(p1, p2, p3, p4) == 0.0 then None
    else
      var m := LineMeet(p1, p2, p3, p4);
      LineMeetOnBothLines(p1, p2, p3, p4);
      if !InBox(m, p1, p2) || !InBox(m, p3, p4) then None
      else Some(m)
  }

  // ---------------------------------------------------------------------
  // Algebra behind the intersection primitive

  /** The determinant formula really solves both line equations. */
  lemma LineMeetOnBothLines(p1: Point, p2: Point, p3: Point, p4: Point)
    requires Det(p1, p2, p3, p4) != 0.0
    ensures OnLine(LineMeet(p1, p2, p3, p4), p1, p2)
    ensures OnLine(LineMeet(p1, p2, p3, p4), p3, p4)
  {
    var d := Det(p1, p2, p3, p4);
    var a, b, c, e := p1.x - p2.x, p1.y - p2.y, p3.x - p4.x, p3.y - p4.y;
    var pre := p1.x * p2.y - p1.y * p2.x;
    var post := p3.x * p4.y - p3.y * p4.x;
    var m := LineMeet(p1, p2, p3, p4);
    assert m.x * d == pre * c - a * post;
    assert m.y * d == pre * e - b * post;
    CramerIdentities(a, b, c, e, pre, post);
    LinearFromScaled(b, -a, -pre, m.x, m.y, d);
    LinearFromScaled(e, -c, -post, m.x, m.y, d);
  }

  /** The polynomial identities behind the determinant formula, with
      a, b the direction of the first line and c, e that of the second. */
  lemma CramerIdentities(a: real, b: real, c: real, e: real, pre: real, post: real)
    ensures b * (pre * c - a * post) + -a * (pre * e - b * post) == -pre * (a * e - b * c)
    ensures e * (pre * c - a * post) + -c * (pre * e - b * post) == -post * (a * e - b * c)
  {
  }

  /** Cancels a non-zero factor d from a linear equation. */
  lemma LinearFromScaled(a: real, b: real, c: real, u: real, v: real, d: real)
    requires d != 0.0
    requires a * (u * d) + b * (v * d) == c * d
    ensures a * u + b * v == c
  {
    assert (a * u + b * v - c) * d == 0.0;
  }

  /** With a non-zero determinant, the two lines meet in one point only. */
  lemma LinesMeetOnce(p1: Point, p2: Point, p3: Point, p4: Point, q: Point)
    requires Det(p1, p2, p3, p4) != 0.0
    requires OnLine(q, p1, p2) && OnLine(q, p3, p4)
    ensures q == LineMeet(p1, p2, p3, p4)
  {
    var m := LineMeet(p1, p2, p3, p4);
    LineMeetOnBothLines(p1, p2, p3, p4);
    var a1, b1 := p1.y - p2.y, p2.x - p1.x;
    var a2, b2 := p3.y - p4.y, p4.x - p3.x;
    var ux, uy := q.x - m.x, q.y - m.y;
    assert a1 * ux + b1 * uy == 0.0;
    assert a2 * ux + b2 * uy == 0.0;
    var d := Det(p1, p2, p3, p4);
    assert a1 * b2 - a2 * b1 == d;
    assert ux * d == b2 * (a1 * ux + b1 * uy) - b1 * (a2 * ux + b2 * uy);
    assert uy * d == a1 * (a2 * ux + b2 * uy) - a2 * (a1 * ux + b1 * uy);
    ZeroProduct(ux, d);
    ZeroProduct(uy, d);
  }

  lemma ZeroProduct(u: real, d: real)
    requires d != 0.0 && u * d == 0.0
    ensures u == 0.0
  {
  }

  /** A point between a and b (0 <= t <= 1) lies on their line and in their box. */
  lemma LerpOnLineInBox(a: Point, b: Point, t: real)
    requires 0.0 <= t <= 1.0
    ensures OnLine(Lerp(a, b, t), a, b)
    ensures InBox(Lerp(a, b, t), a, b)
  {
    var q := Lerp(a, b, t);
    assert (a.y - b.y) * (t * (b.x - a.x)) + (b.x - a.x) * (t * (b.y - a.y)) == 0.0;
    Between(a.x, b.x, t);
    Between(a.y, b.y, t);
  }

  lemma Between(u: real, v: real, t: real)
    requires 0.0 <= t <= 1.0
    ensures Min(u, v) <= u + t * (v - u) <= Max(u, v)
  {
    MulNonNeg(t, if u <= v then v - u else u - v);
    MulNonNeg(1.0 - t, if u <= v then v - u else u - v);
    assert (1.0 - t) * (v - u) == (v - u) - t * (v - u);
  }

  lemma MulNonNeg(a: real, b: real)
    requires 0.0 <= a && 0.0 <= b
    ensures 0.0 <= a * b
  {
  }

  lemma MulPos(a: real, b: real)
    requires 0.0 < a && 0.0 < b
    ensures 0.0 < a * b
  {
  }

  /** A point of the line through a != b that lies in their box is on the segment. */
  lemma OnLineInBoxOnSegment(q: Point, a: Point, b: Point)
    requires a != b
    requires OnLine(q, a, b) && InBox(q, a, b)
    ensures OnSegment(q, a, b)
  {
    if a.x != b.x {
      var t := (q.x - a.x) / (b.x - a.x);
      assert t * (b.x - a.x) == q.x - a.x;
      UnitParameter(q.x, a.x, b.x, t);
      SolveForOrdinate(a.x, a.y, b.x, b.y, q.x, q.y, t);
      assert q == Lerp(a, b, t);
    } else {
      assert a.y != b.y;
      var t := (q.y - a.y) / (b.y - a.y);
      assert t * (b.y - a.y) == q.y - a.y;
      UnitParameter(q.y, a.y, b.y, t);
      SolveVertical(a.x, a.y, b.y, q.x, q.y);
      assert q == Lerp(a, b, t);
    }
  }

  /** On the line through (x1,y1), (x2,y2) with x1 != x2, the abscissa
      x1 + t (x2 - x1) comes with the ordinate y1 + t (y2 - y1). */
  lemma SolveForOrdinate(x1: real, y1: real, x2: real, y2: real, qx: real, qy: real, t: real)
    requires x1 != x2
    requires (y1 - y2) * qx + (x2 - x1) * qy == x2 * y1 - x1 * y2
    requires t * (x2 - x1) == qx - x1
    ensures qy == y1 + t * (y2 - y1)
  {
    calc {
      (x2 - x1) * (y1 + t * (y2 - y1));
      (x2 - x1) * y1 + (t * (x2 - x1)) * (y2 - y1);
      (x2 - x1) * y1 + (qx - x1) * (y2 - y1);
      x2 * y1 - x1 * y2 - (y1 - y2) * qx;
      (x2 - x1) * qy;
    }
    CancelNonZero(x2 - x1, qy, y1 + t * (y2 - y1));
  }

  /** On the vertical line through (x1,y1), (x1,y2) with y1 != y2, every point has abscissa x1. */
  lemma SolveVertical(x1: real, y1: real, y2: real, qx: real, qy: real)
    requires y1 != y2
    requires (y1 - y2) * qx + (x1 - x1) * qy == x1 * y1 - x1 * y2
    ensures qx == x1
  {
    assert (y1 - y2) * qx == (y1 - y2) * x1;
    CancelNonZero(y1 - y2, qx, x1);
  }

  lemma CancelNonZero(c: real, u: real, v: real)
    requires c != 0.0 && c * u == c * v
    ensures u == v
  {
    assert c * (u - v) == 0.0;
  }

  /** t = (w - u) / (v - u) lies in [0, 1] when w is between u and v. */
  lemma UnitParameter(w: real, u: real, v: real, t: real)
    requires u != v && Min(u, v) <= w <= Max(u, v)
    requires t * (v - u) == w - u
    ensures 0.0 <= t <= 1.0
  {
    if u < v {
      UnitRatio(t, v - u, w - u);
    } else {
      assert t * (u - v) == u - w;
      UnitRatio(t, u - v, u - w);
    }
  }

  lemma UnitRatio(t: real, c: real, k: real)
    requires 0.0 < c && t * c == k && 0.0 <= k <= c
    ensures 0.0 <= t <= 1.0
  {
    if t < 0.0 { MulPos(-t, c); }
    if t > 1.0 { MulPos(t - 1.0, c); }
  }

  lemma NonZeroDetSegmentsProper(p1: Point, p2: Point, p3: Point, p4: Point)
    requires Det(p1, p2, p3, p4) != 0.0
    ensures p1 != p2 && p3 != p4
  {
  }

  /**
   * The primitive is exact: it returns q precisely when the segments are not
   * parallel and q lies on both closed segments.
   */
  lemma IntersectionIsCrossing(p1: Point, p2: Point, p3: Point, p4: Point, q: Point)
    ensures Intersection(p1, p2, p3, p4) == Some(q)
        <==> Det(p1, p2, p3, p4) != 0.0 && OnSegment(q, p1, p2) && OnSegment(q, p3, p4)
  {
    if Det(p1, p2, p3, p4) != 0.0 {
      NonZeroDetSegmentsProper(p1, p2, p3, p4);
      if Intersection(p1, p2, p3, p4) == Some(q) {
        OnLineInBoxOnSegment(q, p1, p2);
        OnLineInBoxOnSegment(q, p3, p4);
      }
      if OnSegment(q, p1, p2) && OnSegment(q, p3, p4) {
        var t :| 0.0 <= t <= 1.0 && q == Lerp(p1, p2, t);
        var s :| 0.0 <= s <= 1.0 && q == Lerp(p3, p4, s);
        LerpOnLineInBox(p1, p2, t);
        LerpOnLineInBox(p3, p4, s);
        LinesMeetOnce(p1, p2, p3, p4, q);
      }
    }
  }

  /** Segments whose bounding boxes are separated along x or along y never meet. */
  lemma ApartBoxesNeverMeet(p1: Point, p2: Point, p3: Point, p4: Point)
    requires || Max(p1.x, p2.x) < Min(p3.x, p4.x) || Max(p3.x, p4.x) < Min(p1.x, p2.x)
             || Max(p1.y, p2.y) < Min(p3.y, p4.y) || Max(p3.y, p4.y) < Min(p1.y, p2.y)
    ensures Intersection(p1, p2, p3, p4) == None
  {
  }

  /** A segment that starts or ends at a meets a segment starting at a only there. */
  lemma SharedEndpointMeetsThere(a: Point, b: Point, c: Point)
    ensures Intersection(a, b, c, a) == None || Intersection(a, b, c, a) == Some(a)
    ensures Intersection(a, b, a, c) == None || Intersection(a, b, a, c) == Some(a)
  {
    assert OnLine(a, a, b) && OnLine(a, c, a) && OnLine(a, a, c);
    if Det(a, b, c, a) != 0.0 {
      LinesMeetOnce(a, b, c, a, a);
    }
    if Det(a, b, a, c) != 0.0 {
      LinesMeetOnce(a, b, a, c, a);
    }
  }
}
