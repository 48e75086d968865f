/**
 Strikethrough detection (services/extraction/src/extraction/domain/strikethrough.py), with
 real numbers for coordinates.
 */
module Strikethrough {
  import opened Plane
  import opened Wrappers

  datatype Rect = Rect(x1: real, y1: real, x2: real, y2: real)

  // ----- the test -----

  predicate Ccw(a: Point, b: Point, c: Point) {
    (c.y - a.y) * (b.x - a.x) > (b.y - a.y) * (c.x - a.x)
  }

  predicate SegmentsCross(p1: Point, p2: Point, q1: Point, q2: Point) {
    Ccw(p1, q1, q2) != Ccw(p2, q1, q2) && Ccw(p1, p2, q1) != Ccw(p1, p2, q2)
  }

  predicate Inside(p: Point, r: Rect) {
    r.x1 <= p.x <= r.x2 && r.y1 <= p.y <= r.y2
  }

  predicate LineIntersectsRect(p1: Point, p2: Point, r: Rect) {
    && !(Max(p1.x, p2.x) < r.x1 || Min(p1.x, p2.x) > r.x2)
    && !(Max(p1.y, p2.y) < r.y1 || Min(p1.y, p2.y) > r.y2)
    && (Inside(p1, r) || Inside(p2, r) || CrossesEdge(p1, p2, r))
  }

  predicate CrossesEdge(p1: Point, p2: Point, r: Rect) {
    || SegmentsCross(p1, p2, Point(r.x1, r.y1), Point(r.x2, r.y1))
    || SegmentsCross(p1, p2, Point(r.x2, r.y1), Point(r.x2, r.y2))
    || SegmentsCross(p1, p2, Point(r.x2, r.y2), Point(r.x1, r.y2))
    || SegmentsCross(p1, p2, Point(r.x1, r.y2), Point(r.x1, r.y1))
  }

  // ----- the geometry it stands for -----

  /** The point at parameter `t` of the line through `a` and `b`; the segment is 0 <= t <= 1. */
  function At(a: Point, b: Point, t: real): Point {
    Point(Along(a.x, b.x, t), Along(a.y, b.y, t))
  }

  function Along(a: real, b: real, t: real): real {
    a + Times(t, b - a)
  }

  function Times(t: real, d: real): real {
    t * d
  }

  /** The rectangle between two corners, whichever way round they were given. */
  function Hull(r: Rect): Rect {
    Rect(Min(r.x1, r.x2), Min(r.y1, r.y2), Max(r.x1, r.x2), Max(r.y1, r.y2))
  }

  /** The segment shares a point with the closed rectangle. */
  ghost predicate Touches(p1: Point, p2: Point, r: Rect) {
    exists t :: 0.0 <= t <= 1.0 && Inside(At(p1, p2, t), r)
  }

  predicate StrictlyInside(p: Point, r: Rect) {
    r.x1 < p.x < r.x2 && r.y1 < p.y < r.y2
  }

  /** The segment meets the open interior of the rectangle. */
  ghost predicate Enters(p1: Point, p2: Point, r: Rect) {
    exists t :: 0.0 <= t <= 1.0 && StrictlyInside(At(p1, p2, t), r)
  }

  // ----- arithmetic -----

  /** The z-component of u x v. */
  function Cross(u: Point, v: Point): real {
    u.x * v.y - u.y * v.x
  }

  function Minus(a: Point, b: Point): Point {
    Point(a.x - b.x, a.y - b.y)
  }

  /** Twice the signed area of the triangle a b c: positive exactly when `Ccw`. */
  function Side(a: Point, b: Point, c: Point): real {
    Cross(Minus(b, a), Minus(c, a))
  }

  lemma CcwIsPositiveSide(a: Point, b: Point, c: Point)
    ensures Ccw(a, b, c) <==> Side(a, b, c) > 0.0
  {
  }

  /** u (w x v) + v (u x w) == w (u x v). */
  lemma CrossIdentity(u: Point, v: Point, w: Point)
    ensures u.x * Cross(w, v) + v.x * Cross(u, w) == w.x * Cross(u, v)
    ensures u.y * Cross(w, v) + v.y * Cross(u, w) == w.y * Cross(u, v)
  {
  }

  /** How the sides of the end points differ: by the cross product of the two directions. */
  lemma SideDifferences(p1: Point, p2: Point, q1: Point, q2: Point)
    ensures var u, v, w := Minus(p2, p1), Minus(q2, q1), Minus(q1, p1);
            && Side(p1, q1, q2) == Cross(w, v)
            && Side(p1, q1, q2) - Side(p2, q1, q2) == Cross(u, v)
            && Side(p1, p2, q1) == Cross(u, w)
            && Side(p1, p2, q2) - Side(p1, p2, q1) == Cross(u, v)
  {
  }

  lemma ProductZero(k: real, d: real)
    requires k * d == 0.0 && d != 0.0
    ensures k == 0.0
  {
  }

  /** t u - s v - w == 0, in one coordinate, from the scaled parameters. */
  lemma MeetInCoordinate(t: real, s: real, d: real, f: real, g: real, u: real, v: real, w: real)
    requires d != 0.0 && t * d == f && s * d == -g && u * f + v * g == w * d
    ensures t * u - s * v == w
  {
    assert (t * u - s * v - w) * d == u * (t * d) - v * (s * d) - w * d;
    ProductZero(t * u - s * v - w, d);
  }

  /** Two lines that are not parallel meet where the side functions vanish. */
  lemma LinesMeet(p1: Point, p2: Point, q1: Point, q2: Point) returns (t: real, s: real)
    requires Cross(Minus(p2, p1), Minus(q2, q1)) != 0.0
    ensures At(p1, p2, t) == At(q1, q2, s)
    ensures var d := Cross(Minus(p2, p1), Minus(q2, q1)); t * d == Side(p1, q1, q2) && s * d == -Side(p1, p2, q1)
  {
    var u, v, w := Minus(p2, p1), Minus(q2, q1), Minus(q1, p1);
    var d, f, g := Cross(u, v), Cross(w, v), Cross(u, w);
    SideDifferences(p1, p2, q1, q2);
    CrossIdentity(u, v, w);
    t, s := f / d, -g / d;
    hide Cross, Along;
    MeetInCoordinate(t, s, d, f, g, u.x, v.x, w.x);
    MeetInCoordinate(t, s, d, f, g, u.y, v.y, w.y);
    SameAlong(p1.x, p2.x, q1.x, q2.x, t, s);
    SameAlong(p1.y, p2.y, q1.y, q2.y, t, s);
  }

  lemma SameAlong(a: real, b: real, c: real, d: real, t: real, s: real)
    requires t * (b - a) - s * (d - c) == c - a
    ensures Along(a, b, t) == Along(c, d, s)
  {
  }

  /** A value of one sign at one end and not at the other vanishes in between. */
  lemma RootBetween(t: real, d: real, f: real)
    requires t * d == f && (f > 0.0) != (f - d > 0.0)
    ensures 0.0 <= t <= 1.0
  {
    assert (t - 1.0) * d == f - d;
    SignOfProduct(t, d);
    SignOfProduct(t - 1.0, d);
  }

  lemma SignOfProduct(a: real, b: real)
    ensures (a > 0.0 && b > 0.0) || (a < 0.0 && b < 0.0) <==> a * b > 0.0
    ensures a == 0.0 || b == 0.0 <==> a * b == 0.0
  {
  }

  /** Crossing segments share a point. */
  lemma CrossingSegmentsMeet(p1: Point, p2: Point, q1: Point, q2: Point) returns (t: real, s: real)
    requires SegmentsCross(p1, p2, q1, q2)
    ensures 0.0 <= t <= 1.0 && 0.0 <= s <= 1.0 && At(p1, p2, t) == At(q1, q2, s)
  {
    SideDifferences(p1, p2, q1, q2);
    CcwIsPositiveSide(p1, q1, q2);
    CcwIsPositiveSide(p2, q1, q2);
    CcwIsPositiveSide(p1, p2, q1);
    CcwIsPositiveSide(p1, p2, q2);
    var d := Cross(Minus(p2, p1), Minus(q2, q1));
    t, s := LinesMeet(p1, p2, q1, q2);
    RootBetween(t, d, Side(p1, q1, q2));
    assert s * -d == Side(p1, p2, q1);
    RootBetween(s, -d, Side(p1, p2, q1));
  }

  // ----- convexity -----

  lemma Monotone(a: real, b: real, k: real)
    requires a <= b && k >= 0.0
    ensures a * k <= b * k
  {
  }

  lemma Negated(a: real, k: real)
    ensures a * -k == -(a * k)
  {
  }

  lemma ScaledBetween(d: real, lo: real, t: real, hi: real)
    requires lo <= t <= hi
    ensures Times(lo, d) <= Times(t, d) <= Times(hi, d) || Times(hi, d) <= Times(t, d) <= Times(lo, d)
  {
    if d >= 0.0 {
      Monotone(lo, t, d);
      Monotone(t, hi, d);
    } else {
      Monotone(lo, t, -d);
      Monotone(t, hi, -d);
      Negated(lo, d);
      Negated(t, d);
      Negated(hi, d);
    }
  }

  /** A coordinate that is within bounds at two parameters is so at every one between them. */
  lemma AlongWithin(a: real, b: real, lo: real, t: real, hi: real, least: real, most: real)
    requires lo <= t <= hi
    requires least <= Along(a, b, lo) <= most && least <= Along(a, b, hi) <= most
    ensures least <= Along(a, b, t) <= most
  {
    hide Times;
    ScaledBetween(b - a, lo, t, hi);
  }

  /** A line that is in the rectangle at two parameters is in it at every one between them. */
  lemma RectIsConvex(a: Point, b: Point, lo: real, t: real, hi: real, r: Rect)
    requires lo <= t <= hi && Inside(At(a, b, lo), r) && Inside(At(a, b, hi), r)
    ensures Inside(At(a, b, t), r)
  {
    hide Along;
    AlongWithin(a.x, b.x, lo, t, hi, r.x1, r.x2);
    AlongWithin(a.y, b.y, lo, t, hi, r.y1, r.y2);
  }

  lemma Ends(a: Point, b: Point)
    ensures At(a, b, 0.0) == a && At(a, b, 1.0) == b
  {
  }

  // ----- soundness -----

  lemma EdgeTouches(p1: Point, p2: Point, q1: Point, q2: Point, r: Rect)
    requires SegmentsCross(p1, p2, q1, q2) && Inside(q1, r) && Inside(q2, r)
    ensures Touches(p1, p2, r)
  {
    var t, s := CrossingSegmentsMeet(p1, p2, q1, q2);
    Ends(q1, q2);
    RectIsConvex(q1, q2, 0.0, s, 1.0, r);
  }

  /** The test never reports a segment that stays clear of the closed rectangle. */
  lemma HitTouchesHull(p1: Point, p2: Point, r: Rect)
    requires LineIntersectsRect(p1, p2, r)
    ensures Touches(p1, p2, Hull(r))
  {
    var h := Hull(r);
    var c0, c1, c2, c3 := Point(r.x1, r.y1), Point(r.x2, r.y1), Point(r.x2, r.y2), Point(r.x1, r.y2);
    Ends(p1, p2);
    if Inside(p1, r) {
      assert Inside(At(p1, p2, 0.0), h);
    } else if Inside(p2, r) {
      assert Inside(At(p1, p2, 1.0), h);
    } else if SegmentsCross(p1, p2, c0, c1) {
      EdgeTouches(p1, p2, c0, c1, h);
    } else if SegmentsCross(p1, p2, c1, c2) {
      EdgeTouches(p1, p2, c1, c2, h);
    } else if SegmentsCross(p1, p2, c2, c3) {
      EdgeTouches(p1, p2, c2, c3, h);
    } else {
      EdgeTouches(p1, p2, c3, c0, h);
    }
  }

  /** Nor one that does not span what the rectangle, as given, asks for: a rectangle the wrong way round has to be crossed in full. */
  lemma HitSpans(p1: Point, p2: Point, r: Rect)
    requires LineIntersectsRect(p1, p2, r)
    ensures (p1.x >= r.x1 || p2.x >= r.x1) && (p1.x <= r.x2 || p2.x <= r.x2)
    ensures (p1.y >= r.y1 || p2.y >= r.y1) && (p1.y <= r.y2 || p2.y <= r.y2)
  {
  }

  // ----- completeness -----

  /**
   A segment that starts and ends outside the rectangle, passes through a point of it, and
   whose line separates the ends of an edge, is reported at that edge.
   */
  lemma EdgeReports(p1: Point, p2: Point, t: real, q1: Point, q2: Point, r: Rect)
    requires 0.0 <= t <= 1.0 && Inside(At(p1, p2, t), r) && !Inside(p1, r) && !Inside(p2, r)
    requires Inside(q1, r) && Inside(q2, r) && Ccw(p1, p2, q1) != Ccw(p1, p2, q2)
    ensures SegmentsCross(p1, p2, q1, q2)
  {
    hide Inside, Side, Cross, Ccw, At;
    SideDifferences(p1, p2, q1, q2);
    CcwIsPositiveSide(p1, q1, q2);
    CcwIsPositiveSide(p2, q1, q2);
    CcwIsPositiveSide(p1, p2, q1);
    CcwIsPositiveSide(p1, p2, q2);
    var d := Cross(Minus(p2, p1), Minus(q2, q1));
    var e, s := LinesMeet(p1, p2, q1, q2);
    assert s * -d == Side(p1, p2, q1);
    RootBetween(s, -d, Side(p1, p2, q1));
    Ends(q1, q2);
    RectIsConvex(q1, q2, 0.0, s, 1.0, r);
    WithinEnds(p1, p2, t, e, r);
    OppositeSigns(e, d, Side(p1, q1, q2));
  }

  /** Between two outside ends, whatever part of the line is in the rectangle is in the segment. */
  lemma WithinEnds(p1: Point, p2: Point, t: real, e: real, r: Rect)
    requires 0.0 <= t <= 1.0 && Inside(At(p1, p2, t), r) && Inside(At(p1, p2, e), r)
    requires !Inside(p1, r) && !Inside(p2, r)
    ensures 0.0 < e < 1.0
  {
    hide Inside;
    Ends(p1, p2);
    if e <= 0.0 {
      RectIsConvex(p1, p2, e, 0.0, t, r);
    }
    if e >= 1.0 {
      RectIsConvex(p1, p2, t, 1.0, e, r);
    }
  }

  lemma OppositeSigns(e: real, d: real, f: real)
    requires 0.0 < e < 1.0 && e * d == f && d != 0.0
    ensures (f > 0.0) != (f - d > 0.0)
  {
    assert f - d == (e - 1.0) * d;
  }

  /** The side of the line through p1 and p2 changes linearly. */
  lemma SideChange(p1: Point, p2: Point, a: Point, c: Point)
    ensures Side(p1, p2, c) - Side(p1, p2, a) == (p2.x - p1.x) * (c.y - a.y) - (p2.y - p1.y) * (c.x - a.x)
  {
  }

  lemma SideOnLine(p1: Point, p2: Point, t: real)
    ensures Side(p1, p2, At(p1, p2, t)) == 0.0
  {
  }

  lemma Product(a: real, b: real)
    requires (a > 0.0 ==> b > 0.0) && (a < 0.0 ==> b < 0.0)
    ensures a * b >= 0.0 && (a != 0.0 ==> a * b > 0.0)
  {
  }

  /** The corner chosen by the direction of the line lies strictly to its left. */
  lemma CornerOnLeft(p1: Point, p2: Point, m: Point, c: Point)
    requires p1 != p2 && Side(p1, p2, m) == 0.0
    requires p2.x > p1.x ==> c.y > m.y
    requires p2.x < p1.x ==> c.y < m.y
    requires p2.y > p1.y ==> c.x < m.x
    requires p2.y < p1.y ==> c.x > m.x
    ensures Side(p1, p2, c) > 0.0
  {
    SideChange(p1, p2, m, c);
    Product(p2.x - p1.x, c.y - m.y);
    Product(p2.y - p1.y, m.x - c.x);
    assert (p2.y - p1.y) * (m.x - c.x) == -((p2.y - p1.y) * (c.x - m.x));
  }

  lemma SideReversed(p1: Point, p2: Point, c: Point)
    ensures Side(p2, p1, c) == -Side(p1, p2, c)
  {
  }

  /** A line through an interior point has a corner strictly to its left and one strictly to its right. */
  lemma LineSeparatesCorners(p1: Point, p2: Point, m: Point, r: Rect)
    requires p1 != p2 && Side(p1, p2, m) == 0.0 && StrictlyInside(m, r)
    ensures var c0, c1, c2, c3 := Point(r.x1, r.y1), Point(r.x2, r.y1), Point(r.x2, r.y2), Point(r.x1, r.y2);
            && (Ccw(p1, p2, c0) || Ccw(p1, p2, c1) || Ccw(p1, p2, c2) || Ccw(p1, p2, c3))
            && !(Ccw(p1, p2, c0) && Ccw(p1, p2, c1) && Ccw(p1, p2, c2) && Ccw(p1, p2, c3))
  {
    hide Side;
    var left := Point(if p2.y > p1.y then r.x1 else r.x2, if p2.x > p1.x then r.y2 else r.y1);
    var right := Point(if p2.y >= p1.y then r.x2 else r.x1, if p2.x >= p1.x then r.y1 else r.y2);
    CornerOnLeft(p1, p2, m, left);
    SideReversed(p1, p2, m);
    CornerOnLeft(p2, p1, m, right);
    SideReversed(p1, p2, right);
    CcwIsPositiveSide(p1, p2, left);
    CcwIsPositiveSide(p1, p2, right);
  }

  /** The test reports every segment that meets the open interior of the rectangle. */
  lemma EnteringIsHit(p1: Point, p2: Point, r: Rect)
    requires Enters(p1, p2, r)
    ensures LineIntersectsRect(p1, p2, r)
  {
    var t :| 0.0 <= t <= 1.0 && StrictlyInside(At(p1, p2, t), r);
    PointWithinBox(p1, p2, t);
    if !Inside(p1, r) && !Inside(p2, r) {
      var c0, c1, c2, c3 := Point(r.x1, r.y1), Point(r.x2, r.y1), Point(r.x2, r.y2), Point(r.x1, r.y2);
      SideOnLine(p1, p2, t);
      LineSeparatesCorners(p1, p2, At(p1, p2, t), r);
      if Ccw(p1, p2, c0) != Ccw(p1, p2, c1) {
        EdgeReports(p1, p2, t, c0, c1, r);
      } else if Ccw(p1, p2, c1) != Ccw(p1, p2, c2) {
        EdgeReports(p1, p2, t, c1, c2, r);
      } else {
        EdgeReports(p1, p2, t, c2, c3, r);
      }
    }
  }

  lemma PointWithinBox(p1: Point, p2: Point, t: real)
    requires 0.0 <= t <= 1.0
    ensures Min(p1.x, p2.x) <= At(p1, p2, t).x <= Max(p1.x, p2.x)
    ensures Min(p1.y, p2.y) <= At(p1, p2, t).y <= Max(p1.y, p2.y)
  {
    Ends(p1, p2);
    hide Along;
    AlongWithin(p1.x, p2.x, 0.0, t, 1.0, Min(p1.x, p2.x), Max(p1.x, p2.x));
    AlongWithin(p1.y, p2.y, 0.0, t, 1.0, Min(p1.y, p2.y), Max(p1.y, p2.y));
  }

  lemma TouchesBackwards(p1: Point, p2: Point, r: Rect)
    ensures Touches(p1, p2, r) ==> Touches(p2, p1, r)
    ensures Enters(p1, p2, r) ==> Enters(p2, p1, r)
  {
    if t :| 0.0 <= t <= 1.0 && Inside(At(p1, p2, t), r) {
      AtBackwards(p1, p2, t);
      assert Inside(At(p2, p1, 1.0 - t), r);
    }
    if t :| 0.0 <= t <= 1.0 && StrictlyInside(At(p1, p2, t), r) {
      AtBackwards(p1, p2, t);
      assert StrictlyInside(At(p2, p1, 1.0 - t), r);
    }
  }

  lemma AtBackwards(p1: Point, p2: Point, t: real)
    ensures At(p2, p1, 1.0 - t) == At(p1, p2, t)
  {
  }

  // ----- exactly which segments are reported -----

  /** Some corner of the rectangle lies strictly to the left of the line from p1 to p2. */
  predicate CornerLeft(p1: Point, p2: Point, r: Rect) {
    || Ccw(p1, p2, Point(r.x1, r.y1)) || Ccw(p1, p2, Point(r.x2, r.y1))
    || Ccw(p1, p2, Point(r.x2, r.y2)) || Ccw(p1, p2, Point(r.x1, r.y2))
  }

  /** A point of the rectangle is at least as far to the left as the corner chosen by the direction of the line. */
  lemma FarthestCorner(p1: Point, p2: Point, m: Point, r: Rect)
    requires Inside(m, r)
    ensures Side(p1, p2, Point(if p2.y >= p1.y then r.x2 else r.x1, if p2.x >= p1.x then r.y1 else r.y2)) <= Side(p1, p2, m)
  {
    var c := Point(if p2.y >= p1.y then r.x2 else r.x1, if p2.x >= p1.x then r.y1 else r.y2);
    SideChange(p1, p2, m, c);
    hide Side;
    WeakProduct(p2.x - p1.x, m.y - c.y);
    WeakProduct(p2.y - p1.y, c.x - m.x);
    assert (p2.x - p1.x) * (m.y - c.y) == -((p2.x - p1.x) * (c.y - m.y));
  }

  lemma WeakProduct(a: real, b: real)
    requires (a >= 0.0 && b >= 0.0) || (a <= 0.0 && b <= 0.0)
    ensures a * b >= 0.0
  {
  }

  /** A line that meets the rectangle does not leave all its corners strictly to the left. */
  lemma NotAllLeft(p1: Point, p2: Point, t: real, r: Rect)
    requires Inside(At(p1, p2, t), r)
    ensures !(Ccw(p1, p2, Point(r.x1, r.y1)) && Ccw(p1, p2, Point(r.x2, r.y1))
              && Ccw(p1, p2, Point(r.x2, r.y2)) && Ccw(p1, p2, Point(r.x1, r.y2)))
  {
    var c := Point(if p2.y >= p1.y then r.x2 else r.x1, if p2.x >= p1.x then r.y1 else r.y2);
    SideOnLine(p1, p2, t);
    FarthestCorner(p1, p2, At(p1, p2, t), r);
    CcwIsPositiveSide(p1, p2, c);
    hide Side, Ccw, At;
  }

  /** From outside to outside, a segment that touches is reported where its line separates two corners. */
  lemma OutsideEndsHit(p1: Point, p2: Point, t: real, r: Rect)
    requires 0.0 <= t <= 1.0 && Inside(At(p1, p2, t), r) && !Inside(p1, r) && !Inside(p2, r)
    requires r.x1 <= r.x2 && r.y1 <= r.y2 && CornerLeft(p1, p2, r)
    ensures CrossesEdge(p1, p2, r)
  {
    var c0, c1, c2, c3 := Point(r.x1, r.y1), Point(r.x2, r.y1), Point(r.x2, r.y2), Point(r.x1, r.y2);
    NotAllLeft(p1, p2, t, r);
    assert Inside(c0, r) && Inside(c1, r) && Inside(c2, r) && Inside(c3, r);
    hide Ccw, Inside, At, SegmentsCross;
    if Ccw(p1, p2, c0) != Ccw(p1, p2, c1) {
      EdgeReports(p1, p2, t, c0, c1, r);
    } else if Ccw(p1, p2, c1) != Ccw(p1, p2, c2) {
      EdgeReports(p1, p2, t, c1, c2, r);
    } else {
      EdgeReports(p1, p2, t, c2, c3, r);
    }
  }

  /**
   Exactly which segments are reported: those that touch the closed rectangle and have an end
   in it or leave a corner of it strictly to their left.
   */
  lemma HitIff(p1: Point, p2: Point, r: Rect)
    requires r.x1 <= r.x2 && r.y1 <= r.y2
    ensures LineIntersectsRect(p1, p2, r) <==>
              Touches(p1, p2, r) && (Inside(p1, r) || Inside(p2, r) || CornerLeft(p1, p2, r))
  {
    if LineIntersectsRect(p1, p2, r) {
      HitTouchesHull(p1, p2, r);
      assert Hull(r) == r;
    }
    if t :| 0.0 <= t <= 1.0 && Inside(At(p1, p2, t), r) {
      PointWithinBox(p1, p2, t);
      if !Inside(p1, r) && !Inside(p2, r) && CornerLeft(p1, p2, r) {
        OutsideEndsHit(p1, p2, t, r);
      }
    }
  }

  lemma NoCornerAside(p1: Point, p2: Point, r: Rect)
    requires r.x1 < r.x2 && r.y1 < r.y2 && p1 != p2
    ensures CornerLeft(p1, p2, r) || CornerLeft(p2, p1, r)
  {
    var c0, c1, c2, c3 := Point(r.x1, r.y1), Point(r.x2, r.y1), Point(r.x2, r.y2), Point(r.x1, r.y2);
    SideChange(p1, p2, c0, c1);
    SideChange(p1, p2, c1, c2);
    CcwIsPositiveSide(p1, p2, c0);
    CcwIsPositiveSide(p1, p2, c1);
    CcwIsPositiveSide(p1, p2, c2);
    CcwIsPositiveSide(p2, p1, c0);
    CcwIsPositiveSide(p2, p1, c1);
    CcwIsPositiveSide(p2, p1, c2);
    SideReversed(p1, p2, c0);
    SideReversed(p1, p2, c1);
    SideReversed(p1, p2, c2);
    hide Side, Ccw;
    if !CornerLeft(p1, p2, r) && !CornerLeft(p2, p1, r) {
      assert Side(p1, p2, c0) == Side(p1, p2, c1) == Side(p1, p2, c2) == 0.0;
      assert (p2.x - p1.x) * (c1.y - c0.y) == 0.0 && (p2.y - p1.y) * (c2.x - c1.x) == 0.0;
      ProductZero(p2.y - p1.y, r.x2 - r.x1);
      ProductZero(p2.x - p1.x, r.y2 - r.y1);
    }
  }

  /**
   Exactly when the answer depends on which end comes first: the segment touches the rectangle,
   has both ends outside, and its line does not have corners strictly on both sides.
   */
  lemma DirectionMattersIff(p1: Point, p2: Point, r: Rect)
    requires r.x1 < r.x2 && r.y1 < r.y2
    ensures LineIntersectsRect(p1, p2, r) != LineIntersectsRect(p2, p1, r) <==>
              && Touches(p1, p2, r) && !Inside(p1, r) && !Inside(p2, r)
              && !(CornerLeft(p1, p2, r) && CornerLeft(p2, p1, r))
  {
    HitIff(p1, p2, r);
    HitIff(p2, p1, r);
    TouchesBackwards(p1, p2, r);
    TouchesBackwards(p2, p1, r);
    if p1 != p2 {
      NoCornerAside(p1, p2, r);
    } else {
      TouchesItself(p1, r);
    }
    hide LineIntersectsRect, CornerLeft, Touches, Inside;
  }

  lemma TouchesItself(p: Point, r: Rect)
    ensures Touches(p, p, r) ==> Inside(p, r)
  {
    if t :| 0.0 <= t <= 1.0 && Inside(At(p, p, t), r) {
      assert At(p, p, t) == p;
    }
  }

  /** Only grazing does: a segment whose answer depends on its direction touches the rectangle without entering it. */
  lemma DirectionMattersOnlyWhenGrazing(p1: Point, p2: Point, r: Rect)
    requires LineIntersectsRect(p1, p2, r) != LineIntersectsRect(p2, p1, r)
    ensures Touches(p1, p2, Hull(r)) && !Enters(p1, p2, r)
  {
    if LineIntersectsRect(p1, p2, r) {
      HitTouchesHull(p1, p2, r);
    } else {
      HitTouchesHull(p2, p1, r);
      TouchesBackwards(p2, p1, Hull(r));
    }
    TouchesBackwards(p1, p2, r);
    hide LineIntersectsRect, Touches, Enters, Hull;
    if Enters(p1, p2, r) {
      EnteringIsHit(p1, p2, r);
      EnteringIsHit(p2, p1, r);
    }
  }

  /** On the boundary alone the answer may depend on which end of the stroke comes first. */
  lemma GrazingDependsOnDirection()
    ensures var r, a, b := Rect(0.0, 0.0, 1.0, 1.0), Point(-1.0, 0.0), Point(1.0, 2.0);
            LineIntersectsRect(b, a, r) && !LineIntersectsRect(a, b, r) && Touches(a, b, r)
  {
    var r, a, b := Rect(0.0, 0.0, 1.0, 1.0), Point(-1.0, 0.0), Point(1.0, 2.0);
    assert At(a, b, 0.5) == Point(0.0, 1.0);
  }

  // ----- the classification -----

  datatype Stroke = Stroke(p1: Point, p2: Point, thickness: real, confidence: real)

  /** What the stroke list may hold: a segment, a dictionary of coordinates, or something else. */
  datatype Item = Segment(stroke: Stroke) | Dictionary(values: map<string, real>) | Other

  datatype CancellationResult = CancellationResult(
    isCancelled: bool, isAmbiguous: bool, entryStatus: string, intersecting: seq<Stroke>)

  const VALID_ENTRY_STATUSES := {"unknown", "live", "cancelled", "superseded", "amended"}

  function Get(values: map<string, real>, key: string, default: real): real {
    if key in values then values[key] else default
  }

  function StrokeOf(item: Item): Option<Stroke> {
    match item
    case Segment(s) => Some(s)
    case Dictionary(v) =>
      Some(Stroke(Point(Get(v, "x1", 0.0), Get(v, "y1", 0.0)), Point(Get(v, "x2", 0.0), Get(v, "y2", 0.0)),
                  Get(v, "thickness", 1.0), Get(v, "confidence", 1.0)))
    case Other => None
  }

  function Box(bbox: map<string, real>): Rect {
    var x, y := Get(bbox, "x", 0.0), Get(bbox, "y", 0.0);
    Rect(x, y, x + Get(bbox, "w", 0.0), y + Get(bbox, "h", 0.0))
  }

  function Expanded(r: Rect, buffer: real): Rect {
    Rect(r.x1 - buffer, r.y1 - buffer, r.x2 + buffer, r.y2 + buffer)
  }

  predicate Hits(s: Stroke, r: Rect) {
    LineIntersectsRect(s.p1, s.p2, r)
  }

  function DirectHits(items: seq<Item>, box: Rect): seq<Stroke> {
    if items == [] then []
    else
      var s := StrokeOf(items[|items| - 1]);
      DirectHits(items[..|items| - 1], box) + if s.Some? && Hits(s.value, box) then [s.value] else []
  }

  /** The `elif`: only strokes that miss the box itself are tried against the expanded one. */
  function BufferHits(items: seq<Item>, box: Rect, buffer: real): seq<Stroke> {
    if items == [] then []
    else
      var s := StrokeOf(items[|items| - 1]);
      BufferHits(items[..|items| - 1], box, buffer) +
      if s.Some? && !Hits(s.value, box) && Hits(s.value, Expanded(box, buffer)) then [s.value] else []
  }

  function Verdict(bbox: Option<map<string, real>>, items: seq<Item>, currentStatus: string, buffer: real): CancellationResult {
    var status := if currentStatus in VALID_ENTRY_STATUSES then currentStatus else "unknown";
    if bbox.None? || bbox.value == map[] || items == [] then CancellationResult(false, false, status, [])
    else
      var direct := DirectHits(items, Box(bbox.value));
      var near := BufferHits(items, Box(bbox.value), buffer);
      if direct != [] then
        CancellationResult(true, false, if status != "superseded" then "cancelled" else "superseded", direct)
      else if near != [] then CancellationResult(false, true, "unknown", near)
      else CancellationResult(false, false, status, [])
  }

  // ----- what a classification says, in the terms of its input -----

  /** The value a dictionary has under a key, or the default. */
  predicate Holds(values: map<string, real>, key: string, default: real, v: real) {
    if key in values then v == values[key] else v == default
  }

  /** The stroke an item of the list stands for; other items stand for none. */
  predicate StandsFor(item: Item, s: Stroke) {
    match item
    case Segment(stroke) => s == stroke
    case Dictionary(v) =>
      && Holds(v, "x1", 0.0, s.p1.x) && Holds(v, "y1", 0.0, s.p1.y) && Holds(v, "x2", 0.0, s.p2.x) && Holds(v, "y2", 0.0, s.p2.y)
      && Holds(v, "thickness", 1.0, s.thickness) && Holds(v, "confidence", 1.0, s.confidence)
    case Other => false
  }

  /** The item is a stroke with a point strictly between these lines. */
  ghost predicate Crosses(item: Item, left: real, top: real, right: real, bottom: real) {
    exists s :: StandsFor(item, s) && Enters(s.p1, s.p2, Rect(left, top, right, bottom))
  }

  /** The item is a stroke of `strokes` with a point on or between these lines, in whichever order they are. */
  ghost predicate Reaches(item: Item, strokes: seq<Stroke>, left: real, top: real, right: real, bottom: real) {
    exists s :: StandsFor(item, s) && s in strokes
      && Touches(s.p1, s.p2, Rect(Min(left, right), Min(top, bottom), Max(left, right), Max(top, bottom)))
  }

  /** The item is a stroke that the exact condition reports for the rectangle. */
  ghost predicate Reported(item: Item, r: Rect) {
    exists s :: StandsFor(item, s) && Touches(s.p1, s.p2, r)
      && (Inside(s.p1, r) || Inside(s.p2, r) || CornerLeft(s.p1, s.p2, r))
  }

  /** The status that an entry keeps without a hit. */
  function KeptStatus(currentStatus: string): string {
    if currentStatus == "live" || currentStatus == "cancelled" || currentStatus == "superseded" || currentStatus == "amended"
    then currentStatus else "unknown"
  }

  /** What the result says of a box at (x, y) of width w and height h. */
  ghost predicate Classified(r: CancellationResult, items: seq<Item>, x: real, y: real, w: real, h: real,
                             currentStatus: string, buffer: real) {
    var b := buffer;
    && (forall i :: 0 <= i < |items| && Crosses(items[i], x, y, x + w, y + h) ==> r.isCancelled)
    && (forall i :: 0 <= i < |items| && Crosses(items[i], x - b, y - b, x + w + b, y + h + b) ==> r.isCancelled || r.isAmbiguous)
    && (r.isCancelled ==> exists i :: 0 <= i < |items| && Reaches(items[i], r.intersecting, x, y, x + w, y + h))
    && (r.isAmbiguous ==>
          exists i :: 0 <= i < |items| && Reaches(items[i], r.intersecting, x - b, y - b, x + w + b, y + h + b))
    && (w >= 0.0 && h >= 0.0 ==>
          (r.isCancelled <==> exists i :: 0 <= i < |items| && Reported(items[i], Rect(x, y, x + w, y + h))))
    && (w + 2.0 * b >= 0.0 && h + 2.0 * b >= 0.0 ==>
          (r.isCancelled || r.isAmbiguous <==>
             r.isCancelled || exists i :: 0 <= i < |items| && Reported(items[i], Rect(x - b, y - b, x + w + b, y + h + b))))
    && !(r.isCancelled && r.isAmbiguous)
    && (r.intersecting == [] <==> !r.isCancelled && !r.isAmbiguous)
    && (forall s :: s in r.intersecting ==> exists i :: 0 <= i < |items| && StandsFor(items[i], s))
    && r.entryStatus == (if r.isCancelled then if currentStatus == "superseded" then "superseded" else "cancelled"
                         else if r.isAmbiguous then "unknown" else KeptStatus(currentStatus))
  }

  /** `classify_entry_cancellation`. */
  method Classify(bbox: Option<map<string, real>>, items: seq<Item>, currentStatus: string, buffer: real)
    returns (r: CancellationResult)
    ensures r == Verdict(bbox, items, currentStatus, buffer)
    ensures bbox.None? || bbox.value == map[] ==> r == CancellationResult(false, false, KeptStatus(currentStatus), [])
    ensures forall x, y, w, h ::
              bbox.Some? && bbox.value != map[] && Holds(bbox.value, "x", 0.0, x) && Holds(bbox.value, "y", 0.0, y)
              && Holds(bbox.value, "w", 0.0, w) && Holds(bbox.value, "h", 0.0, h) ==>
                Classified(r, items, x, y, w, h, currentStatus, buffer)
  {
    forall x, y, w, h
      | bbox.Some? && bbox.value != map[] && Holds(bbox.value, "x", 0.0, x) && Holds(bbox.value, "y", 0.0, y)
        && Holds(bbox.value, "w", 0.0, w) && Holds(bbox.value, "h", 0.0, h)
      ensures Classified(Verdict(bbox, items, currentStatus, buffer), items, x, y, w, h, currentStatus, buffer)
    {
      VerdictIsGeometric(bbox.value, items, currentStatus, buffer, x, y, w, h);
    }
    hide LineIntersectsRect, Classified, Holds;
    var status := if currentStatus in VALID_ENTRY_STATUSES then currentStatus else "unknown";
    if bbox.None? || bbox.value == map[] || items == [] {
      return CancellationResult(false, false, status, []);
    }
    var box := Box(bbox.value);
    var buffered := Expanded(box, buffer);
    var directHits, bufferHits: seq<Stroke> := [], [];
    for i := 0 to |items|
      invariant directHits == DirectHits(items[..i], box)
      invariant bufferHits == BufferHits(items[..i], box, buffer)
    {
      assert items[..i + 1][..i] == items[..i];
      var stroke := StrokeOf(items[i]);
      if stroke.None? {
        continue;
      }
      if Hits(stroke.value, box) {
        directHits := directHits + [stroke.value];
      } else if Hits(stroke.value, buffered) {
        bufferHits := bufferHits + [stroke.value];
      }
    }
    assert items[..|items|] == items;
    if directHits != [] {
      return CancellationResult(true, false, if status != "superseded" then "cancelled" else "superseded", directHits);
    }
    if bufferHits != [] {
      return CancellationResult(false, true, "unknown", bufferHits);
    }
    return CancellationResult(false, false, status, []);
  }

  lemma {:induction false} HitsAreFound(items: seq<Item>, box: Rect, buffer: real, s: Stroke)
    ensures s in DirectHits(items, box) <==> Hits(s, box) && exists i :: 0 <= i < |items| && StrokeOf(items[i]) == Some(s)
    ensures s in BufferHits(items, box, buffer) <==>
              !Hits(s, box) && Hits(s, Expanded(box, buffer)) && exists i :: 0 <= i < |items| && StrokeOf(items[i]) == Some(s)
  {
    hide LineIntersectsRect;
    if items != [] {
      var n := |items| - 1;
      HitsAreFound(items[..n], box, buffer, s);
      assert (exists i :: 0 <= i < |items| && StrokeOf(items[i]) == Some(s)) <==>
             (StrokeOf(items[n]) == Some(s) || exists i :: 0 <= i < n && StrokeOf(items[..n][i]) == Some(s)) by {
        if i :| 0 <= i < n && StrokeOf(items[..n][i]) == Some(s) {
          assert StrokeOf(items[i]) == Some(s);
        }
        if i :| 0 <= i < n && StrokeOf(items[i]) == Some(s) {
          assert StrokeOf(items[..n][i]) == Some(s);
        }
      }
    }
  }

  /** The direct hits stand in the list's order, each item once. */
  lemma {:induction false} DirectHitsInOrder(items: seq<Item>, box: Rect) returns (at: seq<nat>)
    ensures |at| == |DirectHits(items, box)| && forall j, k :: 0 <= j < k < |at| ==> at[j] < at[k]
    ensures forall k :: 0 <= k < |at| ==> at[k] < |items| && StrokeOf(items[at[k]]) == Some(DirectHits(items, box)[k])
    ensures forall i: nat :: i in at <==> i < |items| && StrokeOf(items[i]).Some? && Hits(StrokeOf(items[i]).value, box)
  {
    hide Hits, StrokeOf;
    if items == [] {
      at := [];
    } else {
      var n := |items| - 1;
      at := DirectHitsInOrder(items[..n], box);
      if StrokeOf(items[n]).Some? && Hits(StrokeOf(items[n]).value, box) {
        at := at + [n];
      }
    }
  }

  /** So do the strokes that hit the expanded box only. */
  lemma {:induction false} BufferHitsInOrder(items: seq<Item>, box: Rect, buffer: real) returns (at: seq<nat>)
    ensures |at| == |BufferHits(items, box, buffer)| && forall j, k :: 0 <= j < k < |at| ==> at[j] < at[k]
    ensures forall k :: 0 <= k < |at| ==> at[k] < |items| && StrokeOf(items[at[k]]) == Some(BufferHits(items, box, buffer)[k])
    ensures forall i: nat :: i in at <==> i < |items| && StrokeOf(items[i]).Some? && !Hits(StrokeOf(items[i]).value, box)
                                          && Hits(StrokeOf(items[i]).value, Expanded(box, buffer))
  {
    hide Hits, StrokeOf, Expanded;
    if items == [] {
      at := [];
    } else {
      var n := |items| - 1;
      at := BufferHitsInOrder(items[..n], box, buffer);
      var s := StrokeOf(items[n]);
      if s.Some? && !Hits(s.value, box) && Hits(s.value, Expanded(box, buffer)) {
        at := at + [n];
      }
    }
  }

  /** With a buffer, whatever hits the box also hits the expanded box: the `elif` hides no hit. */
  lemma DirectHitIsBufferHit(s: Stroke, box: Rect, buffer: real)
    requires box.x1 <= box.x2 && box.y1 <= box.y2 && buffer > 0.0 && Hits(s, box)
    ensures Hits(s, Expanded(box, buffer))
  {
    HitTouchesHull(s.p1, s.p2, box);
    var t :| 0.0 <= t <= 1.0 && Inside(At(s.p1, s.p2, t), Hull(box));
    assert StrictlyInside(At(s.p1, s.p2, t), Expanded(box, buffer));
    EnteringIsHit(s.p1, s.p2, Expanded(box, buffer));
  }

  lemma StrokeStandsFor(item: Item, s: Stroke)
    ensures StrokeOf(item) == Some(s) <==> StandsFor(item, s)
  {
  }

  lemma BoxIs(bbox: map<string, real>, x: real, y: real, w: real, h: real)
    requires Holds(bbox, "x", 0.0, x) && Holds(bbox, "y", 0.0, y) && Holds(bbox, "w", 0.0, w) && Holds(bbox, "h", 0.0, h)
    ensures Box(bbox) == Rect(x, y, x + w, y + h)
  {
  }

  lemma WidenedIs(x: real, y: real, w: real, h: real, b: real)
    ensures Expanded(Rect(x, y, x + w, y + h), b) == Rect(x - b, y - b, x + w + b, y + h + b)
    ensures w + 2.0 * b >= 0.0 <==> x - b <= x + w + b
    ensures h + 2.0 * b >= 0.0 <==> y - b <= y + h + b
  {
  }

  /** A stroke that hits reaches, one that crosses hits, and for a rectangle the right way round exactly the reported ones hit. */
  lemma HitMeans(item: Item, s: Stroke, strokes: seq<Stroke>, r: Rect)
    requires StrokeOf(item) == Some(s)
    ensures Hits(s, r) && s in strokes ==> Reaches(item, strokes, r.x1, r.y1, r.x2, r.y2)
    ensures Crosses(item, r.x1, r.y1, r.x2, r.y2) ==> Hits(s, r)
    ensures r.x1 <= r.x2 && r.y1 <= r.y2 ==> (Reported(item, r) <==> Hits(s, r))
  {
    StrokeStandsFor(item, s);
    assert Hull(r) == Rect(Min(r.x1, r.x2), Min(r.y1, r.y2), Max(r.x1, r.x2), Max(r.y1, r.y2));
    assert Rect(r.x1, r.y1, r.x2, r.y2) == r;
    if Hits(s, r) {
      HitTouchesHull(s.p1, s.p2, r);
    }
    if Enters(s.p1, s.p2, r) {
      EnteringIsHit(s.p1, s.p2, r);
    }
    if r.x1 <= r.x2 && r.y1 <= r.y2 {
      HitIff(s.p1, s.p2, r);
    }
    forall u | StandsFor(item, u) ensures u == s {
      StrokeStandsFor(item, u);
    }
    hide LineIntersectsRect, Touches, Enters, Inside, CornerLeft, StandsFor;
  }

  /** No stroke, no hit. */
  lemma NoStroke(item: Item, strokes: seq<Stroke>, r: Rect)
    requires StrokeOf(item).None?
    ensures !Reaches(item, strokes, r.x1, r.y1, r.x2, r.y2) && !Crosses(item, r.x1, r.y1, r.x2, r.y2) && !Reported(item, r)
  {
    hide Touches, Enters, Inside, CornerLeft;
  }

  /** Some item of the list is a stroke that hits. */
  ghost predicate SomeHit(items: seq<Item>, r: Rect) {
    exists i :: 0 <= i < |items| && StrokeOf(items[i]).Some? && Hits(StrokeOf(items[i]).value, r)
  }

  lemma ListsFound(items: seq<Item>, box: Rect, buffer: real)
    ensures DirectHits(items, box) != [] <==> SomeHit(items, box)
    ensures DirectHits(items, box) != [] || BufferHits(items, box, buffer) != []
            <==> DirectHits(items, box) != [] || SomeHit(items, Expanded(box, buffer))
  {
    hide Hits, StrokeOf, Expanded;
    if DirectHits(items, box) != [] {
      HitsAreFound(items, box, buffer, DirectHits(items, box)[0]);
    }
    if BufferHits(items, box, buffer) != [] {
      HitsAreFound(items, box, buffer, BufferHits(items, box, buffer)[0]);
    }
    if SomeHit(items, box) {
      var i :| 0 <= i < |items| && StrokeOf(items[i]).Some? && Hits(StrokeOf(items[i]).value, box);
      HitsAreFound(items, box, buffer, StrokeOf(items[i]).value);
    }
    if SomeHit(items, Expanded(box, buffer)) {
      var i :| 0 <= i < |items| && StrokeOf(items[i]).Some? && Hits(StrokeOf(items[i]).value, Expanded(box, buffer));
      HitsAreFound(items, box, buffer, StrokeOf(items[i]).value);
    }
  }

  /** The hits of the list, seen as strokes of the page. */
  lemma SomeHitMeans(items: seq<Item>, strokes: seq<Stroke>, r: Rect)
    ensures forall i :: 0 <= i < |items| && Crosses(items[i], r.x1, r.y1, r.x2, r.y2) ==> SomeHit(items, r)
    ensures r.x1 <= r.x2 && r.y1 <= r.y2 ==> (SomeHit(items, r) <==> exists i :: 0 <= i < |items| && Reported(items[i], r))
  {
    forall i | 0 <= i < |items|
      ensures Crosses(items[i], r.x1, r.y1, r.x2, r.y2) ==> SomeHit(items, r)
      ensures r.x1 <= r.x2 && r.y1 <= r.y2 ==>
                (Reported(items[i], r) <==> StrokeOf(items[i]).Some? && Hits(StrokeOf(items[i]).value, r))
    {
      if StrokeOf(items[i]).Some? {
        HitMeans(items[i], StrokeOf(items[i]).value, strokes, r);
      } else {
        NoStroke(items[i], strokes, r);
      }
    }
    hide Crosses, Reported, Hits, StrokeOf;
  }

  /** Each stroke of a hit list is that of an item, and reaches. */
  lemma HitsReach(items: seq<Item>, box: Rect, buffer: real, strokes: seq<Stroke>, r: Rect)
    requires (strokes == DirectHits(items, box) && r == box)
             || (strokes == BufferHits(items, box, buffer) && r == Expanded(box, buffer))
    ensures forall s :: s in strokes ==> exists i :: 0 <= i < |items| && StandsFor(items[i], s)
    ensures strokes != [] ==> exists i :: 0 <= i < |items| && Reaches(items[i], strokes, r.x1, r.y1, r.x2, r.y2)
  {
    forall s | s in strokes
      ensures exists i :: 0 <= i < |items| && StandsFor(items[i], s) && Reaches(items[i], strokes, r.x1, r.y1, r.x2, r.y2)
    {
      HitsAreFound(items, box, buffer, s);
      var i :| 0 <= i < |items| && StrokeOf(items[i]) == Some(s);
      StrokeStandsFor(items[i], s);
      HitMeans(items[i], s, strokes, r);
      hide Reaches, StandsFor, Hits, StrokeOf;
    }
    if strokes != [] {
      assert strokes[0] in strokes;
    }
  }

  /**
   What the classification promises of a box at (x, y) of width w and height h. It cancels for
   every stroke with a point inside, and only for one that touches; exactly for those of the
   exact condition when the box is the right way round. When it raises no flag, no stroke has
   a point inside the box widened by the buffer. It never turns another status into "live".
   */
  lemma VerdictIsGeometric(bbox: map<string, real>, items: seq<Item>, currentStatus: string, buffer: real,
                           x: real, y: real, w: real, h: real)
    requires bbox != map[]
    requires Holds(bbox, "x", 0.0, x) && Holds(bbox, "y", 0.0, y) && Holds(bbox, "w", 0.0, w) && Holds(bbox, "h", 0.0, h)
    ensures Classified(Verdict(Some(bbox), items, currentStatus, buffer), items, x, y, w, h, currentStatus, buffer)
  {
    hide DirectHits, BufferHits, Crosses, Reported, Reaches, StandsFor, SomeHit, Box, Expanded, Holds;
    var r, box, wide := Verdict(Some(bbox), items, currentStatus, buffer), Box(bbox), Expanded(Box(bbox), buffer);
    BoxIs(bbox, x, y, w, h);
    WidenedIs(x, y, w, h, buffer);
    ListsFound(items, box, buffer);
    SomeHitMeans(items, [], box);
    SomeHitMeans(items, [], wide);
    HitsReach(items, box, buffer, DirectHits(items, box), box);
    HitsReach(items, box, buffer, BufferHits(items, box, buffer), wide);
  }
}
