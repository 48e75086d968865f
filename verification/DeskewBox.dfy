/**
 * A recorded box taken back through the deskew rotation
 * (services/backend/src/backend/domain/preprocessing.py:53-68, services/backend/src/backend/domain/provenance.py:134-155),
 * over real numbers. The cosine and the sine of the recorded angle are parameters.
 */
module DeskewBox {

  import opened Plane
  import opened Wrappers

  datatype Size = Size(width: int, height: int)

  datatype Transform = Transform(cos: real, sin: real, originalSize: Size, processedSize: Size)

  datatype Box = Box(x: real, y: real, w: real, h: real)

  predicate Rotation(t: Transform) {
    t.cos * t.cos + t.sin * t.sin == 1.0
  }

  function Centre(s: Size): Point {
    Point(s.width as real / 2.0, s.height as real / 2.0)
  }

  /** `map_point_to_original`: each side turns about its own centre. */
  function MapPoint(t: Transform, p: Point): Point {
    var from, to := Centre(t.processedSize), Centre(t.originalSize);
    var dx, dy := p.x - from.x, p.y - from.y;
    Point(dx * t.cos - dy * t.sin + to.x, dx * t.sin + dy * t.cos + to.y)
  }

  function MinOf(xs: seq<real>): real
    requires xs != []
  {
    if |xs| == 1 then xs[0] else Min(MinOf(xs[..|xs| - 1]), xs[|xs| - 1])
  }

  function MaxOf(xs: seq<real>): real
    requires xs != []
  {
    if |xs| == 1 then xs[0] else Max(MaxOf(xs[..|xs| - 1]), xs[|xs| - 1])
  }

  function Corners(b: Box): seq<Point> {
    [Point(b.x, b.y), Point(b.x + b.w, b.y), Point(b.x, b.y + b.h), Point(b.x + b.w, b.y + b.h)]
  }

  function BoxAround(ps: seq<Point>): Box
    requires ps != []
  {
    var xs := seq(|ps|, i requires 0 <= i < |ps| => ps[i].x);
    var ys := seq(|ps|, i requires 0 <= i < |ps| => ps[i].y);
    Box(MinOf(xs), MinOf(ys), MaxOf(xs) - MinOf(xs), MaxOf(ys) - MinOf(ys))
  }

  function MapBox(t: Transform, b: Box): Box {
    var cs := Corners(b);
    BoxAround(seq(4, i requires 0 <= i < 4 => MapPoint(t, cs[i])))
  }

  /** `original_bbox_for`: nothing to map without a box or without a recorded rotation. */
  function OriginalBox(bbox: Option<Box>, deskew: Option<Transform>): Option<Box> {
    if bbox.None? || deskew.None? then None else Some(MapBox(deskew.value, bbox.value))
  }

  // ----- the size of the result -----

  lemma {:induction false} MinOfFour(a: real, b: real, c: real, d: real)
    ensures MinOf([a, b, c, d]) == Min(Min(a, b), Min(c, d))
    ensures MaxOf([a, b, c, d]) == Max(Max(a, b), Max(c, d))
  {
    var two, three, four := [a, b], [a, b, c], [a, b, c, d];
    assert two[..1] == [a] && three[..2] == two && four[..3] == three;
    assert MinOf(two) == Min(a, b) && MaxOf(two) == Max(a, b);
    assert MinOf(three) == Min(MinOf(two), c) && MaxOf(three) == Max(MaxOf(two), c);
    assert MinOf(four) == Min(MinOf(three), d) && MaxOf(four) == Max(MaxOf(three), d);
  }

  /** The least and the greatest of four values: v, and v after one step, the other, or both. */
  function Lo(v: real, p: real, q: real): real {
    Min(Min(v, v + p), Min(v + q, v + p + q))
  }

  function Hi(v: real, p: real, q: real): real {
    Max(Max(v, v + p), Max(v + q, v + p + q))
  }

  /** They lie |p| + |q| apart, evenly about the middle of the four. */
  lemma Span(v: real, p: real, q: real)
    ensures Hi(v, p, q) - Lo(v, p, q) == Abs(p) + Abs(q) && Lo(v, p, q) + Hi(v, p, q) == 2.0 * v + p + q
  {
  }

  /** Where a point goes that lies off another by given distances. */
  lemma Shifted(t: Transform, p: Point, dx: real, dy: real)
    ensures var m := MapPoint(t, p);
            MapPoint(t, Point(p.x + dx, p.y + dy)) == Point(m.x + dx * t.cos - dy * t.sin, m.y + dx * t.sin + dy * t.cos)
  {
  }

  /** Where the corners of a box go: from the first, by the turned width, the turned height, or both. */
  lemma CornersMapped(t: Transform, b: Box)
    ensures var m, cs := MapPoint(t, Point(b.x, b.y)), Corners(b);
            && MapPoint(t, cs[1]) == Point(m.x + b.w * t.cos, m.y + b.w * t.sin)
            && MapPoint(t, cs[2]) == Point(m.x - b.h * t.sin, m.y + b.h * t.cos)
            && MapPoint(t, cs[3]) == Point(m.x + b.w * t.cos - b.h * t.sin, m.y + b.w * t.sin + b.h * t.cos)
  {
    hide MapPoint;
    var p := Point(b.x, b.y);
    Shifted(t, p, b.w, 0.0);
    Shifted(t, p, 0.0, b.h);
    Shifted(t, p, b.w, b.h);
  }

  /** Centre goes to centre, and what lies off it turns: a step to the right by the angle, a step down by a right angle more. */
  lemma TurnsAboutCentres(t: Transform, dx: real, dy: real)
    ensures var (pw, ph, ow, oh) := (t.processedSize.width as real, t.processedSize.height as real,
                                     t.originalSize.width as real, t.originalSize.height as real);
            && MapPoint(t, Point(pw / 2.0, ph / 2.0)) == Point(ow / 2.0, oh / 2.0)
            && MapPoint(t, Point(pw / 2.0 + dx, ph / 2.0 + dy)) ==
                 Point(ow / 2.0 + dx * t.cos - dy * t.sin, oh / 2.0 + dx * t.sin + dy * t.cos)
  {
    Shifted(t, Centre(t.processedSize), dx, dy);
  }

  function Middle(b: Box): Point {
    Point(b.x + b.w / 2.0, b.y + b.h / 2.0)
  }

  lemma MapBoxEdges(t: Transform, b: Box)
    ensures var m, r := MapPoint(t, Point(b.x, b.y)), MapBox(t, b);
            && r.x == Lo(m.x, b.w * t.cos, -(b.h * t.sin)) && r.x + r.w == Hi(m.x, b.w * t.cos, -(b.h * t.sin))
            && r.y == Lo(m.y, b.w * t.sin, b.h * t.cos) && r.y + r.h == Hi(m.y, b.w * t.sin, b.h * t.cos)
  {
    var cs := Corners(b);
    var ps := seq(4, i requires 0 <= i < 4 => MapPoint(t, cs[i]));
    var xs := seq(|ps|, i requires 0 <= i < |ps| => ps[i].x);
    var ys := seq(|ps|, i requires 0 <= i < |ps| => ps[i].y);
    CornersMapped(t, b);
    hide MapPoint, MinOf, MaxOf;
    assert xs == [ps[0].x, ps[1].x, ps[2].x, ps[3].x] && ys == [ps[0].y, ps[1].y, ps[2].y, ps[3].y];
    MinOfFour(ps[0].x, ps[1].x, ps[2].x, ps[3].x);
    MinOfFour(ps[0].y, ps[1].y, ps[2].y, ps[3].y);
  }

  lemma MiddleMapped(t: Transform, b: Box)
    ensures var m, r := MapPoint(t, Point(b.x, b.y)), MapPoint(t, Middle(b));
            && 2.0 * r.x == 2.0 * m.x + b.w * t.cos + -(b.h * t.sin)
            && 2.0 * r.y == 2.0 * m.y + b.w * t.sin + b.h * t.cos
  {
  }

  /** The result is the one box of this size about this point. */
  lemma MapBoxIs(t: Transform, b: Box)
    ensures var r := MapBox(t, b);
            && r.w == Abs(b.w * t.cos) + Abs(b.h * t.sin)
            && r.h == Abs(b.w * t.sin) + Abs(b.h * t.cos)
            && Middle(r) == MapPoint(t, Middle(b))
  {
    var m := MapPoint(t, Point(b.x, b.y));
    MapBoxEdges(t, b);
    MiddleMapped(t, b);
    hide MapBox, MapPoint, Lo, Hi;
    Span(m.x, b.w * t.cos, -(b.h * t.sin));
    Span(m.y, b.w * t.sin, b.h * t.cos);
  }

  // ----- what the result contains -----

  /** The point of a box at the fractions a and b of its sides. */
  function At(box: Box, a: real, b: real): Point {
    Point(box.x + a * box.w, box.y + b * box.h)
  }

  predicate Fraction(a: real) {
    0.0 <= a <= 1.0
  }

  predicate Contains(box: Box, p: Point) {
    box.x <= p.x <= box.x + box.w && box.y <= p.y <= box.y + box.h
  }

  /** The inside of a box with sides that are not negative is exactly what the fractions reach. */
  lemma AtIsInside(box: Box, p: Point) returns (a: real, b: real)
    requires box.w >= 0.0 && box.h >= 0.0 && Contains(box, p)
    ensures Fraction(a) && Fraction(b) && p == At(box, a, b)
  {
    a := if box.w == 0.0 then 0.0 else (p.x - box.x) / box.w;
    b := if box.h == 0.0 then 0.0 else (p.y - box.y) / box.h;
  }

  lemma Scaled(a: real, p: real)
    requires Fraction(a)
    ensures Min(0.0, p) <= a * p <= Max(0.0, p)
  {
  }

  /** Values reached by fractions of two steps lie between the values at the corners. */
  lemma Reached(v: real, p: real, q: real, a: real, b: real)
    requires Fraction(a) && Fraction(b)
    ensures Lo(v, p, q) <= v + a * p + b * q <= Hi(v, p, q)
  {
    Scaled(a, p);
    Scaled(b, q);
  }

  lemma AtMapped(t: Transform, box: Box, a: real, b: real)
    ensures var m, r := MapPoint(t, Point(box.x, box.y)), MapPoint(t, At(box, a, b));
            && r.x == m.x + a * (box.w * t.cos) + b * -(box.h * t.sin)
            && r.y == m.y + a * (box.w * t.sin) + b * (box.h * t.cos)
  {
  }

  /** The returned box contains the image of every point of the recorded one, whatever the sign of its sides. */
  lemma ContainsImages(t: Transform, box: Box, a: real, b: real)
    requires Fraction(a) && Fraction(b)
    ensures Contains(MapBox(t, box), MapPoint(t, At(box, a, b)))
  {
    var m := MapPoint(t, Point(box.x, box.y));
    MapBoxEdges(t, box);
    AtMapped(t, box, a, b);
    hide MapBox, MapPoint, At, Lo, Hi;
    Reached(m.x, box.w * t.cos, -(box.h * t.sin), a, b);
    Reached(m.y, box.w * t.sin, box.h * t.cos, a, b);
  }

  predicate InsideOf(inner: Box, outer: Box) {
    && outer.x <= inner.x && inner.x + inner.w <= outer.x + outer.w
    && outer.y <= inner.y && inner.y + inner.h <= outer.y + outer.h
  }

  /** It is the smallest: any upright box with the image of every point in it contains the returned one. */
  lemma SmallestBox(t: Transform, box: Box, outer: Box)
    requires forall a: real, b: real :: Fraction(a) && Fraction(b) ==> Contains(outer, MapPoint(t, At(box, a, b)))
    ensures InsideOf(MapBox(t, box), outer)
  {
    var cs := Corners(box);
    assert At(box, 0.0, 0.0) == cs[0] && At(box, 1.0, 0.0) == cs[1];
    assert At(box, 0.0, 1.0) == cs[2] && At(box, 1.0, 1.0) == cs[3];
    assert Fraction(0.0) && Fraction(1.0);
    CornersMapped(t, box);
    MapBoxEdges(t, box);
    hide MapBox, MapPoint, At;
  }

  // ----- the inverse -----

  /** The opposite rotation, from the original back to the processed image. */
  function Inverse(t: Transform): Transform {
    Transform(t.cos, -t.sin, t.processedSize, t.originalSize)
  }

  lemma Unturn(c: real, s: real, x: real, y: real)
    requires c * c + s * s == 1.0
    ensures (x * c - y * s) * c + (x * s + y * c) * s == x
    ensures (x * s + y * c) * c - (x * c - y * s) * s == y
  {
    calc {
      (x * c - y * s) * c + (x * s + y * c) * s;
      x * (c * c + s * s);
      x;
    }
    calc {
      (x * s + y * c) * c - (x * c - y * s) * s;
      y * (c * c + s * s);
      y;
    }
  }

  lemma InverseUndoes(t: Transform, p: Point)
    requires Rotation(t)
    ensures MapPoint(Inverse(t), MapPoint(t, p)) == p
    ensures MapPoint(t, MapPoint(Inverse(t), p)) == p
  {
    UndoneBy(t, p);
    UndoneBy(Inverse(t), p);
    assert Inverse(Inverse(t)) == t;
  }

  lemma AboutCentre(t: Transform, dx: real, dy: real)
    ensures var from, to := Centre(t.processedSize), Centre(t.originalSize);
            MapPoint(t, Point(from.x + dx, from.y + dy))
              == Point(to.x + (dx * t.cos - dy * t.sin), to.y + (dx * t.sin + dy * t.cos))
  {
  }

  lemma UndoneBy(t: Transform, p: Point)
    requires Rotation(t)
    ensures MapPoint(Inverse(t), MapPoint(t, p)) == p
  {
    hide MapPoint, Centre;
    var from := Centre(t.processedSize);
    var dx, dy := p.x - from.x, p.y - from.y;
    var x, y := dx * t.cos - dy * t.sin, dx * t.sin + dy * t.cos;
    assert p == Point(from.x + dx, from.y + dy);
    AboutCentre(t, dx, dy);
    AboutCentre(Inverse(t), x, y);
    OppositeSign(x, t.sin);
    OppositeSign(y, t.sin);
    Unturn(t.cos, t.sin, dx, dy);
    assert x * t.cos - y * -t.sin == dx && x * -t.sin + y * t.cos == dy;
  }

  lemma OppositeSign(x: real, s: real)
    ensures x * -s == -(x * s)
  {
  }

  /** Distances survive the mapping, so a crop of the original shows the same shape. */
  lemma DistancesKept(t: Transform, p: Point, q: Point)
    requires Rotation(t)
    ensures var m, n := MapPoint(t, p), MapPoint(t, q);
            (m.x - n.x) * (m.x - n.x) + (m.y - n.y) * (m.y - n.y)
              == (p.x - q.x) * (p.x - q.x) + (p.y - q.y) * (p.y - q.y)
  {
    var m, n, dx, dy := MapPoint(t, p), MapPoint(t, q), p.x - q.x, p.y - q.y;
    assert m.x - n.x == dx * t.cos - dy * t.sin && m.y - n.y == dx * t.sin + dy * t.cos;
    calc {
      (dx * t.cos - dy * t.sin) * (dx * t.cos - dy * t.sin) + (dx * t.sin + dy * t.cos) * (dx * t.sin + dy * t.cos);
      (dx * dx + dy * dy) * (t.cos * t.cos + t.sin * t.sin);
      dx * dx + dy * dy;
    }
  }

  /** Taking the returned box forward again loses nothing of the recorded one. */
  lemma ThereAndBackContains(t: Transform, box: Box, p: Point)
    requires Rotation(t) && box.w >= 0.0 && box.h >= 0.0 && Contains(box, p)
    ensures Contains(MapBox(Inverse(t), MapBox(t, box)), p)
  {
    var there := MapBox(t, box);
    var a, b := AtIsInside(box, p);
    ContainsImages(t, box, a, b);
    MapBoxIs(t, box);
    hide MapBox, MapPoint, At;
    var u, v := AtIsInside(there, MapPoint(t, p));
    ContainsImages(Inverse(t), there, u, v);
    InverseUndoes(t, p);
  }

  /** `original_bbox_for` answers when there is a box and a recorded rotation, and then with the tight box. */
  lemma OriginalBoxIsTight(bbox: Option<Box>, deskew: Option<Transform>, a: real, b: real)
    requires Fraction(a) && Fraction(b)
    ensures var r := OriginalBox(bbox, deskew);
            if bbox.Some? && deskew.Some? then
              r.Some? && Contains(r.value, MapPoint(deskew.value, At(bbox.value, a, b)))
              && r.value.w == Abs(bbox.value.w * deskew.value.cos) + Abs(bbox.value.h * deskew.value.sin)
              && r.value.h == Abs(bbox.value.w * deskew.value.sin) + Abs(bbox.value.h * deskew.value.cos)
            else r.None?
  {
    hide MapBox, MapPoint, At, Contains;
    if bbox.Some? && deskew.Some? {
      ContainsImages(deskew.value, bbox.value, a, b);
      MapBoxIs(deskew.value, bbox.value);
    }
  }
}
