/** The planar area of a ring (services/extraction/src/extraction/domain/vectorize.py:437-445), over real numbers. */
module Shoelace {
  import opened Plane

  function Term(p: Point, q: Point): real {
    p.x * q.y - q.x * p.y
  }

  /** The signed sum the loop accumulates: over consecutive points, with no closing term of its own. */
  function Signed(path: seq<Point>): real {
    if |path| <= 1 then 0.0
    else Signed(path[..|path| - 1]) + Term(path[|path| - 2], path[|path| - 1])
  }

  function AreaOf(path: seq<Point>): real {
    Abs(Signed(path)) / 2.0
  }

  predicate Closed(ring: seq<Point>) {
    ring != [] && ring[0] == ring[|ring| - 1]
  }

  /** `_shoelace_area`. */
  method Area(coords: seq<Point>) returns (area: real)
    ensures area == AreaOf(coords)
  {
    var sum, i, n := 0.0, 0, |coords|;
    while i < n - 1
      invariant i <= n && (n > 0 ==> i < n)
      invariant sum == Signed(if n == 0 then [] else coords[..i + 1])
    {
      assert coords[..i + 2][..i + 1] == coords[..i + 1];
      sum := sum + (coords[i].x * coords[i + 1].y - coords[i + 1].x * coords[i].y);
      i := i + 1;
    }
    assert n > 0 ==> coords[..n] == coords;
    area := (if sum >= 0.0 then sum else -sum) / 2.0;
  }

  // ----- paths -----

  /** The sum over a path splits at any vertex of it. */
  lemma {:induction false} SplitAt(path: seq<Point>, k: nat)
    requires k < |path|
    ensures Signed(path) == Signed(path[..k + 1]) + Signed(path[k..])
    decreases |path|
  {
    var n := |path| - 1;
    if k == n {
      assert path[..k + 1] == path;
    } else {
      SplitAt(path[..n], k);
      assert path[..n][..k + 1] == path[..k + 1];
      assert path[k..][..n - k] == path[..n][k..];
      assert path[k..][|path[k..]| - 2] == path[n - 1] && path[k..][|path[k..]| - 1] == path[n];
    }
  }

  /** Two paths that meet at a vertex. */
  lemma JoinAt(a: seq<Point>, b: seq<Point>)
    requires a != [] && b != [] && a[|a| - 1] == b[0]
    ensures Signed(a + b[1..]) == Signed(a) + Signed(b)
  {
    var path := a + b[1..];
    SplitAt(path, |a| - 1);
    assert path[..|a|] == a && path[|a| - 1..] == b;
  }

  lemma Step(p: Point, q: Point)
    ensures Signed([p, q]) == Term(p, q)
  {
    assert [p, q][..1] == [p];
  }

  // ----- translation -----

  function Move(p: Point, d: Point): Point {
    Point(p.x + d.x, p.y + d.y)
  }

  function Moved(path: seq<Point>, d: Point): (r: seq<Point>)
    ensures |r| == |path|
  {
    seq(|path|, i requires 0 <= i < |path| => Move(path[i], d))
  }

  lemma TermMoved(p: Point, q: Point, d: Point)
    ensures Term(Move(p, d), Move(q, d)) == Term(p, q) + d.x * (q.y - p.y) - d.y * (q.x - p.x)
  {
  }

  lemma Telescope(k: real, a: real, b: real, c: real)
    ensures k * (b - a) + k * (c - b) == k * (c - a)
  {
  }

  lemma SignedInit(path: seq<Point>)
    requires |path| > 1
    ensures var n := |path| - 1; Signed(path) == Signed(path[..n]) + Term(path[n - 1], path[n])
  {
  }

  lemma MovedInit(path: seq<Point>, d: Point)
    requires |path| > 1
    ensures var n := |path| - 1;
            && Moved(path, d)[..n] == Moved(path[..n], d)
            && Moved(path, d)[n - 1] == Move(path[n - 1], d) && Moved(path, d)[n] == Move(path[n], d)
  {
  }

  /** Moving an open path changes its sum by what separates its ends. */
  lemma {:induction false} SignedMoved(path: seq<Point>, d: Point)
    requires path != []
    ensures var first, last := path[0], path[|path| - 1];
            Signed(Moved(path, d)) == Signed(path) + d.x * (last.y - first.y) - d.y * (last.x - first.x)
    decreases |path|
  {
    var n := |path| - 1;
    if n > 0 {
      SignedMoved(path[..n], d);
      MovedInit(path, d);
      SignedInit(path);
      SignedInit(Moved(path, d));
      TermMoved(path[n - 1], path[n], d);
      Telescope(d.x, path[0].y, path[n - 1].y, path[n].y);
      Telescope(d.y, path[0].x, path[n - 1].x, path[n].x);
      hide Signed, Term, Move, Moved;
    } else {
      assert Signed(path) == 0.0 == Signed(Moved(path, d));
    }
  }

  lemma AreaUnmovedByTranslation(ring: seq<Point>, d: Point)
    requires Closed(ring)
    ensures AreaOf(Moved(ring, d)) == AreaOf(ring)
  {
    SignedMoved(ring, d);
  }

  // ----- starting vertex -----

  /** The same ring read from its vertex `k`. */
  function From(ring: seq<Point>, k: nat): seq<Point>
    requires k < |ring|
  {
    ring[k..] + ring[1..k + 1]
  }

  lemma AreaIgnoresStart(ring: seq<Point>, k: nat)
    requires Closed(ring) && k < |ring|
    ensures Closed(From(ring, k)) && AreaOf(From(ring, k)) == AreaOf(ring)
  {
    SplitAt(ring, k);
    var a, b := ring[k..], ring[..k + 1];
    assert b[1..] == ring[1..k + 1];
    JoinAt(a, b);
    var r := From(ring, k);
    assert r[|r| - 1] == ring[k];
  }

  // ----- orientation -----

  function Reversed(path: seq<Point>): (r: seq<Point>)
    ensures |r| == |path|
  {
    seq(|path|, i requires 0 <= i < |path| => path[|path| - 1 - i])
  }

  lemma {:induction false} SignedReversed(path: seq<Point>)
    ensures Signed(Reversed(path)) == -Signed(path)
    decreases |path|
  {
    var n := |path| - 1;
    if n > 0 {
      SignedReversed(path[..n]);
      var last := [path[n], path[n - 1]];
      assert Reversed(path) == last + Reversed(path[..n])[1..];
      JoinAt(last, Reversed(path[..n]));
      Step(path[n], path[n - 1]);
    }
  }

  lemma AreaIgnoresOrientation(ring: seq<Point>)
    ensures AreaOf(Reversed(ring)) == AreaOf(ring)
  {
    SignedReversed(ring);
  }

  // ----- diagonals -----

  /** The part of a closed ring that a diagonal from vertex i to vertex j cuts off, and the rest. */
  function CutOff(ring: seq<Point>, i: nat, j: nat): seq<Point>
    requires i <= j < |ring|
  {
    ring[i..j + 1] + [ring[i]]
  }

  function Remaining(ring: seq<Point>, i: nat, j: nat): seq<Point>
    requires i <= j < |ring|
  {
    ring[..i + 1] + ring[j..]
  }

  /** Up to a diagonal's far end: the ring's first piece, followed by the diagonal, and the piece cut off. */
  lemma DiagonalAhead(ring: seq<Point>, i: nat, j: nat)
    requires i <= j < |ring|
    ensures Signed(ring[..j + 1]) == Signed(ring[..i + 1]) + Signed(ring[i..j + 1])
    ensures Signed(CutOff(ring, i, j)) == Signed(ring[i..j + 1]) + Term(ring[j], ring[i])
    ensures Signed(ring[..i + 1] + [ring[j]]) == Signed(ring[..i + 1]) + Term(ring[i], ring[j])
  {
    hide Signed;
    var p, q := ring[i], ring[j];
    SplitAt(ring[..j + 1], i);
    assert ring[..j + 1][..i + 1] == ring[..i + 1] && ring[..j + 1][i..] == ring[i..j + 1];
    assert [q, p][1..] == [p] && [p, q][1..] == [q];
    JoinAt(ring[i..j + 1], [q, p]);
    JoinAt(ring[..i + 1], [p, q]);
    Step(q, p);
    Step(p, q);
  }

  /** The signed sum is additive: any diagonal splits a ring into two whose sums add up. */
  lemma DiagonalSplits(ring: seq<Point>, i: nat, j: nat)
    requires i <= j < |ring|
    ensures Signed(ring) == Signed(CutOff(ring, i, j)) + Signed(Remaining(ring, i, j))
    ensures Closed(CutOff(ring, i, j)) && (Closed(ring) ==> Closed(Remaining(ring, i, j)))
  {
    hide Signed;
    SplitAt(ring, j);
    DiagonalAhead(ring, i, j);
    var head, tail := ring[..i + 1] + [ring[j]], ring[j..];
    RemainingJoins(ring, i, j);
    JoinAt(head, tail);
    hide CutOff, Remaining;
  }

  lemma RemainingJoins(ring: seq<Point>, i: nat, j: nat)
    requires i <= j < |ring|
    ensures ring[..i + 1] + [ring[j]] + ring[j..][1..] == Remaining(ring, i, j)
    ensures Closed(CutOff(ring, i, j)) && (Closed(ring) ==> Closed(Remaining(ring, i, j)))
  {
  }

  // ----- triangles -----

  function Triangle(a: Point, b: Point, c: Point): real {
    Signed([a, b, c, a])
  }

  /** The fan of triangles from the first vertex. */
  function Fan(ring: seq<Point>): real {
    if |ring| <= 1 then 0.0
    else Fan(ring[..|ring| - 1]) + Triangle(ring[0], ring[|ring| - 2], ring[|ring| - 1])
  }

  lemma TriangleTerms(a: Point, b: Point, c: Point)
    ensures Triangle(a, b, c) == Term(a, b) + Term(b, c) + Term(c, a)
  {
    hide Signed;
    Step(a, b);
    Step(b, c);
    Step(c, a);
    assert [a, b] + [b, c][1..] == [a, b, c] && [a, b, c] + [c, a][1..] == [a, b, c, a];
    JoinAt([a, b], [b, c]);
    JoinAt([a, b, c], [c, a]);
  }

  /** A closed ring's sum is that of its triangles; an open path lacks the way back to its start. */
  lemma {:induction false} FanIsSigned(path: seq<Point>)
    requires path != []
    ensures Fan(path) == Signed(path) + Term(path[|path| - 1], path[0])
    decreases |path|
  {
    var n := |path| - 1;
    if n > 0 {
      FanIsSigned(path[..n]);
      TriangleTerms(path[0], path[n - 1], path[n]);
    }
  }

  lemma AreaIsFan(ring: seq<Point>)
    requires Closed(ring)
    ensures AreaOf(ring) == Abs(Fan(ring)) / 2.0
  {
    FanIsSigned(ring);
  }

  /** The translation that shows an open list's ends apart. */
  function Apart(path: seq<Point>, k: real): Point
    requires path != []
  {
    var first, last := path[0], path[|path| - 1];
    if last.y != first.y then Point(k / (last.y - first.y), 0.0)
    else if last.x != first.x then Point(0.0, -k / (last.x - first.x))
    else Point(0.0, 0.0)
  }

  lemma MovedApart(path: seq<Point>, k: real)
    requires path != [] && !Closed(path)
    ensures Signed(Moved(path, Apart(path, k))) == Signed(path) + k
  {
    SignedMoved(path, Apart(path, k));
    hide Signed, Moved;
  }

  /** Exactly the closed lists keep their area wherever they are moved: the loop adds no closing side. */
  lemma AreaUnmovedIffClosed(path: seq<Point>)
    requires path != []
    ensures (forall d :: AreaOf(Moved(path, d)) == AreaOf(path)) <==> Closed(path)
  {
    if Closed(path) {
      forall d ensures AreaOf(Moved(path, d)) == AreaOf(path) {
        AreaUnmovedByTranslation(path, d);
      }
    } else {
      var k := Abs(Signed(path)) * 2.0 + 1.0;
      MovedApart(path, k);
      hide Signed, Moved;
      assert AreaOf(Moved(path, Apart(path, k))) != AreaOf(path);
    }
  }

  /** The loop does not close the ring: on an open list its sum depends on where the list lies. */
  lemma OpenListDependsOnPosition()
    ensures var path, d := [Point(0.0, 0.0), Point(1.0, 0.0), Point(1.0, 1.0)], Point(1.0, 0.0);
            AreaOf(path) == 0.5 && AreaOf(Moved(path, d)) == 1.0
  {
    hide Signed;
    var a, b, c := Point(0.0, 0.0), Point(1.0, 0.0), Point(1.0, 1.0);
    Step(a, b);
    Step(b, c);
    assert [a, b] + [b, c][1..] == [a, b, c];
    JoinAt([a, b], [b, c]);
    SignedMoved([a, b, c], Point(1.0, 0.0));
  }
}
