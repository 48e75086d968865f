/**
 Binding survey labels to parcels (services/extraction/src/extraction/domain/vectorize.py:233-332).
 Where a label lies is given by two arbitrary relations, containment and distance. Labels and
 parcels are named by their positions.
 */
module LabelBinding {

  /** `usable[p]` is false for a parcel without a valid ring. */
  datatype Layout = Layout(
    usable: seq<bool>, texts: seq<string>, inside: (nat, nat) -> bool, dist: (nat, nat) -> real, limit: real)

  /** A label seen from a parcel, or a parcel seen from a label. */
  datatype Candidate = Candidate(item: nat, dist: real, inside: bool)

  datatype Binding = Unbound | Ambiguous | Bound(index: nat)

  // ----- candidates -----

  predicate Near(m: Layout, p: nat, l: nat)
    requires p < |m.usable|
  {
    m.usable[p] && (m.inside(p, l) || m.dist(p, l) <= m.limit)
  }

  function Measure(m: Layout, p: nat, l: nat): real {
    if m.inside(p, l) then 0.0 else m.dist(p, l)
  }

  /** The labels below `n` that parcel `p` may take, in label order. */
  function LabelsFor(m: Layout, p: nat, n: nat): seq<Candidate>
    requires p < |m.usable|
  {
    if n == 0 then []
    else LabelsFor(m, p, n - 1) + if Near(m, p, n - 1) then [Candidate(n - 1, Measure(m, p, n - 1), m.inside(p, n - 1))] else []
  }

  /** The parcels below `n` that may take label `l`, in parcel order. */
  function ParcelsFor(m: Layout, l: nat, n: nat): seq<Candidate>
    requires n <= |m.usable|
  {
    if n == 0 then []
    else ParcelsFor(m, l, n - 1) + if Near(m, n - 1, l) then [Candidate(n - 1, Measure(m, n - 1, l), m.inside(n - 1, l))] else []
  }

  function Inside(cs: seq<Candidate>): (r: seq<Candidate>)
    ensures forall i :: 0 <= i < |r| ==> r[i] in cs
  {
    if cs == [] then []
    else Inside(cs[..|cs| - 1]) + if cs[|cs| - 1].inside then [cs[|cs| - 1]] else []
  }

  /** `min(pool, key=distance)`: the first of the nearest. */
  function Nearest(cs: seq<Candidate>): Candidate
    requires cs != []
  {
    if |cs| == 1 then cs[0]
    else
      var best := Nearest(cs[..|cs| - 1]);
      if cs[|cs| - 1].dist < best.dist then cs[|cs| - 1] else best
  }

  // ----- resolution -----

  /** The candidates inside the parcel if there are any, else all of them. */
  function Pool(m: Layout, p: nat): (r: seq<Candidate>)
    requires p < |m.usable|
    ensures forall i :: 0 <= i < |r| ==> r[i].item < |m.texts|
  {
    var candidates := LabelsFor(m, p, |m.texts|);
    LabelsExist(m, p);
    if Inside(candidates) != [] then Inside(candidates) else candidates
  }

  predicate SeveralTexts(m: Layout, pool: seq<Candidate>)
    requires forall i :: 0 <= i < |pool| ==> pool[i].item < |m.texts|
  {
    exists i :: 0 <= i < |pool| && m.texts[pool[i].item] != m.texts[pool[0].item]
  }

  /** Who else wants the label: judged among containing parcels if it is inside, else among all near ones. */
  function Competing(parcels: seq<Candidate>, inside: bool): seq<Candidate> {
    if inside then Inside(parcels) else parcels
  }

  function Resolve(m: Layout, p: nat): Binding
    requires p < |m.usable|
  {
    var pool := Pool(m, p);
    if pool == [] then Unbound
    else if SeveralTexts(m, pool) then Ambiguous
    else
      var best := Nearest(pool);
      if |Competing(ParcelsFor(m, best.item, |m.usable|), best.inside)| > 1 then Ambiguous else Bound(best.item)
  }

  lemma {:induction false} LabelsForMembers(m: Layout, p: nat, n: nat, c: Candidate)
    requires p < |m.usable|
    ensures c in LabelsFor(m, p, n) <==>
              c.item < n && Near(m, p, c.item) && c == Candidate(c.item, Measure(m, p, c.item), m.inside(p, c.item))
  {
    if n > 0 {
      LabelsForMembers(m, p, n - 1, c);
    }
  }

  lemma {:induction false} ParcelsForMembers(m: Layout, l: nat, n: nat, c: Candidate)
    requires n <= |m.usable|
    ensures c in ParcelsFor(m, l, n) <==>
              c.item < n && Near(m, c.item, l) && c == Candidate(c.item, Measure(m, c.item, l), m.inside(c.item, l))
  {
    if n > 0 {
      ParcelsForMembers(m, l, n - 1, c);
    }
  }

  lemma {:induction false} InsideMembers(cs: seq<Candidate>, c: Candidate)
    ensures c in Inside(cs) <==> c in cs && c.inside
  {
    if cs != [] {
      InsideMembers(cs[..|cs| - 1], c);
    }
  }

  lemma NoneInside()
    ensures Inside([]) == []
  {
  }

  lemma LabelsExist(m: Layout, p: nat)
    requires p < |m.usable|
    ensures forall c :: c in LabelsFor(m, p, |m.texts|) ==> c.item < |m.texts|
  {
    forall c | c in LabelsFor(m, p, |m.texts|) ensures c.item < |m.texts| {
      LabelsForMembers(m, p, |m.texts|, c);
    }
  }

  /** `bind_survey_labels`, stages 2 and 3. */
  method BindLabels(m: Layout) returns (bindings: seq<Binding>)
    ensures |bindings| == |m.usable| && forall p :: 0 <= p < |m.usable| ==> bindings[p] == Resolve(m, p)
  {
    hide LabelsFor, ParcelsFor, Inside, Nearest, SeveralTexts;
    var parcelCandidates, labelCandidates := CollectCandidates(m);
    bindings := [];
    for p := 0 to |m.usable|
      invariant |bindings| == p && forall q :: 0 <= q < p ==> bindings[q] == Resolve(m, q)
    {
      var candidates := parcelCandidates[p];
      NoneInside();
      if candidates == [] {
        bindings := bindings + [Unbound];
        continue;
      }
      var insideCandidates := Inside(candidates);
      var pool := if insideCandidates != [] then insideCandidates else candidates;
      assert pool == Pool(m, p);
      if SeveralTexts(m, pool) {
        bindings := bindings + [Ambiguous];
        continue;
      }
      var best := Nearest(pool);
      ghost var k := NearestAt(pool);
      var competing := Competing(labelCandidates[best.item], best.inside);
      bindings := bindings + [if |competing| > 1 then Ambiguous else Bound(best.item)];
    }
  }

  method CollectCandidates(m: Layout) returns (byParcel: seq<seq<Candidate>>, byLabel: seq<seq<Candidate>>)
    ensures |byParcel| == |m.usable| && |byLabel| == |m.texts|
    ensures forall p :: 0 <= p < |m.usable| ==> byParcel[p] == LabelsFor(m, p, |m.texts|)
    ensures forall l :: 0 <= l < |m.texts| ==> byLabel[l] == ParcelsFor(m, l, |m.usable|)
  {
    byParcel, byLabel := [], seq(|m.texts|, _ => []);
    for p := 0 to |m.usable|
      invariant |byParcel| == p && |byLabel| == |m.texts|
      invariant forall q :: 0 <= q < p ==> byParcel[q] == LabelsFor(m, q, |m.texts|)
      invariant forall l :: 0 <= l < |m.texts| ==> byLabel[l] == ParcelsFor(m, l, p)
    {
      var mine: seq<Candidate> := [];
      for l := 0 to |m.texts|
        invariant |byLabel| == |m.texts| && mine == LabelsFor(m, p, l)
        invariant forall k :: 0 <= k < |m.texts| ==> byLabel[k] == ParcelsFor(m, k, if k < l then p + 1 else p)
      {
        if m.usable[p] {
          if m.inside(p, l) {
            mine := mine + [Candidate(l, 0.0, true)];
            byLabel := byLabel[l := byLabel[l] + [Candidate(p, 0.0, true)]];
          } else if m.dist(p, l) <= m.limit {
            mine := mine + [Candidate(l, m.dist(p, l), false)];
            byLabel := byLabel[l := byLabel[l] + [Candidate(p, m.dist(p, l), false)]];
          }
        }
      }
      byParcel := byParcel + [mine];
    }
  }

  // ----- what a binding means -----

  /** The nearest candidate is in the list, none is nearer, and none before it is as near. */
  lemma {:induction false} NearestAt(cs: seq<Candidate>) returns (k: nat)
    requires cs != []
    ensures k < |cs| && cs[k] == Nearest(cs)
    ensures forall i :: 0 <= i < k ==> cs[k].dist < cs[i].dist
    ensures forall i :: k <= i < |cs| ==> cs[k].dist <= cs[i].dist
  {
    var n := |cs| - 1;
    k := 0;
    if n > 0 {
      k := NearestAt(cs[..n]);
      if cs[n].dist < cs[k].dist {
        k := n;
      }
    }
  }

  /** A label of the pool: one inside the parcel if there is any, else one nearby. */
  ghost predicate InPool(m: Layout, p: nat, l: nat)
    requires p < |m.usable|
  {
    && l < |m.texts| && m.usable[p]
    && (m.inside(p, l) || (m.dist(p, l) <= m.limit && forall k :: 0 <= k < |m.texts| ==> !m.inside(p, k)))
  }

  lemma InPoolIsNear(m: Layout, p: nat, l: nat)
    requires p < |m.usable|
    ensures InPool(m, p, l) <==>
              l < |m.texts| && Near(m, p, l)
              && (m.inside(p, l) || forall k :: 0 <= k < |m.texts| && Near(m, p, k) ==> !m.inside(p, k))
  {
  }

  /** Another parcel that competes for the label: one that contains it, or, for a nearby label, any that is near. */
  ghost predicate Competes(m: Layout, p: nat, l: nat, q: nat)
    requires p < |m.usable|
  {
    q < |m.usable| && q != p && m.usable[q] && (m.inside(q, l) || (m.dist(q, l) <= m.limit && !m.inside(p, l)))
  }

  lemma {:induction false} ParcelsIncrease(m: Layout, l: nat, n: nat)
    requires n <= |m.usable|
    ensures forall i, j :: 0 <= i < j < |ParcelsFor(m, l, n)| ==> ParcelsFor(m, l, n)[i].item < ParcelsFor(m, l, n)[j].item
    ensures forall i :: 0 <= i < |ParcelsFor(m, l, n)| ==> ParcelsFor(m, l, n)[i].item < n
  {
    if n > 0 {
      ParcelsIncrease(m, l, n - 1);
    }
  }

  lemma {:induction false} InsideIncreases(cs: seq<Candidate>)
    requires forall i, j :: 0 <= i < j < |cs| ==> cs[i].item < cs[j].item
    ensures forall i, j :: 0 <= i < j < |Inside(cs)| ==> Inside(cs)[i].item < Inside(cs)[j].item
  {
    if cs != [] {
      var n := |cs| - 1;
      InsideIncreases(cs[..n]);
      var rest := Inside(cs[..n]);
      forall i | 0 <= i < |rest| ensures rest[i].item < cs[n].item {
        InsideMembers(cs[..n], rest[i]);
      }
    }
  }

  /** More than one competitor is a competitor other than the parcel itself. */
  lemma SeveralMeansAnother(m: Layout, p: nat, l: nat)
    requires p < |m.usable| && Near(m, p, l)
    ensures |Competing(ParcelsFor(m, l, |m.usable|), m.inside(p, l))| > 1 <==> exists q: nat :: Competes(m, p, l, q)
  {
    hide Inside, ParcelsFor, Measure;
    var parcels := ParcelsFor(m, l, |m.usable|);
    var competing := Competing(parcels, m.inside(p, l));
    ParcelsIncrease(m, l, |m.usable|);
    InsideIncreases(parcels);
    var own := Candidate(p, Measure(m, p, l), m.inside(p, l));
    ParcelsForMembers(m, l, |m.usable|, own);
    InsideMembers(parcels, own);
    assert own in competing;
    if |competing| > 1 {
      var other := if competing[0].item != p then competing[0] else competing[1];
      InsideMembers(parcels, other);
      ParcelsForMembers(m, l, |m.usable|, other);
      assert Competes(m, p, l, other.item);
    }
    if q :| Competes(m, p, l, q) {
      var other := Candidate(q, Measure(m, q, l), m.inside(q, l));
      ParcelsForMembers(m, l, |m.usable|, other);
      InsideMembers(parcels, other);
      assert other in competing;
    }
  }

  lemma PoolMembers(m: Layout, p: nat)
    requires p < |m.usable|
    ensures forall c :: c in Pool(m, p) <==>
              InPool(m, p, c.item) && c == Candidate(c.item, Measure(m, p, c.item), m.inside(p, c.item))
  {
    forall l: nat ensures InPool(m, p, l) <==>
                       l < |m.texts| && Near(m, p, l)
                       && (m.inside(p, l) || forall k :: 0 <= k < |m.texts| && Near(m, p, k) ==> !m.inside(p, k)) {
      InPoolIsNear(m, p, l);
    }
    var candidates, pool := LabelsFor(m, p, |m.texts|), Pool(m, p);
    hide InPool;
    assert Inside(candidates) != [] <==> exists k :: 0 <= k < |m.texts| && Near(m, p, k) && m.inside(p, k) by {
      if Inside(candidates) != [] {
        var c := Inside(candidates)[0];
        InsideMembers(candidates, c);
        LabelsForMembers(m, p, |m.texts|, c);
      }
      if k :| 0 <= k < |m.texts| && Near(m, p, k) && m.inside(p, k) {
        var c := Candidate(k, Measure(m, p, k), true);
        LabelsForMembers(m, p, |m.texts|, c);
        InsideMembers(candidates, c);
      }
    }
    forall c ensures c in pool <==>
                     InPool(m, p, c.item) && c == Candidate(c.item, Measure(m, p, c.item), m.inside(p, c.item)) {
      LabelsForMembers(m, p, |m.texts|, c);
      InsideMembers(candidates, c);
    }
  }

  lemma {:induction false} LabelsIncrease(m: Layout, p: nat, n: nat)
    requires p < |m.usable|
    ensures forall i, j :: 0 <= i < j < |LabelsFor(m, p, n)| ==> LabelsFor(m, p, n)[i].item < LabelsFor(m, p, n)[j].item
    ensures forall i :: 0 <= i < |LabelsFor(m, p, n)| ==> LabelsFor(m, p, n)[i].item < n
  {
    if n > 0 {
      LabelsIncrease(m, p, n - 1);
    }
  }

  /** The nearest label of the pool, the lowest-numbered one among equals. */
  ghost predicate FirstNearest(m: Layout, p: nat, l: nat)
    requires p < |m.usable|
  {
    && InPool(m, p, l)
    && forall k: nat :: InPool(m, p, k) ==>
         if m.inside(p, l) then l <= k
         else if k < l then m.dist(p, l) < m.dist(p, k) else m.dist(p, l) <= m.dist(p, k)
  }

  /** Where a label of the pool stands in it. */
  lemma PoolIndex(m: Layout, p: nat, l: nat) returns (i: nat)
    requires p < |m.usable| && InPool(m, p, l)
    ensures i < |Pool(m, p)| && Pool(m, p)[i] == Candidate(l, Measure(m, p, l), m.inside(p, l))
  {
    hide Pool;
    PoolMembers(m, p);
    var c := Candidate(l, Measure(m, p, l), m.inside(p, l));
    assert c in Pool(m, p);
    i :| 0 <= i < |Pool(m, p)| && Pool(m, p)[i] == c;
  }

  lemma PoolIncreases(m: Layout, p: nat)
    requires p < |m.usable|
    ensures forall i, j :: 0 <= i < j < |Pool(m, p)| ==> Pool(m, p)[i].item < Pool(m, p)[j].item
  {
    LabelsIncrease(m, p, |m.texts|);
    InsideIncreases(LabelsFor(m, p, |m.texts|));
  }

  /** The labels of a pool are all inside the parcel or all outside it. */
  lemma PoolIsOfOneKind(m: Layout, p: nat, j: nat, k: nat)
    requires p < |m.usable| && InPool(m, p, j) && InPool(m, p, k)
    ensures m.inside(p, j) == m.inside(p, k)
  {
  }

  lemma NearestOfPool(m: Layout, p: nat)
    requires p < |m.usable| && Pool(m, p) != []
    ensures FirstNearest(m, p, Nearest(Pool(m, p)).item)
    ensures Nearest(Pool(m, p)).inside == m.inside(p, Nearest(Pool(m, p)).item)
  {
    hide Pool, InPool, Nearest;
    var pool := Pool(m, p);
    PoolMembers(m, p);
    PoolIncreases(m, p);
    var b := NearestAt(pool);
    var l := pool[b].item;
    assert pool[b] in pool;
    forall k: nat | InPool(m, p, k)
      ensures if m.inside(p, l) then l <= k
              else if k < l then m.dist(p, l) < m.dist(p, k) else m.dist(p, l) <= m.dist(p, k)
    {
      var i := PoolIndex(m, p, k);
      PoolIsOfOneKind(m, p, k, l);
    }
  }

  /** The pool has several texts exactly when two of its labels differ. */
  lemma TextsOfPool(m: Layout, p: nat, l: nat)
    requires p < |m.usable| && InPool(m, p, l)
    ensures !SeveralTexts(m, Pool(m, p)) <==> forall k: nat :: InPool(m, p, k) ==> m.texts[k] == m.texts[l]
  {
    hide Pool;
    var pool := Pool(m, p);
    PoolMembers(m, p);
    var i := PoolIndex(m, p, l);
    if !SeveralTexts(m, pool) {
      forall k: nat | InPool(m, p, k) ensures m.texts[k] == m.texts[l] {
        var j := PoolIndex(m, p, k);
        assert m.texts[pool[j].item] == m.texts[pool[0].item] == m.texts[pool[i].item];
      }
    } else {
      var j :| 0 <= j < |pool| && m.texts[pool[j].item] != m.texts[pool[0].item];
      assert pool[j] in pool && pool[0] in pool;
      assert InPool(m, p, pool[j].item) && InPool(m, p, pool[0].item);
    }
  }

  /**
   Exactly when a parcel gets label `l`: the labels of its pool all say the same, `l` is the
   first of the nearest of them, and no other parcel competes for `l`.
   */
  lemma BoundIff(m: Layout, p: nat, l: nat)
    requires p < |m.usable|
    ensures Resolve(m, p) == Bound(l) <==>
              && FirstNearest(m, p, l)
              && (forall k: nat :: InPool(m, p, k) ==> m.texts[k] == m.texts[l])
              && !exists q: nat :: Competes(m, p, l, q)
  {
    hide Pool, InPool, Nearest, SeveralTexts, Competes, Competing;
    if InPool(m, p, l) {
      var i := PoolIndex(m, p, l);
      NearestOfPool(m, p);
      var best := Nearest(Pool(m, p)).item;
      OneFirstNearest(m, p, l, best);
      TextsOfPool(m, p, l);
      PoolIsNear(m, p, best);
      SeveralMeansAnother(m, p, best);
    } else if Pool(m, p) != [] {
      NearestOfPool(m, p);
    }
  }

  /** A parcel gets no label, and is not ambiguous either, exactly when its pool is empty. */
  lemma UnboundIff(m: Layout, p: nat)
    requires p < |m.usable|
    ensures Resolve(m, p) == Unbound <==> forall l: nat :: !InPool(m, p, l)
  {
    PoolMembers(m, p);
    hide Pool, Nearest, SeveralTexts, Competing, InPool;
    if Pool(m, p) != [] {
      assert Pool(m, p)[0] in Pool(m, p);
    }
    if l: nat :| InPool(m, p, l) {
      assert Candidate(l, Measure(m, p, l), m.inside(p, l)) in Pool(m, p);
    }
  }

  lemma OneFirstNearest(m: Layout, p: nat, j: nat, k: nat)
    requires p < |m.usable| && FirstNearest(m, p, k)
    ensures FirstNearest(m, p, j) <==> j == k
  {
  }

  lemma PoolIsNear(m: Layout, p: nat, l: nat)
    requires p < |m.usable| && InPool(m, p, l)
    ensures Near(m, p, l)
  {
    InPoolIsNear(m, p, l);
  }

  /** No label is bound to two parcels, though inside and nearby candidates compete by different rules. */
  lemma NoLabelTwice(m: Layout, p: nat, q: nat, l: nat)
    requires p < |m.usable| && q < |m.usable| && p != q
    requires Resolve(m, p) == Bound(l)
    ensures Resolve(m, q) != Bound(l)
  {
    hide Resolve;
    BoundIff(m, p, l);
    BoundIff(m, q, l);
    assert InPool(m, q, l) ==> Competes(m, p, l, q) || Competes(m, q, l, p);
  }
}
