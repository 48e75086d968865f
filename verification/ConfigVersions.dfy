/**
 Configuration versions (services/backend/src/backend/domain/config_versions.py). A row is
 immutable but for `superseded_by` (0006's trigger), which is kept apart here: `rows` only
 grows, and `superseded` is that one mutable column. A row's id is its position.
 */
module ConfigVersions {
  import opened Wrappers

  datatype Key = Key(scope: string, name: string)

  datatype Version = Version(key: Key, value: string, effectiveFrom: int, author: string, approver: string)

  /** The response shape of the read API. */
  datatype Response = Response(key: string, value: string, version: nat, effectiveFrom: int)

  datatype Event = Event(key: Key, version: nat)

  datatype OutboxRow = OutboxRow(event: Event, dispatched: bool)

  datatype Store = Store(rows: seq<Version>, superseded: map<nat, nat>, outbox: seq<OutboxRow>)

  datatype Error = ConfigNotFound | AuthorEqualsApprover | DuplicateEffectiveFrom | EnvelopePinned

  /** The row with the latest `effective_from` that is not in the future. */
  function EffectiveRow(rows: seq<Version>, key: Key, now: int): (r: Option<nat>)
    ensures r.Some? ==> r.value < |rows| && rows[r.value].key == key && rows[r.value].effectiveFrom <= now
  {
    if rows == [] then None
    else
      var n := |rows| - 1;
      var earlier := EffectiveRow(rows[..n], key, now);
      if rows[n].key == key && rows[n].effectiveFrom <= now
         && (earlier.None? || rows[n].effectiveFrom > rows[earlier.value].effectiveFrom) then Some(n)
      else earlier
  }

  function AsResponse(rows: seq<Version>, id: nat): Response
    requires id < |rows|
  {
    Response(rows[id].key.name, rows[id].value, id, rows[id].effectiveFrom)
  }

  function GetEffective(rows: seq<Version>, key: Key, now: int): Result<Response, Error> {
    var r := EffectiveRow(rows, key, now);
    if r.None? then Err(ConfigNotFound) else Ok(AsResponse(rows, r.value))
  }

  function GetPinned(rows: seq<Version>, key: Key, id: nat): Result<Response, Error> {
    if id >= |rows| || rows[id].key != key then Err(ConfigNotFound) else Ok(AsResponse(rows, id))
  }

  /** The row of a key that nothing supersedes yet, the latest effective one if there were several. */
  function Head(s: Store, key: Key, n: nat): (r: Option<nat>)
    requires n <= |s.rows|
    ensures r.Some? ==> r.value < n && s.rows[r.value].key == key && r.value !in s.superseded
  {
    if n == 0 then None
    else
      var earlier := Head(s, key, n - 1);
      if s.rows[n - 1].key == key && n - 1 !in s.superseded
         && (earlier.None? || s.rows[n - 1].effectiveFrom > s.rows[earlier.value].effectiveFrom) then Some(n - 1)
      else earlier
  }

  /** One transaction: the row, the link from its predecessor, and the invalidation event. */
  function Written(s: Store, v: Version): (Store, Result<nat, Error>) {
    if v.author == v.approver then (s, Err(AuthorEqualsApprover))
    else if exists i :: 0 <= i < |s.rows| && s.rows[i].key == v.key && s.rows[i].effectiveFrom == v.effectiveFrom then
      (s, Err(DuplicateEffectiveFrom))
    else
      var id, head := |s.rows|, Head(s, v.key, |s.rows|);
      (Store(s.rows + [v],
             if head.Some? then s.superseded[head.value := id] else s.superseded,
             s.outbox + [OutboxRow(Event(v.key, id), false)]),
       Ok(id))
  }

  class ConfigTables {
    var rows: seq<Version>
    var superseded: map<nat, nat>
    var outbox: seq<OutboxRow>

    constructor ()
      ensures Value() == Store([], map[], [])
    {
      rows, superseded, outbox := [], map[], [];
    }

    function Value(): Store
      reads this
    {
      Store(rows, superseded, outbox)
    }

    /** `write_config_version` and the caller's commit; a refused write is rolled back. */
    method WriteVersion(v: Version) returns (r: Result<nat, Error>)
      modifies this
      ensures (Value(), r) == Written(old(Value()), v)
    {
      if v.author == v.approver {
        return Err(AuthorEqualsApprover);
      }
      if exists i :: 0 <= i < |rows| && rows[i].key == v.key && rows[i].effectiveFrom == v.effectiveFrom {
        return Err(DuplicateEffectiveFrom);
      }
      var priorHead, id := Head(Value(), v.key, |rows|), |rows|;
      rows := rows + [v];
      if priorHead.Some? {
        superseded := superseded[priorHead.value := id];
      }
      outbox := outbox + [OutboxRow(Event(v.key, id), false)];
      r := Ok(id);
    }
  }

  /** `EffectiveRow` is the query it stands for. */
  lemma {:induction false} EffectiveIsLatest(rows: seq<Version>, key: Key, now: int)
    ensures var r := EffectiveRow(rows, key, now);
            forall i :: 0 <= i < |rows| && rows[i].key == key && rows[i].effectiveFrom <= now ==>
              r.Some? && rows[i].effectiveFrom <= rows[r.value].effectiveFrom
  {
    if rows != [] {
      EffectiveIsLatest(rows[..|rows| - 1], key, now);
    }
  }

  /** Row `i` is what an unpinned read at `now` answers: of the key, in force, and later than any other such row. */
  predicate InForce(rows: seq<Version>, i: int, key: Key, now: int) {
    0 <= i < |rows| && rows[i].key == key && rows[i].effectiveFrom <= now
  }

  /** What the two reads answer, in the terms of the rows. */
  lemma ReadsAnswer(rows: seq<Version>, key: Key, now: int, id: nat)
    ensures GetEffective(rows, key, now).Err? <==> forall i :: !InForce(rows, i, key, now)
    ensures GetEffective(rows, key, now).Err? ==> GetEffective(rows, key, now).error == ConfigNotFound
    ensures GetEffective(rows, key, now).Ok? ==>
              var r := GetEffective(rows, key, now).value;
              && InForce(rows, r.version, key, now)
              && (forall i :: InForce(rows, i, key, now) ==> rows[i].effectiveFrom <= rows[r.version].effectiveFrom)
              && r == Response(key.name, rows[r.version].value, r.version, rows[r.version].effectiveFrom)
    ensures GetPinned(rows, key, id) ==
              if id < |rows| && rows[id].key == key then Ok(Response(key.name, rows[id].value, id, rows[id].effectiveFrom))
              else Err(ConfigNotFound)
  {
    EffectiveIsLatest(rows, key, now);
    var row := EffectiveRow(rows, key, now);
    assert row.Some? ==> InForce(rows, row.value, key, now);
    assert row.None? ==> forall i :: !InForce(rows, i, key, now);
    hide EffectiveRow, InForce;
  }

  /** No two versions of a key take effect at the same time. */
  predicate TimesDiffer(rows: seq<Version>) {
    forall i, j :: 0 <= i < j < |rows| && rows[i].key == rows[j].key ==> rows[i].effectiveFrom != rows[j].effectiveFrom
  }

  /** What a write does: refused for one person in both roles or for a time that is taken, else one row and one event. */
  lemma WriteIs(s: Store, v: Version)
    ensures var (after, r) := Written(s, v);
            && (r == Err(AuthorEqualsApprover) <==> v.author == v.approver)
            && (r == Err(DuplicateEffectiveFrom) <==>
                  v.author != v.approver
                  && exists i :: 0 <= i < |s.rows| && s.rows[i].key == v.key && s.rows[i].effectiveFrom == v.effectiveFrom)
            && (r.Err? ==> after == s && r.error in {AuthorEqualsApprover, DuplicateEffectiveFrom})
            && (r.Ok? ==>
                  && r.value == |s.rows| && after.rows == s.rows + [v]
                  && after.outbox == s.outbox + [OutboxRow(Event(v.key, |s.rows|), false)])
  {
    hide Head;
  }

  lemma WriteKeepsTimesDifferent(s: Store, v: Version)
    requires TimesDiffer(s.rows)
    ensures TimesDiffer(Written(s, v).0.rows)
  {
    WriteIs(s, v);
    hide Written;
  }

  /** In a kept lineage a write links the last earlier row of its key to the new one, and no other row. */
  lemma WriteLinks(s: Store, v: Version)
    requires Lineage(s) && Written(s, v).1.Ok?
    ensures var after := Written(s, v).0;
            if forall i :: 0 <= i < |s.rows| ==> s.rows[i].key != v.key then after.superseded == s.superseded
            else exists i :: 0 <= i < |s.rows| && s.rows[i].key == v.key && (forall j :: i < j < |s.rows| ==> s.rows[j].key != v.key)
                             && i !in s.superseded && after.superseded == s.superseded[i := |s.rows|]
  {
    HeadIsLast(s, v.key, |s.rows|);
    hide Lineage;
  }

  // ----- lineage -----

  /** The first later row of the same key. */
  function Successor(rows: seq<Version>, i: nat, n: nat): Option<nat>
    requires i < n <= |rows|
  {
    if n == i + 1 then None
    else
      var earlier := Successor(rows, i, n - 1);
      if earlier.Some? then earlier else if rows[n - 1].key == rows[i].key then Some(n - 1) else None
  }

  /** Each row is superseded by the next write of its key, and only the last one by none. */
  ghost predicate Lineage(s: Store) {
    && (forall i :: i in s.superseded ==> i < |s.rows|)
    && (forall i :: 0 <= i < |s.rows| ==>
          (if i in s.superseded then Some(s.superseded[i]) else None) == Successor(s.rows, i, |s.rows|))
  }

  lemma {:induction false} SuccessorOf(rows: seq<Version>, i: nat, n: nat, j: nat)
    requires i < j < n <= |rows| && rows[j].key == rows[i].key
    ensures Successor(rows, i, n).Some?
  {
    if j < n - 1 {
      SuccessorOf(rows, i, n - 1, j);
    }
  }

  /** The head that the write finds is the last row of its key: no earlier row is unsuperseded. */
  lemma {:induction false} HeadIsLast(s: Store, key: Key, n: nat)
    requires Lineage(s) && n <= |s.rows|
    requires forall i :: n <= i < |s.rows| ==> s.rows[i].key != key
    ensures var h := Head(s, key, n);
            && (h.None? ==> forall i :: 0 <= i < n ==> s.rows[i].key != key)
            && (h.Some? ==> forall i :: h.value < i < |s.rows| ==> s.rows[i].key != key)
  {
    if n > 0 {
      if s.rows[n - 1].key == key {
        NoHeadBefore(s, key, n - 1, n - 1);
        LastHasNoSuccessor(s.rows, n - 1, |s.rows|);
      } else {
        HeadIsLast(s, key, n - 1);
      }
    }
  }

  lemma {:induction false} LastHasNoSuccessor(rows: seq<Version>, i: nat, n: nat)
    requires i < n <= |rows| && forall j :: i < j < n ==> rows[j].key != rows[i].key
    ensures Successor(rows, i, n).None?
  {
    if n > i + 1 {
      LastHasNoSuccessor(rows, i, n - 1);
    }
  }

  lemma {:induction false} NoHeadBefore(s: Store, key: Key, last: nat, n: nat)
    requires Lineage(s) && n <= last < |s.rows| && s.rows[last].key == key
    ensures Head(s, key, n).None?
  {
    if n > 0 {
      NoHeadBefore(s, key, last, n - 1);
      if s.rows[n - 1].key == key {
        SuccessorOf(s.rows, n - 1, |s.rows|, last);
      }
    }
  }

  lemma {:induction false} SuccessorSnoc(rows: seq<Version>, v: Version, i: nat, n: nat)
    requires i < n <= |rows|
    ensures Successor(rows + [v], i, n) == Successor(rows, i, n)
  {
    if n > i + 1 {
      SuccessorSnoc(rows, v, i, n - 1);
    }
  }

  /** Every write keeps the lineage of every key: one chain in the order of writing. */
  lemma WriteKeepsLineage(s: Store, v: Version)
    requires Lineage(s)
    ensures Lineage(Written(s, v).0)
  {
    var (s', r) := Written(s, v);
    if r.Ok? {
      HeadIsLast(s, v.key, |s.rows|);
      var head := Head(s, v.key, |s.rows|);
      forall i | 0 <= i < |s'.rows|
        ensures (if i in s'.superseded then Some(s'.superseded[i]) else None) == Successor(s'.rows, i, |s'.rows|)
      {
        if i < |s.rows| {
          SuccessorSnoc(s.rows, v, i, |s.rows|);
          if s.rows[i].key == v.key && head != Some(i) {
            SuccessorOf(s.rows, i, |s.rows|, head.value);
          }
          if head == Some(i) {
            LastHasNoSuccessor(s.rows, i, |s.rows|);
          }
        }
      }
    }
  }

  /** Of rows with one time the query answers the first. */
  lemma {:induction false} EffectiveIsFirst(rows: seq<Version>, key: Key, now: int)
    ensures var r := EffectiveRow(rows, key, now);
            r.Some? ==> forall i :: 0 <= i < r.value && rows[i].key == key && rows[i].effectiveFrom <= now ==>
                          rows[i].effectiveFrom < rows[r.value].effectiveFrom
  {
    if rows != [] {
      EffectiveIsLatest(rows[..|rows| - 1], key, now);
      EffectiveIsFirst(rows[..|rows| - 1], key, now);
    }
  }

  /**
   Exactly when the head of a key is what a read answers: it is in force, and every earlier row
   of its key that is in force took effect strictly before it.
   */
  lemma HeadAnswersIff(s: Store, key: Key, now: int)
    requires Lineage(s) && Head(s, key, |s.rows|).Some?
    ensures var h := Head(s, key, |s.rows|).value;
            EffectiveRow(s.rows, key, now) == Some(h) <==>
              && s.rows[h].effectiveFrom <= now
              && forall i :: 0 <= i < h && s.rows[i].key == key && s.rows[i].effectiveFrom <= now ==>
                   s.rows[i].effectiveFrom < s.rows[h].effectiveFrom
  {
    HeadIsLast(s, key, |s.rows|);
    EffectiveIsLatest(s.rows, key, now);
    EffectiveIsFirst(s.rows, key, now);
    hide EffectiveRow, Head, Lineage;
  }

  /** But the head need not be what is effective: a backdated write supersedes the row that stays in force. */
  lemma BackdatedHeadIsNotEffective(k: Key)
    ensures var s1 := Written(Store([], map[], []), Version(k, "new", 10, "a", "b")).0;
            var s2 := Written(s1, Version(k, "old", 5, "a", "b")).0;
            Head(s2, k, 2) == Some(1) && EffectiveRow(s2.rows, k, 20) == Some(0) && 0 in s2.superseded
  {
    var v, w := Version(k, "new", 10, "a", "b"), Version(k, "old", 5, "a", "b");
    var s1 := Written(Store([], map[], []), v).0;
    assert s1.rows == [v];
    var s2 := Written(s1, w).0;
    assert s2.rows == [v, w];
    assert s2.rows[..1] == [v] && [v][..0] == [];
    assert Head(s2, k, 0).None? && Head(s2, k, 1).None?;
    assert EffectiveRow([], k, 20).None? && EffectiveRow([v], k, 20) == Some(0);
  }
}
