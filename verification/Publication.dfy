/**
 * Publishing versions of a record behind the gate: services/backend/src/backend/domain/publication.py,
 * publication_gate.py and completeness.py.
 */
module Publication {

  import opened Wrappers

  // ----- the tables -----

  datatype Fields = Fields(parcelRef: Option<string>, ulpin: Option<string>, lgdCodes: Option<map<string, string>>)

  /** A `Record` row; its position in the table stands for its id. */
  datatype Row = Row(group: string, version: nat, fields: Fields)

  datatype ConflictState = Open | UnderEnquiry | Resolved | Referred

  datatype Conflict = Conflict(records: seq<nat>, rule: string, state: ConflictState)

  datatype VolumeState = Pending | Complete | GapDetected | Acknowledged

  datatype VolumeIndex = VolumeIndex(expected: seq<int>, observed: seq<int>, gaps: seq<int>, state: VolumeState)

  datatype Books = Books(
    rows: seq<Row>,
    conflicts: seq<Conflict>,
    pages: map<string, seq<Option<int>>>,
    volumes: map<string, VolumeIndex>)

  // ----- completeness -----

  function Positions(pages: seq<Option<int>>): seq<int> {
    if pages == [] then []
    else
      var n := |pages| - 1;
      Positions(pages[..n]) + if pages[n].Some? then [pages[n].value] else []
  }

  function Insert(sorted: seq<int>, x: int): seq<int> {
    if sorted == [] || sorted[|sorted| - 1] <= x then sorted + [x]
    else Insert(sorted[..|sorted| - 1], x) + [sorted[|sorted| - 1]]
  }

  function Sorted(xs: seq<int>): seq<int> {
    if xs == [] then [] else Insert(Sorted(xs[..|xs| - 1]), xs[|xs| - 1])
  }

  function Range(lo: int, hi: int): (r: seq<int>)
    ensures |r| == if lo <= hi then hi - lo else 0
  {
    seq(if lo <= hi then hi - lo else 0, i requires 0 <= i => lo + i)
  }

  function NotIn(xs: seq<int>, seen: seq<int>): seq<int> {
    if xs == [] then []
    else
      var n := |xs| - 1;
      NotIn(xs[..n], seen) + if xs[n] !in seen then [xs[n]] else []
  }

  lemma NothingMissing(seen: seq<int>)
    ensures NotIn([], seen) == []
  {
  }

  function PagesOf(b: Books, batch: string): seq<Option<int>> {
    if batch in b.pages then b.pages[batch] else []
  }

  function ExpectedFor(observed: seq<int>): seq<int> {
    if observed == [] then [] else Range(observed[0], observed[|observed| - 1] + 1)
  }

  /** The index `rebuild` leaves for a batch: an acknowledged index with gaps stays acknowledged. */
  function Rebuilt(b: Books, batch: string): VolumeIndex {
    var observed := Sorted(Positions(PagesOf(b, batch)));
    var expected := ExpectedFor(observed);
    var gaps := NotIn(expected, observed);
    var was := if batch in b.volumes then b.volumes[batch].state else Pending;
    var state :=
      if gaps != [] then if was == Acknowledged then Acknowledged else GapDetected
      else if expected != [] then Complete else Pending;
    VolumeIndex(expected, observed, gaps, state)
  }

  function Rebuild(b: Books, batch: string): Books {
    b.(volumes := b.volumes[batch := Rebuilt(b, batch)])
  }

  datatype AcknowledgeError = NoIndex | NotGapDetected(state: VolumeState)

  /** `acknowledge_gap`. */
  function Acknowledge(b: Books, batch: string): Result<Books, AcknowledgeError> {
    if batch !in b.volumes then Err(NoIndex)
    else if b.volumes[batch].state != GapDetected then Err(NotGapDetected(b.volumes[batch].state))
    else Ok(b.(volumes := b.volumes[batch := b.volumes[batch].(state := Acknowledged)]))
  }

  // ----- the gate -----

  datatype BlockReason =
    | VolumeGap(batch: string, missing: seq<int>)
    | OpenConflict(record: nat, conflicts: seq<nat>, rules: seq<string>)

  const BLOCKING := {Open, UnderEnquiry, Referred}

  /** The ids of the blocking conflicts that name a record. */
  function BlockingConflicts(conflicts: seq<Conflict>, record: nat): (r: seq<nat>)
    ensures forall i: nat :: i in r <==> i < |conflicts| && record in conflicts[i].records && conflicts[i].state in BLOCKING
  {
    if conflicts == [] then []
    else
      var n := |conflicts| - 1;
      BlockingConflicts(conflicts[..n], record)
        + if record in conflicts[n].records && conflicts[n].state in BLOCKING then [n] else []
  }

  /** `check_volume_completeness` over `current_alert`. */
  function VolumeCheck(b: Books, batch: string): Option<BlockReason> {
    if batch !in b.volumes || b.volumes[batch].gaps == [] || b.volumes[batch].state == Acknowledged then None
    else Some(VolumeGap(batch, b.volumes[batch].gaps))
  }

  /** `check_open_conflict`. */
  function ConflictCheck(b: Books, record: nat): Option<BlockReason> {
    var ids := BlockingConflicts(b.conflicts, record);
    if ids == [] then None
    else
      assert forall i :: 0 <= i < |ids| ==> ids[i] in ids;
      Some(OpenConflict(record, ids, seq(|ids|, i requires 0 <= i < |ids| => b.conflicts[ids[i]].rule)))
  }

  /** `evaluate`: every check runs, and every reason is kept. */
  function Reasons(checks: seq<Option<BlockReason>>): seq<BlockReason> {
    if checks == [] then []
    else (if checks[0].Some? then [checks[0].value] else []) + Reasons(checks[1..])
  }

  // ----- publishing -----

  /** `latest_version`: the row of the group with the greatest version. */
  function Latest(rows: seq<Row>, group: string): (r: Option<nat>)
    ensures r.Some? ==> r.value < |rows| && rows[r.value].group == group
  {
    if rows == [] then None
    else
      var n := |rows| - 1;
      var before := Latest(rows[..n], group);
      if rows[n].group == group && (before.None? || rows[before.value].version < rows[n].version) then Some(n)
      else before
  }

  function Or<T>(given: Option<T>, previous: Option<T>): Option<T> {
    if given.Some? then given else previous
  }

  function Carry(given: Fields, previous: Fields): Fields {
    Fields(Or(given.parcelRef, previous.parcelRef), Or(given.ulpin, previous.ulpin), Or(given.lgdCodes, previous.lgdCodes))
  }

  const NOTHING := Fields(None, None, None)

  datatype Order = Order(group: Option<string>, batch: Option<string>, freshGroup: string, given: Fields)

  /** An empty group id is falsy: no previous version is looked up for it. */
  function PreviousOf(b: Books, o: Order): (r: Option<nat>)
    ensures r.Some? ==> r.value < |b.rows|
  {
    if Truthy(o.group) then Latest(b.rows, o.group.value) else None
  }

  function GroupOf(o: Order): string {
    if o.group.Some? then o.group.value else o.freshGroup
  }

  function Checks(b: Books, o: Order): seq<Option<BlockReason>> {
    var previous := PreviousOf(b, o);
    (if o.batch.Some? then [VolumeCheck(b, o.batch.value)] else [])
      + if previous.Some? then [ConflictCheck(b, previous.value)] else []
  }

  function NextRow(b: Books, o: Order): Row {
    var previous := PreviousOf(b, o);
    if previous.Some? then
      Row(GroupOf(o), b.rows[previous.value].version + 1, Carry(o.given, b.rows[previous.value].fields))
    else
      Row(GroupOf(o), 1, Carry(o.given, NOTHING))
  }

  /** `uq_record_group_version`. */
  predicate VersionTaken(rows: seq<Row>, group: string, version: nat) {
    exists i :: 0 <= i < |rows| && rows[i].group == group && rows[i].version == version
  }

  datatype PublishError = Blocked(reasons: seq<BlockReason>) | DuplicateVersion

  /** `publish_new_version`: what it returns, the id of the new row or an error, and the tables after it. */
  function Publish(b: Books, o: Order): (Result<nat, PublishError>, Books) {
    var reasons := Reasons(Checks(b, o));
    var row := NextRow(b, o);
    if reasons != [] then (Err(Blocked(reasons)), b)
    else if VersionTaken(b.rows, row.group, row.version) then (Err(DuplicateVersion), b)
    else (Ok(|b.rows|), b.(rows := b.rows + [row]))
  }

  // ----- the session -----

  class PublicationTables {
    var rows: seq<Row>
    var conflicts: seq<Conflict>
    var pages: map<string, seq<Option<int>>>
    var volumes: map<string, VolumeIndex>

    function View(): Books
      reads this
    {
      Books(rows, conflicts, pages, volumes)
    }

    method RebuildIndex(batch: string) returns (index: VolumeIndex)
      modifies `volumes
      ensures View() == Rebuild(old(View()), batch)
      ensures index == View().volumes[batch]
    {
      hide Sorted, Positions, NotIn, Range;
      var observed := Sorted(Positions(PagesOf(View(), batch)));
      var expected, gaps := [], [];
      NothingMissing(observed);
      if observed != [] {
        expected := Range(observed[0], observed[|observed| - 1] + 1);
        gaps := NotIn(expected, observed);
      }
      index := if batch in volumes then volumes[batch] else VolumeIndex([], [], [], Pending);
      index := index.(expected := expected, observed := observed, gaps := gaps);
      if gaps != [] {
        if index.state != Acknowledged {
          index := index.(state := GapDetected);
        }
      } else {
        index := index.(state := if expected != [] then Complete else Pending);
      }
      volumes := volumes[batch := index];
    }

    method AcknowledgeGap(batch: string) returns (r: Result<VolumeIndex, AcknowledgeError>)
      modifies `volumes
      ensures match Acknowledge(old(View()), batch)
              case Ok(after) => View() == after && batch in volumes && r == Ok(volumes[batch])
              case Err(e) => View() == old(View()) && r == Err(e)
    {
      if batch !in volumes {
        return Err(NoIndex);
      }
      if volumes[batch].state != GapDetected {
        return Err(NotGapDetected(volumes[batch].state));
      }
      volumes := volumes[batch := volumes[batch].(state := Acknowledged)];
      return Ok(volumes[batch]);
    }

    method PublishNewVersion(o: Order) returns (r: Result<nat, PublishError>)
      modifies `rows
      ensures (r, View()) == Publish(old(View()), o)
    {
      var checks := [];
      if o.batch.Some? {
        checks := checks + [VolumeCheck(View(), o.batch.value)];
      }
      var previous := if Truthy(o.group) then Latest(rows, o.group.value) else None;
      if previous.Some? {
        checks := checks + [ConflictCheck(View(), previous.value)];
      }
      assert checks == Checks(View(), o);
      var reasons := Reasons(checks);
      if reasons != [] {
        return Err(Blocked(reasons));
      }
      var next := if previous.Some? then rows[previous.value].version + 1 else 1;
      var carried := if previous.Some? then rows[previous.value].fields else NOTHING;
      var group := if o.group.Some? then o.group.value else o.freshGroup;
      if VersionTaken(rows, group, next) {
        return Err(DuplicateVersion);
      }
      rows := rows + [Row(group, next, Carry(o.given, carried))];
      return Ok(|rows| - 1);
    }
  }
}
