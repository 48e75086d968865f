/** What every run of publishing, rebuilding and acknowledging keeps. */
module PublicationProofs {

  import opened Wrappers
  import opened Publication

  // ----- holes -----

  /** A position nobody observed although both a lower and a higher one were. */
  ghost predicate Hole(observed: seq<int>, i: int) {
    i !in observed && exists a, b :: a in observed && b in observed && a < i < b
  }

  predicate Ascending(xs: seq<int>) {
    forall i, j :: 0 <= i < j < |xs| ==> xs[i] <= xs[j]
  }

  lemma {:induction false} InsertPermutes(xs: seq<int>, x: int)
    ensures multiset(Insert(xs, x)) == multiset(xs) + multiset{x}
  {
    if xs != [] && xs[|xs| - 1] > x {
      var n := |xs| - 1;
      InsertPermutes(xs[..n], x);
      assert xs == xs[..n] + [xs[n]];
      MultisetSnoc(xs[..n], xs[n]);
      MultisetSnoc(Insert(xs[..n], x), xs[n]);
    }
  }

  lemma MultisetSnoc(xs: seq<int>, x: int)
    ensures multiset(xs + [x]) == multiset(xs) + multiset{x}
  {
  }

  lemma InsertHolds(xs: seq<int>, x: int, y: int)
    requires y in Insert(xs, x)
    ensures y in xs || y == x
  {
    InsertPermutes(xs, x);
    assert y in multiset(Insert(xs, x));
  }

  lemma {:induction false} InsertKeeps(xs: seq<int>, x: int)
    requires Ascending(xs)
    ensures Ascending(Insert(xs, x))
  {
    if xs != [] && xs[|xs| - 1] > x {
      var n := |xs| - 1;
      InsertKeeps(xs[..n], x);
      var low := Insert(xs[..n], x);
      forall i | 0 <= i < |low|
        ensures low[i] <= xs[n]
      {
        InsertHolds(xs[..n], x, low[i]);
      }
    }
  }

  lemma {:induction false} SortedSorts(xs: seq<int>)
    ensures Ascending(Sorted(xs)) && multiset(Sorted(xs)) == multiset(xs)
  {
    if xs != [] {
      var n := |xs| - 1;
      SortedSorts(xs[..n]);
      InsertKeeps(Sorted(xs[..n]), xs[n]);
      InsertPermutes(Sorted(xs[..n]), xs[n]);
      assert xs == xs[..n] + [xs[n]];
    }
  }

  lemma SortedHolds(xs: seq<int>, i: int)
    ensures i in Sorted(xs) <==> i in xs
  {
    SortedSorts(xs);
    assert i in Sorted(xs) <==> i in multiset(Sorted(xs));
    assert i in xs <==> i in multiset(xs);
  }

  lemma {:induction false} NotInHolds(xs: seq<int>, seen: seq<int>, i: int)
    ensures i in NotIn(xs, seen) <==> i in xs && i !in seen
  {
    if xs != [] {
      var n := |xs| - 1;
      NotInHolds(xs[..n], seen, i);
      assert xs == xs[..n] + [xs[n]];
    }
  }

  lemma RangeHolds(lo: int, hi: int, i: int)
    ensures i in Range(lo, hi) <==> lo <= i < hi
  {
    if lo <= i < hi {
      assert Range(lo, hi)[i - lo] == i;
    }
  }

  function GapsIn(observed: seq<int>): seq<int> {
    NotIn(ExpectedFor(Sorted(observed)), Sorted(observed))
  }

  lemma {:induction false} Ends(sorted: seq<int>, i: int)
    requires Ascending(sorted) && i in sorted
    ensures sorted[0] <= i <= sorted[|sorted| - 1]
  {
  }

  /** Where a position can be a hole: between the ends of what was observed. */
  lemma HoleWithin(observed: seq<int>, i: int)
    requires observed != []
    ensures var sorted := Sorted(observed);
            sorted != [] && (Hole(observed, i) <==> i !in observed && sorted[0] <= i <= sorted[|sorted| - 1])
  {
    var sorted := Sorted(observed);
    SortedSorts(observed);
    SortedHolds(observed, observed[0]);
    var lo, hi := sorted[0], sorted[|sorted| - 1];
    SortedHolds(observed, lo);
    SortedHolds(observed, hi);
    hide Sorted;
    if Hole(observed, i) {
      var a, b :| a in observed && b in observed && a < i < b;
      SortedHolds(observed, a);
      SortedHolds(observed, b);
      Ends(sorted, a);
      Ends(sorted, b);
    }
  }

  /** The gaps of an index are exactly the holes between the least and the greatest observed position. */
  lemma GapsAreHoles(observed: seq<int>, i: int)
    ensures i in GapsIn(observed) <==> Hole(observed, i)
  {
    if observed != [] {
      var sorted := Sorted(observed);
      HoleWithin(observed, i);
      SortedHolds(observed, i);
      NotInHolds(ExpectedFor(sorted), sorted, i);
      RangeHolds(sorted[0], sorted[|sorted| - 1] + 1, i);
      hide Sorted, NotIn, Hole, Range;
    }
  }

  ghost predicate HasHole(observed: seq<int>) {
    exists i :: Hole(observed, i)
  }

  lemma NoGapsIffNoHole(observed: seq<int>)
    ensures GapsIn(observed) == [] <==> !HasHole(observed)
  {
    var gaps := GapsIn(observed);
    if gaps != [] {
      GapsAreHoles(observed, gaps[0]);
    }
    if i :| Hole(observed, i) {
      GapsAreHoles(observed, i);
    }
  }

  // ----- runs -----

  datatype Issue = Issue(group: string, given: Fields)

  datatype Event = Rebuilding(batch: string, observed: seq<int>) | Acknowledging(batch: string)

  /** The tables, the publications that went through, and the rebuilds and acknowledgements that did. */
  datatype World = World(books: Books, published: seq<Issue>, events: seq<Event>)

  datatype Action =
    | PublishAction(order: Order)
    | RebuildAction(batch: string)
    | AcknowledgeAction(batch: string)
    | SetPages(batch: string, pages: seq<Option<int>>)
    | SetConflicts(conflicts: seq<Conflict>)

  function Apply(w: World, a: Action): World {
    var b := w.books;
    match a
    case PublishAction(o) =>
      var (r, after) := Publish(b, o);
      if r.Ok? then w.(books := after, published := w.published + [Issue(GroupOf(o), o.given)]) else w
    case RebuildAction(batch) =>
      w.(books := Rebuild(b, batch), events := w.events + [Rebuilding(batch, Positions(PagesOf(b, batch)))])
    case AcknowledgeAction(batch) =>
      var r := Acknowledge(b, batch);
      if r.Ok? then w.(books := r.value, events := w.events + [Acknowledging(batch)]) else w
    case SetPages(batch, pages) => w.(books := b.(pages := b.pages[batch := pages]))
    case SetConflicts(conflicts) => w.(books := b.(conflicts := conflicts))
  }

  const START := World(Books([], [], map[], map[]), [], [])

  function Run(actions: seq<Action>): World {
    if actions == [] then START else Apply(Run(actions[..|actions| - 1]), actions[|actions| - 1])
  }

  // ----- versions -----

  function Count(rows: seq<Row>, group: string): nat {
    if rows == [] then 0
    else Count(rows[..|rows| - 1], group) + if rows[|rows| - 1].group == group then 1 else 0
  }

  /** Each group's versions are 1, 2, 3, ... in the order of publication. */
  predicate VersionsOk(rows: seq<Row>) {
    forall i :: 0 <= i < |rows| ==> rows[i].version == Count(rows[..i], rows[i].group) + 1
  }

  lemma VersionsOkBefore(rows: seq<Row>)
    requires rows != [] && VersionsOk(rows)
    ensures VersionsOk(rows[..|rows| - 1])
  {
    var before := rows[..|rows| - 1];
    forall i | 0 <= i < |before|
      ensures before[i].version == Count(before[..i], before[i].group) + 1
    {
      assert before[..i] == rows[..i];
    }
  }

  lemma {:induction false} LatestIsCount(rows: seq<Row>, group: string)
    requires VersionsOk(rows)
    ensures var latest := Latest(rows, group);
            if Count(rows, group) == 0 then latest.None?
            else latest.Some? && rows[latest.value].version == Count(rows, group)
  {
    if rows != [] {
      VersionsOkBefore(rows);
      LatestIsCount(rows[..|rows| - 1], group);
    }
  }

  lemma {:induction false} VersionsTaken(rows: seq<Row>, group: string, version: nat)
    requires VersionsOk(rows)
    ensures VersionTaken(rows, group, version) <==> 1 <= version <= Count(rows, group)
  {
    if rows != [] {
      var n := |rows| - 1;
      VersionsOkBefore(rows);
      VersionsTaken(rows[..n], group, version);
      TakenBeforeOrLast(rows, group, version);
      hide VersionTaken;
    }
  }

  lemma TakenBeforeOrLast(rows: seq<Row>, group: string, version: nat)
    requires rows != []
    ensures var n := |rows| - 1;
            VersionTaken(rows, group, version) <==>
              VersionTaken(rows[..n], group, version) || (rows[n].group == group && rows[n].version == version)
  {
    var n := |rows| - 1;
    if VersionTaken(rows[..n], group, version) {
      var i :| 0 <= i < n && rows[..n][i].group == group && rows[..n][i].version == version;
      assert rows[i].group == group && rows[i].version == version;
    }
    if VersionTaken(rows, group, version) {
      var i :| 0 <= i < |rows| && rows[i].group == group && rows[i].version == version;
      assert i < n ==> rows[..n][i] == rows[i];
    }
  }

  /** The version a publication would get is the next one, except where no previous version is looked up. */
  lemma NextVersion(b: Books, o: Order)
    requires VersionsOk(b.rows)
    ensures NextRow(b, o).version == if Truthy(o.group) then Count(b.rows, o.group.value) + 1 else 1
    ensures VersionTaken(b.rows, NextRow(b, o).group, NextRow(b, o).version)
            <==> !Truthy(o.group) && Count(b.rows, GroupOf(o)) > 0
  {
    if Truthy(o.group) {
      LatestIsCount(b.rows, o.group.value);
    }
    VersionsTaken(b.rows, GroupOf(o), NextRow(b, o).version);
  }

  lemma PublishKeepsVersions(b: Books, o: Order)
    requires VersionsOk(b.rows)
    ensures VersionsOk(Publish(b, o).1.rows)
  {
    NextVersion(b, o);
    hide Reasons, Checks, NextRow, VersionTaken, Count;
    var (r, after) := Publish(b, o);
    if r.Ok? {
      forall i | 0 <= i < |after.rows|
        ensures after.rows[i].version == Count(after.rows[..i], after.rows[i].group) + 1
      {
        assert after.rows[..i] == b.rows[..i];
        if i == |b.rows| {
          assert b.rows[..i] == b.rows;
          RowGroup(b, o);
        }
      }
    }
  }

  lemma RowGroup(b: Books, o: Order)
    ensures NextRow(b, o).group == GroupOf(o)
    ensures Truthy(o.group) ==> GroupOf(o) == o.group.value
  {
  }

  lemma {:induction false} RunsKeepVersions(actions: seq<Action>)
    ensures VersionsOk(Run(actions).books.rows)
  {
    if actions != [] {
      var n := |actions| - 1;
      RunsKeepVersions(actions[..n]);
      if actions[n].PublishAction? {
        PublishKeepsVersions(Run(actions[..n]).books, actions[n].order);
      }
      hide Publish, VersionsOk, Rebuild;
    }
  }

  // ----- carried fields -----

  /** What a group's publications gave, the later over the earlier. */
  function Given(published: seq<Issue>, group: string): Fields {
    if published == [] then NOTHING
    else
      var n := |published| - 1;
      var before := Given(published[..n], group);
      if published[n].group == group then Carry(published[n].given, before) else before
  }

  predicate FieldsOk(rows: seq<Row>, published: seq<Issue>) {
    && |rows| == |published|
    && forall i :: 0 <= i < |rows| ==>
         rows[i].group == published[i].group && rows[i].fields == Given(published[..i + 1], rows[i].group)
  }

  lemma FieldsOkBefore(rows: seq<Row>, published: seq<Issue>)
    requires rows != [] && FieldsOk(rows, published)
    ensures FieldsOk(rows[..|rows| - 1], published[..|rows| - 1])
  {
    var n := |rows| - 1;
    forall i | 0 <= i < n
      ensures rows[..n][i].fields == Given(published[..n][..i + 1], rows[..n][i].group)
    {
      assert published[..n][..i + 1] == published[..i + 1];
    }
  }

  /** The latest version of a group holds what its publications gave. */
  lemma {:induction false} LatestIsGiven(rows: seq<Row>, published: seq<Issue>, group: string)
    requires VersionsOk(rows) && FieldsOk(rows, published)
    ensures var latest := Latest(rows, group);
            Given(published, group) == if latest.Some? then rows[latest.value].fields else NOTHING
  {
    if rows != [] {
      var n := |rows| - 1;
      VersionsOkBefore(rows);
      FieldsOkBefore(rows, published);
      LatestIsGiven(rows[..n], published[..n], group);
      LatestIsCount(rows[..n], group);
      assert published[..n + 1] == published;
      hide Carry;
    }
  }

  lemma PublishKeepsFields(b: Books, o: Order, published: seq<Issue>)
    requires VersionsOk(b.rows) && FieldsOk(b.rows, published) && Publish(b, o).0.Ok?
    ensures FieldsOk(Publish(b, o).1.rows, published + [Issue(GroupOf(o), o.given)])
  {
    var row, entry := NextRow(b, o), Issue(GroupOf(o), o.given);
    NextVersion(b, o);
    LatestIsGiven(b.rows, published, row.group);
    LatestIsCount(b.rows, row.group);
    assert (published + [entry])[..|published|] == published;
    assert row.fields == Given(published + [entry], row.group) by {
      hide Checks, Reasons;
    }
    hide Publish, NextRow, Given;
    RowsAfter(b, o);
    AppendFields(b.rows, row, published, entry);
  }

  lemma RowsAfter(b: Books, o: Order)
    requires Publish(b, o).0.Ok?
    ensures Publish(b, o).1.rows == b.rows + [NextRow(b, o)]
  {
  }

  lemma AppendFields(rows: seq<Row>, row: Row, published: seq<Issue>, entry: Issue)
    requires FieldsOk(rows, published)
    requires row.group == entry.group && row.fields == Given(published + [entry], row.group)
    ensures FieldsOk(rows + [row], published + [entry])
  {
    hide Given;
    var all, more := rows + [row], published + [entry];
    forall i | 0 <= i < |all|
      ensures all[i].group == more[i].group && all[i].fields == Given(more[..i + 1], all[i].group)
    {
      if i < |rows| {
        assert more[..i + 1] == published[..i + 1];
      } else {
        assert more[..i + 1] == more;
      }
    }
  }

  /** A field that `Carry` treats by itself, the given value over the previous one. */
  ghost predicate Carried<T(!new)>(field: Fields -> Option<T>) {
    && field(NOTHING).None?
    && forall a, b :: field(Carry(a, b)) == Or(field(a), field(b))
  }

  lemma EveryFieldIsCarried()
    ensures Carried((f: Fields) => f.parcelRef) && Carried((f: Fields) => f.ulpin) && Carried((f: Fields) => f.lgdCodes)
  {
  }

  /** The field's value is the last that was given, at k; when it has none, none was given. */
  ghost predicate LastAt<T(!new)>(field: Fields -> Option<T>, value: Option<T>, published: seq<Issue>, group: string, k: nat) {
    && (value.Some? ==> k < |published| && published[k].group == group && field(published[k].given) == value)
    && forall j :: (if value.Some? then k else -1) < j < |published| && published[j].group == group
         ==> field(published[j].given).None?
  }

  lemma {:induction false} GivenIsLast<T(!new)>(published: seq<Issue>, group: string, field: Fields -> Option<T>)
      returns (k: nat)
    requires Carried(field)
    ensures LastAt(field, field(Given(published, group)), published, group, k)
  {
    k := 0;
    if published != [] {
      var n := |published| - 1;
      k := GivenIsLast(published[..n], group, field);
      FieldOfGiven(published, group, field);
      hide Given, Carry, Carried;
      if published[n].group == group && field(published[n].given).Some? {
        k := n;
      } else {
        LastAtSnoc(field, field(Given(published[..n], group)), published, group, k);
      }
    }
  }

  lemma FieldOfGiven<T(!new)>(published: seq<Issue>, group: string, field: Fields -> Option<T>)
    requires Carried(field) && published != []
    ensures var n := |published| - 1;
            field(Given(published, group))
              == if published[n].group == group && field(published[n].given).Some? then field(published[n].given)
                 else field(Given(published[..n], group))
  {
    var n := |published| - 1;
    var before := Given(published[..n], group);
    assert field(Carry(published[n].given, before)) == Or(field(published[n].given), field(before));
    hide Carry;
  }

  lemma LastAtSnoc<T(!new)>(field: Fields -> Option<T>, value: Option<T>, published: seq<Issue>, group: string, k: nat)
    requires published != [] && LastAt(field, value, published[..|published| - 1], group, k)
    requires var last := published[|published| - 1]; !(last.group == group && field(last.given).Some?)
    ensures LastAt(field, value, published, group, k)
  {
    var n := |published| - 1;
    forall j | (if value.Some? then k else -1) < j < |published| && published[j].group == group
      ensures field(published[j].given).None?
    {
      assert j < n ==> published[..n][j] == published[j];
    }
    assert value.Some? ==> published[..n][k] == published[k];
  }

  /** Each field of each version is the last value given up to that publication of its group. */
  lemma RowsHoldLastGiven<T(!new)>(actions: seq<Action>, i: nat, field: Fields -> Option<T>) returns (k: nat)
    requires Carried(field)
    ensures var w := Run(actions);
            i < |w.books.rows| ==>
              && i < |w.published|
              && LastAt(field, field(w.books.rows[i].fields), w.published[..i + 1], w.books.rows[i].group, k)
  {
    RunsCarryFields(actions);
    var w := Run(actions);
    k := 0;
    if i < |w.books.rows| {
      k := GivenIsLast(w.published[..i + 1], w.books.rows[i].group, field);
    }
    hide Run, Carried, Given, LastAt;
  }

  lemma {:induction false} RunsCarryFields(actions: seq<Action>)
    ensures FieldsOk(Run(actions).books.rows, Run(actions).published)
  {
    if actions != [] {
      var n := |actions| - 1;
      var w := Run(actions[..n]);
      RunsCarryFields(actions[..n]);
      RunsKeepVersions(actions[..n]);
      if actions[n].PublishAction? && Publish(w.books, actions[n].order).0.Ok? {
        PublishKeepsFields(w.books, actions[n].order, w.published);
      }
      hide Publish, FieldsOk, VersionsOk, Rebuild;
    }
  }

  // ----- completeness -----

  /** What the last rebuild of a batch observed. */
  function LastObserved(events: seq<Event>, batch: string): Option<seq<int>> {
    if events == [] then None
    else
      var n := |events| - 1;
      if events[n].Rebuilding? && events[n].batch == batch then Some(events[n].observed)
      else LastObserved(events[..n], batch)
  }

  /** Whether a gap of the batch was acknowledged since the last rebuild of it that found no hole. */
  ghost predicate AcknowledgedSince(events: seq<Event>, batch: string) {
    events != []
    && var n := |events| - 1;
       if events[n].batch != batch then AcknowledgedSince(events[..n], batch)
       else match events[n]
         case Acknowledging(_) => true
         case Rebuilding(_, observed) => HasHole(observed) && AcknowledgedSince(events[..n], batch)
  }

  ghost predicate VolumeOk(w: World, batch: string) {
    var observed := LastObserved(w.events, batch);
    var volumes := w.books.volumes;
    if batch !in volumes then observed.None? && !AcknowledgedSince(w.events, batch)
    else
      && observed.Some?
      && volumes[batch].observed == Sorted(observed.value)
      && volumes[batch].gaps == GapsIn(observed.value)
      && (volumes[batch].state == Acknowledged <==> AcknowledgedSince(w.events, batch))
      && (volumes[batch].state in {GapDetected, Acknowledged} <==> volumes[batch].gaps != [])
  }

  /** An index rebuilt from what was observed. */
  lemma RebuiltVolumeOk(w: World, of: string, observed: seq<int>, index: VolumeIndex, batch: string)
    requires VolumeOk(w, batch)
    requires index.observed == Sorted(observed) && index.gaps == GapsIn(observed)
    requires index.gaps != [] <==> HasHole(observed)
    requires index.state == if index.gaps == [] then index.state
                            else if of in w.books.volumes && w.books.volumes[of].state == Acknowledged then Acknowledged
                            else GapDetected
    requires index.gaps == [] ==> index.state in {Pending, Complete}
    ensures VolumeOk(w.(books := w.books.(volumes := w.books.volumes[of := index]),
                        events := w.events + [Rebuilding(of, observed)]), batch)
  {
    assert (w.events + [Rebuilding(of, observed)])[..|w.events|] == w.events;
    hide Sorted, GapsIn, HasHole;
  }

  lemma AcknowledgeKeepsVolume(w: World, of: string, batch: string)
    requires VolumeOk(w, batch)
    ensures VolumeOk(Apply(w, AcknowledgeAction(of)), batch)
  {
    hide Sorted, NotIn, ExpectedFor, HasHole, GapsIn;
    if Acknowledge(w.books, of).Ok? {
      assert Apply(w, AcknowledgeAction(of)).events[..|w.events|] == w.events;
    }
  }

  lemma {:induction false} RunsKeepVolumes(actions: seq<Action>, batch: string)
    ensures VolumeOk(Run(actions), batch)
  {
    if actions != [] {
      var n := |actions| - 1;
      var w := Run(actions[..n]);
      RunsKeepVolumes(actions[..n], batch);
      match actions[n] {
        case RebuildAction(of) =>
          var observed := Positions(PagesOf(w.books, of));
          NoGapsIffNoHole(observed);
          RebuiltVolumeOk(w, of, observed, Rebuilt(w.books, of), batch);
        case AcknowledgeAction(of) => AcknowledgeKeepsVolume(w, of, batch);
        case PublishAction(o) => PublishKeepsVolumes(w.books, o);
        case _ =>
      }
      hide Publish, Acknowledge, LastObserved, AcknowledgedSince, Sorted, NotIn, ExpectedFor, VolumeOk;
    }
  }

  lemma PublishKeepsVolumes(b: Books, o: Order)
    ensures Publish(b, o).1.volumes == b.volumes
  {
  }

  // ----- what the gate lets through -----

  /** A batch lets a publication pass: never rebuilt, no hole at its last rebuild, or a gap acknowledged since. */
  ghost predicate Cleared(events: seq<Event>, batch: string) {
    var observed := LastObserved(events, batch);
    observed.None? || !HasHole(observed.value) || AcknowledgedSince(events, batch)
  }

  ghost predicate Contested(b: Books, row: nat) {
    exists i :: 0 <= i < |b.conflicts| && row in b.conflicts[i].records && b.conflicts[i].state != Resolved
  }

  lemma VolumeCheckPasses(w: World, batch: string)
    requires VolumeOk(w, batch)
    ensures VolumeCheck(w.books, batch).None? <==> Cleared(w.events, batch)
  {
    var observed := LastObserved(w.events, batch);
    if observed.Some? {
      NoGapsIffNoHole(observed.value);
    }
    hide GapsIn, HasHole, Sorted, AcknowledgedSince, LastObserved;
  }

  lemma ConflictCheckPasses(b: Books, row: nat)
    ensures ConflictCheck(b, row).None? <==> !Contested(b, row)
  {
    var ids := BlockingConflicts(b.conflicts, row);
    if ids != [] {
      assert ids[0] in ids;
    }
  }

  lemma ReasonsAre(checks: seq<Option<BlockReason>>)
    requires |checks| <= 2
    ensures |checks| == 0 ==> Reasons(checks) == []
    ensures |checks| == 1 ==> Reasons(checks) == if checks[0].Some? then [checks[0].value] else []
    ensures |checks| == 2 ==>
      Reasons(checks) == (if checks[0].Some? then [checks[0].value] else []) + if checks[1].Some? then [checks[1].value] else []
  {
  }

  lemma {:induction false} CountGrows(rows: seq<Row>, i: nat, group: string)
    requires i <= |rows|
    ensures Count(rows[..i], group) <= Count(rows, group)
    ensures i < |rows| && rows[i].group == group ==> Count(rows[..i], group) < Count(rows, group)
    decreases |rows|
  {
    var n := |rows| - 1;
    if i <= n {
      CountGrows(rows[..n], i, group);
      assert rows[..n][..i] == rows[..i];
    } else {
      assert rows[..i] == rows;
    }
  }

  lemma LaterVersionsAreGreater(rows: seq<Row>, i: nat, j: nat)
    requires VersionsOk(rows) && i < j < |rows| && rows[i].group == rows[j].group
    ensures rows[i].version < rows[j].version
  {
    CountGrows(rows[..j], i, rows[i].group);
    assert rows[..j][..i] == rows[..i];
  }

  /** No blocking conflict names the group's last version, if it has one. */
  ghost predicate LatestUncontested(b: Books, group: string) {
    forall i: nat :: i < |b.rows| && b.rows[i].group == group && b.rows[i].version == Count(b.rows, group)
      ==> !Contested(b, i)
  }

  lemma PreviousUncontested(b: Books, o: Order)
    requires VersionsOk(b.rows)
    ensures PreviousOf(b, o).Some? && ConflictCheck(b, PreviousOf(b, o).value).Some?
            <==> Truthy(o.group) && !LatestUncontested(b, GroupOf(o))
  {
    if Truthy(o.group) {
      var group, previous := o.group.value, PreviousOf(b, o);
      LatestIsCount(b.rows, group);
      if previous.Some? {
        var latest := previous.value;
        ConflictCheckPasses(b, latest);
        hide ConflictCheck, Contested, Latest;
        forall i: nat | i < |b.rows| && b.rows[i].group == group && b.rows[i].version == Count(b.rows, group)
          ensures i == latest
        {
          if i < latest {
            LaterVersionsAreGreater(b.rows, i, latest);
          } else if latest < i {
            LaterVersionsAreGreater(b.rows, latest, i);
          }
        }
      } else {
        forall i: nat | i < |b.rows|
          ensures b.rows[i].group != group
        {
          CountGrows(b.rows, i, group);
        }
      }
    }
  }

  lemma PublishOkIff(b: Books, o: Order)
    ensures Publish(b, o).0.Ok? <==>
      && (o.batch.Some? ==> VolumeCheck(b, o.batch.value).None?)
      && !(PreviousOf(b, o).Some? && ConflictCheck(b, PreviousOf(b, o).value).Some?)
      && !VersionTaken(b.rows, NextRow(b, o).group, NextRow(b, o).version)
  {
    ReasonsAre(Checks(b, o));
    hide VersionTaken, NextRow, VolumeCheck, ConflictCheck, Reasons, PreviousOf;
  }

  /**
   * After any run, a publication goes through if and only if its batch is cleared, the version it follows is
   * uncontested, and a group for which no previous version is looked up is new.
   */
  lemma PublishSucceedsIff(actions: seq<Action>, o: Order)
    ensures var w := Run(actions);
            Publish(w.books, o).0.Ok? <==>
              && (o.batch.Some? ==> Cleared(w.events, o.batch.value))
              && if Truthy(o.group) then LatestUncontested(w.books, GroupOf(o)) else Count(w.books.rows, GroupOf(o)) == 0
  {
    var w := Run(actions);
    RunsKeepVersions(actions);
    if o.batch.Some? {
      RunsKeepVolumes(actions, o.batch.value);
      VolumeCheckPasses(w, o.batch.value);
    }
    NextVersion(w.books, o);
    PreviousUncontested(w.books, o);
    PublishOkIff(w.books, o);
    hide *;
  }

  /** A refused publication changes nothing and names every check that failed. */
  lemma BlockedNamesEveryFailure(b: Books, o: Order)
    ensures var (r, after) := Publish(b, o);
            var gap := if o.batch.Some? then VolumeCheck(b, o.batch.value) else None;
            var contest := if PreviousOf(b, o).Some? then ConflictCheck(b, PreviousOf(b, o).value) else None;
            && (r.Err? ==> after == b)
            && ((gap.Some? || contest.Some?) <==> r.Err? && r.error.Blocked?)
            && (r.Err? && r.error.Blocked? ==>
                  && (gap.Some? ==> gap.value in r.error.reasons)
                  && (contest.Some? ==> contest.value in r.error.reasons)
                  && forall reason :: reason in r.error.reasons ==> Some(reason) in {gap, contest})
  {
    ReasonsAre(Checks(b, o));
    hide VersionTaken, NextRow, VolumeCheck, ConflictCheck, Reasons, PreviousOf;
  }

  // ----- what each call writes -----

  /** The last row of a group. */
  ghost predicate IsLast(rows: seq<Row>, i: nat, group: string) {
    i < |rows| && rows[i].group == group && forall j :: i < j < |rows| ==> rows[j].group != group
  }

  lemma LatestUnfolds(rows: seq<Row>, group: string)
    requires rows != []
    ensures var n := |rows| - 1;
            var before := Latest(rows[..n], group);
            Latest(rows, group) ==
              if rows[n].group == group && (before.None? || rows[before.value].version < rows[n].version) then Some(n) else before
  {
  }

  lemma LastVersionIsNext(rows: seq<Row>)
    requires rows != [] && VersionsOk(rows)
    ensures var n := |rows| - 1; VersionsOk(rows[..n]) && rows[n].version == Count(rows[..n], rows[n].group) + 1
  {
    VersionsOkBefore(rows);
  }

  ghost predicate NoneOf(rows: seq<Row>, group: string) {
    forall j :: 0 <= j < |rows| ==> rows[j].group != group
  }

  lemma OneMoreRow(rows: seq<Row>, group: string)
    requires rows != []
    ensures var n := |rows| - 1;
            && (NoneOf(rows, group) <==> NoneOf(rows[..n], group) && rows[n].group != group)
            && (forall i: nat :: IsLast(rows[..n], i, group) && rows[n].group != group ==> IsLast(rows, i, group))
            && (rows[n].group == group ==> IsLast(rows, n, group))
  {
    assert rows == rows[..|rows| - 1] + [rows[|rows| - 1]];
  }

  lemma {:induction false} LatestIsLast(rows: seq<Row>, group: string)
    requires VersionsOk(rows)
    ensures var latest := Latest(rows, group); if latest.None? then NoneOf(rows, group) else IsLast(rows, latest.value, group)
  {
    if rows != [] {
      hide *;
      var n := |rows| - 1;
      LastVersionIsNext(rows);
      LatestUnfolds(rows, group);
      LatestIsLast(rows[..n], group);
      LatestIsCount(rows[..n], group);
      OneMoreRow(rows, group);
    } else {
      assert Latest(rows, group).None?;
    }
  }

  lemma LastIsOne(rows: seq<Row>, i: nat, group: string)
    requires IsLast(rows, i, group)
    ensures !NoneOf(rows, group) && forall k: nat :: IsLast(rows, k, group) ==> k == i
  {
  }

  /**
   * The row of a publication that goes through: numbered after the last row of its group, and with the fields that
   * were given or, where one was not, that row's. A group id that is empty or missing follows no row.
   */
  lemma PublishWrites(b: Books, o: Order)
    requires VersionsOk(b.rows) && Publish(b, o).0.Ok?
    ensures var (r, after) := Publish(b, o);
            r == Ok(|b.rows|) && |after.rows| == |b.rows| + 1 && after == b.(rows := b.rows + [after.rows[|b.rows|]])
    ensures var row, group := Publish(b, o).1.rows[|b.rows|], if o.group == None then o.freshGroup else o.group.value;
            row.group == group && (NoneOf(b.rows, group) ==> row == Row(group, 1, o.given))
    ensures var row, group := Publish(b, o).1.rows[|b.rows|], if o.group == None then o.freshGroup else o.group.value;
            forall i: nat :: IsLast(b.rows, i, group) ==>
              && row.version == b.rows[i].version + 1
              && row.fields.parcelRef == (if o.given.parcelRef == None then b.rows[i].fields.parcelRef else o.given.parcelRef)
              && row.fields.ulpin == (if o.given.ulpin == None then b.rows[i].fields.ulpin else o.given.ulpin)
              && row.fields.lgdCodes == (if o.given.lgdCodes == None then b.rows[i].fields.lgdCodes else o.given.lgdCodes)
  {
    var group := GroupOf(o);
    assert Publish(b, o).1.rows[|b.rows|] == NextRow(b, o);
    NextVersion(b, o);
    LatestIsLast(b.rows, group);
    NoneCounted(b.rows, group);
    if Latest(b.rows, group).Some? {
      LastIsOne(b.rows, Latest(b.rows, group).value, group);
    }
    hide Reasons, Checks, VersionTaken, Latest, VersionsOk, NoneOf, IsLast, Count;
  }

  lemma {:induction false} NoneCounted(rows: seq<Row>, group: string)
    ensures Count(rows, group) == 0 <==> NoneOf(rows, group)
  {
    if rows != [] {
      NoneCounted(rows[..|rows| - 1], group);
    }
  }

  /** A refusal for a gap names the batch and its gaps, one for a conflict the version and every conflict that blocks it. */
  lemma ReasonsName(b: Books, batch: string, record: nat)
    ensures VolumeCheck(b, batch).Some? ==> batch in b.volumes && VolumeCheck(b, batch).value == VolumeGap(batch, b.volumes[batch].gaps)
    ensures ConflictCheck(b, record).Some? ==>
              var reason := ConflictCheck(b, record).value;
              && reason.OpenConflict? && reason.record == record && |reason.rules| == |reason.conflicts|
              && (forall i: nat :: i in reason.conflicts <==>
                    i < |b.conflicts| && record in b.conflicts[i].records && b.conflicts[i].state != Resolved)
              && Rising(reason.conflicts)
              && (forall k :: 0 <= k < |reason.rules| ==>
                    reason.conflicts[k] < |b.conflicts| && reason.rules[k] == b.conflicts[reason.conflicts[k]].rule)
  {
    BlockingAscend(b.conflicts, record);
    var ids := BlockingConflicts(b.conflicts, record);
    assert forall k :: 0 <= k < |ids| ==> ids[k] in ids;
    hide BlockingConflicts;
  }

  lemma BlockingUnfolds(conflicts: seq<Conflict>, record: nat)
    requires conflicts != []
    ensures var n := |conflicts| - 1;
            BlockingConflicts(conflicts, record) ==
              BlockingConflicts(conflicts[..n], record)
              + if record in conflicts[n].records && conflicts[n].state in BLOCKING then [n] else []
    ensures var before := BlockingConflicts(conflicts[..|conflicts| - 1], record);
            forall k :: 0 <= k < |before| ==> before[k] < |conflicts| - 1
  {
    var before := BlockingConflicts(conflicts[..|conflicts| - 1], record);
    assert forall k :: 0 <= k < |before| ==> before[k] in before;
  }

  ghost predicate Rising(ids: seq<nat>) {
    forall j, k :: 0 <= j < k < |ids| ==> ids[j] < ids[k]
  }

  lemma {:induction false} BlockingAscend(conflicts: seq<Conflict>, record: nat)
    ensures Rising(BlockingConflicts(conflicts, record))
  {
    if conflicts != [] {
      hide BlockingConflicts;
      var before := BlockingConflicts(conflicts[..|conflicts| - 1], record);
      BlockingAscend(conflicts[..|conflicts| - 1], record);
      BlockingUnfolds(conflicts, record);
    }
  }

  lemma {:induction false} PositionsHold(pages: seq<Option<int>>, x: int)
    ensures x in Positions(pages) <==> Some(x) in pages
  {
    if pages != [] {
      var n := |pages| - 1;
      PositionsHold(pages[..n], x);
      assert pages == pages[..n] + [pages[n]];
    }
  }

  lemma {:induction false} NotInAscends(lo: int, hi: int, seen: seq<int>)
    requires lo <= hi
    ensures var r := NotIn(Range(lo, hi), seen); forall j, k :: 0 <= j < k < |r| ==> r[j] < r[k]
    decreases hi - lo
  {
    if lo < hi {
      var before := NotIn(Range(lo, hi - 1), seen);
      NotInAscends(lo, hi - 1, seen);
      assert Range(lo, hi)[..hi - lo - 1] == Range(lo, hi - 1);
      forall j | 0 <= j < |before| ensures before[j] < hi - 1 {
        NotInHolds(Range(lo, hi - 1), seen, before[j]);
        assert before[j] in before;
        RangeHolds(lo, hi - 1, before[j]);
      }
    }
  }

  /** The observed positions of an index, in order, and the range they span. */
  ghost predicate Spans(index: VolumeIndex, b: Books, batch: string) {
    && Ascending(index.observed)
    && (forall x :: x in index.observed <==> batch in b.pages && Some(x) in b.pages[batch])
    && (index.observed == [] ==> index.expected == [])
    && (index.observed != [] ==>
          var lo, hi := index.observed[0], index.observed[|index.observed| - 1];
          |index.expected| == hi - lo + 1 && forall k :: 0 <= k < |index.expected| ==> index.expected[k] == lo + k)
  }

  /** The gaps of an index: what of the range was not observed, in order. */
  ghost predicate GapsOf(index: VolumeIndex) {
    && (forall x :: x in index.gaps <==> x in index.expected && x !in index.observed)
    && (forall j, k :: 0 <= j < k < |index.gaps| ==> index.gaps[j] < index.gaps[k])
  }

  lemma RebuiltObserved(b: Books, batch: string)
    ensures var index := Rebuilt(b, batch);
            && Ascending(index.observed) && index.expected == ExpectedFor(index.observed)
            && index.gaps == NotIn(index.expected, index.observed)
            && forall x :: x in index.observed <==> batch in b.pages && Some(x) in b.pages[batch]
  {
    var positions := Positions(PagesOf(b, batch));
    SortedSorts(positions);
    forall x ensures x in Sorted(positions) <==> batch in b.pages && Some(x) in b.pages[batch] {
      SortedHolds(positions, x);
      PositionsHold(PagesOf(b, batch), x);
    }
    hide Sorted, Positions, NotIn, ExpectedFor;
  }

  lemma RebuiltSpans(b: Books, batch: string)
    ensures Spans(Rebuilt(b, batch), b, batch)
  {
    RebuiltObserved(b, batch);
    hide NotIn, Rebuilt;
    var index := Rebuilt(b, batch);
    if index.observed != [] {
      Ends(index.observed, index.observed[0]);
    }
  }

  lemma RebuiltGaps(b: Books, batch: string)
    ensures GapsOf(Rebuilt(b, batch))
  {
    RebuiltObserved(b, batch);
    hide NotIn, Rebuilt, Range;
    var index := Rebuilt(b, batch);
    forall x ensures x in index.gaps <==> x in index.expected && x !in index.observed {
      NotInHolds(index.expected, index.observed, x);
    }
    if index.observed != [] {
      Ends(index.observed, index.observed[0]);
      NotInAscends(index.observed[0], index.observed[|index.observed| - 1] + 1, index.observed);
    } else {
      NothingMissing(index.observed);
    }
  }

  /** The index a rebuild leaves: the positions of the batch's pages, the range they span, its holes in order, and the state. */
  lemma RebuildWrites(b: Books, batch: string)
    ensures var after, index := Rebuild(b, batch), Rebuilt(b, batch);
            && after == b.(volumes := b.volumes[batch := index])
            && Spans(index, b, batch) && GapsOf(index)
            && index.state == if index.gaps == [] then if index.observed == [] then Pending else Complete
                              else if batch in b.volumes && b.volumes[batch].state == Acknowledged then Acknowledged
                              else GapDetected
  {
    RebuiltSpans(b, batch);
    RebuiltGaps(b, batch);
    ExpectedWhenObserved(b, batch);
    hide Spans, GapsOf, Sorted, Positions, NotIn, ExpectedFor;
  }

  lemma ExpectedWhenObserved(b: Books, batch: string)
    ensures Rebuilt(b, batch).expected == [] <==> Rebuilt(b, batch).observed == []
  {
    RebuiltSpans(b, batch);
    var index := Rebuilt(b, batch);
    hide Rebuilt;
    if index.observed != [] {
      Ends(index.observed, index.observed[0]);
    }
  }

  /** Only a detected gap can be acknowledged, and only the state of that index changes. */
  lemma AcknowledgeWrites(b: Books, batch: string)
    ensures match Acknowledge(b, batch)
            case Ok(after) =>
              && batch in b.volumes && b.volumes[batch].state == GapDetected && batch in after.volumes
              && after == b.(volumes := b.volumes[batch := after.volumes[batch]])
              && after.volumes[batch] == VolumeIndex(b.volumes[batch].expected, b.volumes[batch].observed,
                                                     b.volumes[batch].gaps, Acknowledged)
            case Err(e) => e == if batch in b.volumes then NotGapDetected(b.volumes[batch].state) else NoIndex
  {
  }

  // ----- acknowledgements -----

  lemma RunSnoc(actions: seq<Action>, a: Action)
    ensures Run(actions + [a]) == Apply(Run(actions), a)
  {
    assert (actions + [a])[..|actions|] == actions;
  }

  /** An acknowledgement also covers the gaps of later rebuilds, whatever pages arrive in between. */
  lemma AcknowledgementOutlivesItsGaps(actions: seq<Action>, batch: string, pages: seq<Option<int>>)
    requires batch in Run(actions).books.volumes && Run(actions).books.volumes[batch].state == GapDetected
    ensures var later := Run(actions + [AcknowledgeAction(batch)] + [SetPages(batch, pages)] + [RebuildAction(batch)]);
            && batch in later.books.volumes
            && later.books.volumes[batch].gaps == GapsIn(Positions(pages))
            && VolumeCheck(later.books, batch).None?
  {
    hide Run, Positions, Sorted, NotIn, ExpectedFor;
    RunSnoc(actions, AcknowledgeAction(batch));
    RunSnoc(actions + [AcknowledgeAction(batch)], SetPages(batch, pages));
    RunSnoc(actions + [AcknowledgeAction(batch)] + [SetPages(batch, pages)], RebuildAction(batch));
  }

  /** Before or after everything observed. */
  ghost predicate Beyond(observed: seq<int>, i: int) {
    (forall x :: x in observed ==> i < x) || (forall x :: x in observed ==> x < i)
  }

  lemma HoleOrBeyond(observed: seq<int>, i: int)
    ensures i !in observed && !Beyond(observed, i) ==> Hole(observed, i)
    ensures Hole(observed, i) ==> i !in observed && !Beyond(observed, i)
  {
  }

  /**
   * Exactly which positions are missing unseen: a hole of the next rebuild was no hole when the gap was acknowledged
   * if and only if it was observed then, or lay before or after all that was; with pages that only arrive, the latter.
   */
  lemma NewGapPassesIff(actions: seq<Action>, batch: string, pages: seq<Option<int>>, i: int)
    requires batch in Run(actions).books.volumes && Run(actions).books.volumes[batch].state == GapDetected
    ensures var index := Run(actions).books.volumes[batch];
            var later := Run(actions + [AcknowledgeAction(batch)] + [SetPages(batch, pages)] + [RebuildAction(batch)]);
            && batch in later.books.volumes && VolumeCheck(later.books, batch).None?
            && (i in later.books.volumes[batch].gaps && i !in index.gaps <==>
                  Hole(Positions(pages), i) && (i in index.observed || Beyond(index.observed, i)))
            && ((forall x :: x in index.observed ==> x in Positions(pages)) ==>
                  (i in later.books.volumes[batch].gaps && i !in index.gaps <==>
                     Hole(Positions(pages), i) && Beyond(index.observed, i)))
  {
    RunsKeepVolumes(actions, batch);
    var index, observed := Run(actions).books.volumes[batch], LastObserved(Run(actions).events, batch).value;
    AcknowledgementOutlivesItsGaps(actions, batch, pages);
    GapsAreHoles(observed, i);
    GapsAreHoles(Positions(pages), i);
    HoleOrBeyond(observed, i);
    HoleOrBeyond(Positions(pages), i);
    forall x ensures x in index.observed <==> x in observed {
      SortedHolds(observed, x);
    }
    hide Run, Sorted, GapsIn, Positions, VolumeCheck, LastObserved, AcknowledgedSince, Hole;
    assert Beyond(index.observed, i) == Beyond(observed, i);
  }

  lemma FirstRebuild(batch: string, pages: seq<Option<int>>)
    ensures var volumes := Run([SetPages(batch, pages)] + [RebuildAction(batch)]).books.volumes;
            && batch in volumes && volumes[batch].gaps == GapsIn(Positions(pages))
            && (volumes[batch].gaps != [] ==> volumes[batch].state == GapDetected)
  {
    RunSnoc([], SetPages(batch, pages));
    assert [] + [SetPages(batch, pages)] == [SetPages(batch, pages)];
    RunSnoc([SetPages(batch, pages)], RebuildAction(batch));
    hide Positions, Sorted, NotIn, ExpectedFor;
  }

  lemma HolesOfThree()
    ensures Hole([1, 3], 2) && !Hole([1, 3], 5) && Hole([1, 3, 7], 5)
  {
    assert 1 in [1, 3] && 3 in [1, 3] && 3 in [1, 3, 7] && 7 in [1, 3, 7];
  }

  /** So a position can be missing that was not missing when the gap was acknowledged. */
  lemma NewGapPasses()
    ensures Hole([1, 3], 2) && !Hole([1, 3], 5) && Hole([1, 3, 7], 5)
    ensures var actions := [SetPages("b", [Some(1), Some(3)])] + [RebuildAction("b")] + [AcknowledgeAction("b")]
                             + [SetPages("b", [Some(1), Some(3), Some(7)])] + [RebuildAction("b")];
            var books := Run(actions).books;
            "b" in books.volumes && 5 in books.volumes["b"].gaps && VolumeCheck(books, "b").None?
  {
    hide *;
    var first, second := [Some(1), Some(3)], [Some(1), Some(3), Some(7)];
    HolesOfThree();
    PositionsOf(first, [1, 3]);
    PositionsOf(second, [1, 3, 7]);
    FirstRebuild("b", first);
    GapsAreHoles([1, 3], 2);
    GapsAreHoles([1, 3, 7], 5);
    AcknowledgementOutlivesItsGaps([SetPages("b", first)] + [RebuildAction("b")], "b", second);
  }

  lemma {:induction false} PositionsOf(pages: seq<Option<int>>, xs: seq<int>)
    requires |pages| == |xs| && forall i :: 0 <= i < |xs| ==> pages[i] == Some(xs[i])
    ensures Positions(pages) == xs
  {
    if xs != [] {
      var n := |xs| - 1;
      PositionsOf(pages[..n], xs[..n]);
      assert xs == xs[..n] + [xs[n]];
    }
  }

  // ----- the empty group id -----

  /** An empty group id publishes once; from then on it is refused, for want of a version it could follow. */
  lemma EmptyGroupPublishesOnce(b: Books, o: Order)
    requires VersionsOk(b.rows) && o.group == Some("") && o.batch.None?
    ensures Publish(b, o).0 == if Count(b.rows, "") == 0 then Ok(|b.rows|) else Err(DuplicateVersion)
  {
    NextVersion(b, o);
    hide Count, VersionTaken, VersionsOk;
  }
}
