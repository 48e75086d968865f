/**
 What a first delivery writes, row by row (services/backend/src/backend/domain/decision.py:124-254),
 and the alerts that novelties of one cluster share.
 */
module DecisionRows {
  import opened Wrappers
  import opened HashChain
  import opened DecisionEngine
  import opened DecisionProofs

  /** The cluster a novelty is filed under: the one the message names, else its own id. */
  predicate FiledUnder(k: string, cluster: Option<string>, e: string) {
    match cluster
    case None => k == e
    case Some(name) => if name == "" then k == e else k == name
  }

  /** Alert `i` is of cluster `k` and at most six hours old. */
  predicate StillOpen(alerts: seq<Alert>, i: int, k: string, now: int) {
    0 <= i < |alerts| && alerts[i].clusterKey == k && now - alerts[i].openedAt <= 6 * 3600
  }

  /** Alert `i` is the latest of those. */
  ghost predicate LatestOpen(alerts: seq<Alert>, i: int, k: string, now: int) {
    StillOpen(alerts, i, k, now) && forall j :: StillOpen(alerts, j, k, now) ==> alerts[j].openedAt <= alerts[i].openedAt
  }

  /** The alerts after `e` was listed in alert `i`: nothing else about any alert changed. */
  ghost predicate ListedIn(before: seq<Alert>, after: seq<Alert>, i: int, e: string) {
    && 0 <= i < |before| == |after|
    && (forall j :: 0 <= j < |before| && j != i ==> after[j] == before[j])
    && after[i].id == before[i].id && after[i].clusterKey == before[i].clusterKey && after[i].openedAt == before[i].openedAt
    && after[i].extractionIds == before[i].extractionIds + if e in before[i].extractionIds then [] else [e]
  }

  lemma AlertBranchRows(db: Db, e: string, k: string, now: int)
    ensures var (db', reply) := OutsideCalibratedRegime(db, e, k, now);
            && reply.outcome == OutsideRegime && reply.alertId.Some?
            && (reply.deduplicated <==> exists i :: StillOpen(db.alerts, i, k, now))
            && (reply.deduplicated ==>
                  exists i :: LatestOpen(db.alerts, i, k, now) && ListedIn(db.alerts, db'.alerts, i, e)
                              && reply.alertId.value == db.alerts[i].id)
            && (!reply.deduplicated ==> db'.alerts == db.alerts + [Alert(reply.alertId.value, k, [e], now)])
  {
    var existing := OpenAlert(db.alerts, k, now - DEDUP_WINDOW);
    var (db', reply) := OutsideCalibratedRegime(db, e, k, now);
    hide OpenAlert;
    if existing.Some? {
      var i := existing.value;
      assert StillOpen(db.alerts, i, k, now);
      assert LatestOpen(db.alerts, i, k, now);
      assert db.alerts[i].extractionIds + [] == db.alerts[i].extractionIds;
      assert ListedIn(db.alerts, db'.alerts, i, e);
    } else {
      assert forall i :: !StillOpen(db.alerts, i, k, now);
    }
  }

  /** The side rows of a first delivery with outcome `o`, and the reply that names them; every other table is as it was. */
  ghost predicate SideRows(db: Db, after: Db, e: string, o: Outcome, k: string, now: int, r: Reply) {
    && r.outcome == o && !r.replayed && (r.taskId.Some? <==> o in {AuditSample, Review}) && (r.sampleId.Some? <==> o == AuditSample)
    && (r.conflictId.Some? <==> o == Conflict) && (r.alertId.Some? <==> o == OutsideRegime)
    && after.tasks == (if o == AuditSample then db.tasks + [Task(r.taskId.value, e, "audit")]
                       else if o == Review then db.tasks + [Task(r.taskId.value, e, "routed")] else db.tasks)
    && after.samples == (if o == AuditSample then db.samples + [Sample(r.sampleId.value, e, r.taskId.value)] else db.samples)
    && after.conflicts == (if o == Conflict then db.conflicts + [ConflictRow(r.conflictId.value, [e])] else db.conflicts)
    && (r.deduplicated <==> o == OutsideRegime && exists i :: StillOpen(db.alerts, i, k, now))
    && (o != OutsideRegime ==> after.alerts == db.alerts)
    && (o == OutsideRegime && r.deduplicated ==>
          exists i :: LatestOpen(db.alerts, i, k, now) && ListedIn(db.alerts, after.alerts, i, e)
                      && r.alertId.value == db.alerts[i].id)
    && (o == OutsideRegime && !r.deduplicated ==> after.alerts == db.alerts + [Alert(r.alertId.value, k, [e], now)])
    && NewIds(db.nextId, after.nextId, r)
  }

  /** The rows a reply names have ids that no row had, each its own; a folded novelty names an old alert. */
  predicate NewIds(from: nat, to: nat, r: Reply) {
    && from <= to
    && (r.taskId.Some? ==> from <= r.taskId.value < to) && (r.sampleId.Some? ==> from <= r.sampleId.value < to)
    && (r.taskId.Some? && r.sampleId.Some? ==> r.taskId.value != r.sampleId.value)
    && (r.conflictId.Some? ==> from <= r.conflictId.value < to)
    && (r.alertId.Some? && !r.deduplicated ==> from <= r.alertId.value < to)
  }

  lemma BranchRows(db: Db, e: string, o: Outcome, cluster: Option<string>, now: int, k: string)
    requires FiledUnder(k, cluster, e)
    ensures var (after, r) := Branch(db, e, o, cluster, now);
            SideRows(db, after, e, o, k, now, r) && SameSources(db, after) && after.decisions == db.decisions && after.audit == db.audit
  {
    BranchKeepsSources(db, e, o, cluster, now);
    AlertBranchRows(db, e, k, now);
    AlertBranchIds(db, e, k, now);
    hide OutsideCalibratedRegime, LatestOpen, ListedIn, StillOpen;
  }

  lemma AlertBranchIds(db: Db, e: string, k: string, now: int)
    ensures var (after, r) := OutsideCalibratedRegime(db, e, k, now);
            && r == Bare(OutsideRegime, false).(alertId := r.alertId, deduplicated := r.deduplicated)
            && after == db.(alerts := after.alerts, nextId := after.nextId) && NewIds(db.nextId, after.nextId, r)
  {
    hide OpenAlert;
    assert forall i :: 0 <= i < |db.alerts| ==> db.alerts[i := db.alerts[i]] == db.alerts;
  }

  // ----- the audit rows -----

  /** The district of a page's batch, when the page, its document and its batch are all there. */
  predicate DistrictIs(db: Db, page: string, d: Option<string>) {
    if page in db.pages && db.pages[page] in db.documents && db.documents[db.pages[page]] in db.districts then
      d == db.districts[db.documents[db.pages[page]]]
    else d == None
  }

  /** The shard of a page's entries: its district's, else the one that `other` falls in. */
  function PageKey(c: Crypto, d: Option<string>, other: string): int {
    if d.Some? && d.value != "" then ShardFor(c, "district:" + d.value) else ShardFor(c, other)
  }

  /** At least one extraction of the page, and none without an outcome. */
  ghost predicate AllRouted(db: Db, page: string) {
    && (exists x :: x in db.extractions && db.extractions[x].pageId == page)
    && !(exists x :: x in db.extractions && db.extractions[x].pageId == page && db.extractions[x].outcome == None)
  }

  lemma {:induction false} ProcessedInMeans(rows: seq<AuditRow>, shard: int, page: string)
    ensures ProcessedIn(rows, shard, page) > 0 <==> AuditRow(shard, PageProcessed, page) in rows
  {
    if rows != [] {
      var n := |rows| - 1;
      ProcessedInMeans(rows[..n], shard, page);
      assert rows == rows[..n] + [rows[n]];
    }
  }

  /** The page check appends one entry exactly when every field of the page is routed and no entry is found. */
  lemma PageCheckRows(c: Crypto, db: Db, page: string, d: Option<string>)
    requires DistrictIs(db, page, d)
    ensures var found := AuditRow(PageKey(c, d, page), PageProcessed, page) in db.audit;
            var row := AuditRow(PageKey(c, d, if page != "" then page else "system:decision-engine"), PageProcessed, page);
            MarkProcessed(c, db, page) == if AllRouted(db, page) && !found then db.(audit := db.audit + [row]) else db
  {
    ProcessedInMeans(db.audit, GuardShard(c, d, page), page);
    assert DistrictForPage(db, page) == d;
    hide ProcessedIn, ShardFor, DistrictForPage;
  }

  /** `e` was not decided before. */
  predicate Undecided(db: Db, e: string) {
    forall i :: 0 <= i < |db.decisions| ==> db.decisions[i].extractionId != e
  }

  lemma {:induction false} UndecidedHasNone(rows: seq<Decision>, e: string)
    ensures DecisionsOf(rows, e) == [] <==> forall i :: 0 <= i < |rows| ==> rows[i].extractionId != e
  {
    if rows != [] {
      var n := |rows| - 1;
      UndecidedHasNone(rows[..n], e);
    }
  }

  lemma SideRowsReadSideTables(db: Db, a: Db, b: Db, e: string, o: Outcome, k: string, now: int, r: Reply)
    requires a.tasks == b.tasks && a.samples == b.samples && a.conflicts == b.conflicts && a.alerts == b.alerts
    requires a.nextId == b.nextId && SideRows(db, a, e, o, k, now, r)
    ensures SideRows(db, b, e, o, k, now, r)
  {
    hide LatestOpen, ListedIn, StillOpen, NewIds;
  }

  /**
   Everything a first delivery writes: the decision record, its audit entry, the side rows of
   its outcome, and the page's entry when this was the last field of it; no other row changes.
   */
  lemma FirstDeliveryWrites(c: Crypto, db: Db, e: string, cluster: Option<string>, now: int, k: string, d: Option<string>)
    requires e in db.extractions && db.extractions[e].outcome.Some? && Undecided(db, e)
    requires FiledUnder(k, cluster, e) && DistrictIs(db, db.extractions[e].pageId, d)
    ensures var (after, r) := Route(c, db, e, cluster, now);
            var outcome, page := db.extractions[e].outcome.value, db.extractions[e].pageId;
            var routed := AuditRow(ShardFor(c, if e != "" then e else "system:decision-engine"), RouteDecision(outcome), e);
            var found := AuditRow(PageKey(c, d, page), PageProcessed, page) in db.audit;
            var done := AuditRow(PageKey(c, d, if page != "" then page else "system:decision-engine"), PageProcessed, page);
            && r.Ok? && SideRows(db, after, e, outcome, k, now, r.value) && SameSources(db, after)
            && after.decisions == db.decisions + [Decision(e, outcome)]
            && after.audit == db.audit + [routed] + if AllRouted(db, page) && !found then [done] else []
  {
    var outcome, page := db.extractions[e].outcome.value, db.extractions[e].pageId;
    UndecidedHasNone(db.decisions, e);
    BranchRows(db, e, outcome, cluster, now, k);
    var (b, reply) := Branch(db, e, outcome, cluster, now);
    var recorded := Record(c, b, e, outcome);
    PageCheckRows(c, recorded, page, d);
    assert AllRouted(recorded, page) == AllRouted(db, page);
    var after := MarkProcessed(c, recorded, page);
    hide Branch, MarkProcessed, AllRouted, PageKey, ShardFor, DecisionsOf, SideRows;
    SideRowsReadSideTables(db, b, after, e, outcome, k, now, reply);
    assert recorded.audit + [] == recorded.audit;
  }

  /** A delivery that cannot decide says why and changes nothing. */
  lemma RefusalsChangeNothing(c: Crypto, db: Db, e: string, cluster: Option<string>, now: int)
    ensures var (after, r) := Route(c, db, e, cluster, now);
            && (r.Err? ==> after == db)
            && (e !in db.extractions ==> r == Err(ExtractionNotFound))
            && (e in db.extractions && db.extractions[e].outcome == None ==> r == Err(Unroutable))
            && (r.Ok? ==> e in db.extractions && db.extractions[e].outcome.Some?)
  {
  }

  lemma {:induction false} TwoRowsAreTwo(rows: seq<Decision>, e: string, i: nat, j: nat)
    requires i < j < |rows| && rows[i].extractionId == e == rows[j].extractionId
    ensures |DecisionsOf(rows, e)| >= 2
  {
    var n := |rows| - 1;
    if j < n {
      TwoRowsAreTwo(rows[..n], e, i, j);
    } else {
      UndecidedHasNone(rows[..n], e);
      assert rows[..n][i].extractionId == e;
    }
  }

  /** A second decision record of an extraction, which nothing here writes, would be refused and not answered. */
  lemma TwoDecisionsAreRefused(c: Crypto, db: Db, e: string, cluster: Option<string>, now: int, i: nat, j: nat)
    requires i < j < |db.decisions| && db.decisions[i].extractionId == e == db.decisions[j].extractionId
    requires e in db.extractions && db.extractions[e].outcome.Some?
    ensures Route(c, db, e, cluster, now) == (db, Err(MultipleRows))
  {
    TwoRowsAreTwo(db.decisions, e, i, j);
  }

  // ----- the alerts of a cluster, over runs -----

  /** Two alerts of one cluster were opened more than six hours apart. */
  ghost predicate AlertsApart(alerts: seq<Alert>) {
    forall i, j :: 0 <= i < j < |alerts| && alerts[i].clusterKey == alerts[j].clusterKey ==>
                     alerts[j].openedAt - alerts[i].openedAt > 6 * 3600
  }

  lemma BranchKeepsAlertsApart(db: Db, e: string, o: Outcome, cluster: Option<string>, now: int, k: string)
    requires FiledUnder(k, cluster, e) && AlertsApart(db.alerts)
    ensures AlertsApart(Branch(db, e, o, cluster, now).0.alerts)
  {
    BranchRows(db, e, o, cluster, now, k);
    hide Branch, NewIds;
    var (after, r) := Branch(db, e, o, cluster, now);
    if o == OutsideRegime {
      if r.deduplicated {
        var i :| LatestOpen(db.alerts, i, k, now) && ListedIn(db.alerts, after.alerts, i, e) && r.alertId.value == db.alerts[i].id;
        SameOpenings(db.alerts, after.alerts, i, e);
      } else {
        forall i | 0 <= i < |db.alerts| && db.alerts[i].clusterKey == k ensures now - db.alerts[i].openedAt > 6 * 3600 {
          assert !StillOpen(db.alerts, i, k, now);
        }
      }
    }
  }

  lemma SameOpenings(before: seq<Alert>, after: seq<Alert>, i: int, e: string)
    requires ListedIn(before, after, i, e)
    ensures |after| == |before|
    ensures forall j :: 0 <= j < |before| ==> after[j].clusterKey == before[j].clusterKey && after[j].openedAt == before[j].openedAt
  {
  }

  /** However clusters and clocks go, novelties of one cluster within six hours share one alert. */
  lemma {:induction false} RunsKeepAlertsApart(c: Crypto, db: Db, steps: seq<Step>)
    requires AlertsApart(db.alerts)
    ensures AlertsApart(Run(c, db, steps).alerts)
    decreases |steps|
  {
    hide AlertsApart, Branch, Record, MarkProcessed, DecisionsOf, Replay;
    if steps != [] {
      var step := steps[0];
      if step.Deliver? && step.e in db.extractions && db.extractions[step.e].outcome.Some? {
        var k := if Truthy(step.cluster) then step.cluster.value else step.e;
        var outcome := db.extractions[step.e].outcome.value;
        BranchKeepsAlertsApart(db, step.e, outcome, step.cluster, step.now, k);
        var b := Branch(db, step.e, outcome, step.cluster, step.now).0;
        RecordKeepsAlerts(c, b, step.e, outcome, db.extractions[step.e].pageId);
      }
      RunsKeepAlertsApart(c, Apply(c, db, step), steps[1..]);
    }
  }

  lemma RecordKeepsAlerts(c: Crypto, db: Db, e: string, outcome: Outcome, page: string)
    ensures MarkProcessed(c, Record(c, db, e, outcome), page).alerts == db.alerts
  {
  }
}
