/**
 The decision engine (services/backend/src/backend/domain/decision.py) and the page
 lifecycle it drives (page_lifecycle.py). One call of `Route` is one transaction: the tables
 after it are the tables a commit leaves, and an error leaves them alone.
 */
module DecisionEngine {
  import opened Wrappers
  import opened HashChain

  // ----- tables -----

  /** The closed set of `ck_extraction_routing_outcome_enum`; a null outcome is `None`. */
  datatype Outcome = AutoAccept | AuditSample | Review | Conflict | OutsideRegime

  datatype Extraction = Extraction(pageId: string, outcome: Option<Outcome>)

  datatype Decision = Decision(extractionId: string, outcome: Outcome)

  datatype Task = Task(id: nat, extractionId: string, stream: string)

  datatype Sample = Sample(id: nat, extractionId: string, taskId: nat)

  datatype ConflictRow = ConflictRow(id: nat, records: seq<string>)

  datatype Alert = Alert(id: nat, clusterKey: string, extractionIds: seq<string>, openedAt: int)

  datatype Action = RouteDecision(outcome: Outcome) | PageProcessed | OtherAction

  datatype AuditRow = AuditRow(shardId: int, action: Action, subject: string)

  datatype Db = Db(
    extractions: map<string, Extraction>,
    pages: map<string, string>,               // page -> document
    documents: map<string, string>,           // document -> batch
    districts: map<string, Option<string>>,   // batch -> district
    decisions: seq<Decision>, tasks: seq<Task>, samples: seq<Sample>,
    conflicts: seq<ConflictRow>, alerts: seq<Alert>, audit: seq<AuditRow>,
    nextId: nat)

  /** NOVELTY_CLUSTER_ALERT_DEDUP_WINDOW, in seconds. */
  const DEDUP_WINDOW := 6 * 60 * 60

  // ----- the rows that name an extraction -----

  function DecisionsOf(rows: seq<Decision>, e: string): seq<Outcome> {
    if rows == [] then []
    else
      var last := rows[|rows| - 1];
      DecisionsOf(rows[..|rows| - 1], e) + if last.extractionId == e then [last.outcome] else []
  }

  function TasksOf(rows: seq<Task>, e: string): seq<Task> {
    if rows == [] then []
    else
      var last := rows[|rows| - 1];
      TasksOf(rows[..|rows| - 1], e) + if last.extractionId == e then [last] else []
  }

  function SamplesOf(rows: seq<Sample>, e: string): seq<Sample> {
    if rows == [] then []
    else
      var last := rows[|rows| - 1];
      SamplesOf(rows[..|rows| - 1], e) + if last.extractionId == e then [last] else []
  }

  function ConflictsOf(rows: seq<ConflictRow>, e: string): seq<nat> {
    if rows == [] then []
    else
      var last := rows[|rows| - 1];
      ConflictsOf(rows[..|rows| - 1], e) + if e in last.records then [last.id] else []
  }

  function AlertsOf(rows: seq<Alert>, e: string): seq<nat> {
    if rows == [] then []
    else
      var last := rows[|rows| - 1];
      AlertsOf(rows[..|rows| - 1], e) + if e in last.extractionIds then [last.id] else []
  }

  /** The outcomes of the `decision.route.*` entries about an extraction. */
  function RouteAuditsOf(rows: seq<AuditRow>, e: string): seq<Outcome> {
    if rows == [] then []
    else
      var last := rows[|rows| - 1];
      RouteAuditsOf(rows[..|rows| - 1], e) +
      if last.action.RouteDecision? && last.subject == e then [last.action.outcome] else []
  }

  // ----- routing -----

  datatype RouteError =
    | ExtractionNotFound | Unroutable | AlreadyDecidedWithDifferentOutcome | MultipleRows

  datatype Reply = Reply(
    outcome: Outcome, taskId: Option<nat>, sampleId: Option<nat>, conflictId: Option<nat>, alertId: Option<nat>,
    deduplicated: bool, replayed: bool)

  function Bare(outcome: Outcome, replayed: bool): Reply {
    Reply(outcome, None, None, None, None, false, replayed)
  }

  /** `scalar_one_or_none`: more than one row is an error. */
  function OneOrNone(ids: seq<nat>): Result<Option<nat>, RouteError> {
    if |ids| > 1 then Err(MultipleRows) else Ok(if ids == [] then None else Some(ids[0]))
  }

  function TaskIds(rows: seq<Task>): seq<nat> {
    seq(|rows|, i requires 0 <= i < |rows| => rows[i].id)
  }

  function SampleIds(rows: seq<Sample>): seq<nat> {
    seq(|rows|, i requires 0 <= i < |rows| => rows[i].id)
  }

  /** The answer to a redelivered message, read back from the tables. */
  function Replay(db: Db, e: string, outcome: Outcome): Result<Reply, RouteError> {
    var tasks := OneOrNone(TaskIds(TasksOf(db.tasks, e)));
    var samples := OneOrNone(SampleIds(SamplesOf(db.samples, e)));
    var conflicts := OneOrNone(ConflictsOf(db.conflicts, e));
    var alerts := OneOrNone(AlertsOf(db.alerts, e));
    match outcome
    case AutoAccept => Ok(Bare(AutoAccept, true))
    case Review =>
      if tasks.Err? then Err(tasks.error) else Ok(Bare(Review, true).(taskId := tasks.value))
    case AuditSample =>
      if tasks.Err? then Err(tasks.error) else if samples.Err? then Err(samples.error)
      else Ok(Bare(AuditSample, true).(taskId := tasks.value, sampleId := samples.value))
    case Conflict =>
      if conflicts.Err? then Err(conflicts.error) else Ok(Bare(Conflict, true).(conflictId := conflicts.value))
    case OutsideRegime =>
      if alerts.Err? then Err(alerts.error)
      else Ok(Bare(OutsideRegime, true).(alertId := alerts.value, deduplicated := true))
  }

  /** The alert a novelty folds into: the latest of its cluster within the window. */
  function OpenAlert(alerts: seq<Alert>, clusterKey: string, cutoff: int): (r: Option<nat>)
    ensures r.Some? ==>
              r.value < |alerts| && alerts[r.value].clusterKey == clusterKey && alerts[r.value].openedAt >= cutoff
    ensures forall i :: 0 <= i < |alerts| && alerts[i].clusterKey == clusterKey && alerts[i].openedAt >= cutoff ==>
              r.Some? && alerts[i].openedAt <= alerts[r.value].openedAt
  {
    if alerts == [] then None
    else
      var n := |alerts| - 1;
      var earlier := OpenAlert(alerts[..n], clusterKey, cutoff);
      if alerts[n].clusterKey == clusterKey && alerts[n].openedAt >= cutoff
         && (earlier.None? || alerts[n].openedAt > alerts[earlier.value].openedAt) then Some(n)
      else earlier
  }

  function AddTask(db: Db, e: string, stream: string): Db {
    db.(tasks := db.tasks + [Task(db.nextId, e, stream)], nextId := db.nextId + 1)
  }

  function OutsideCalibratedRegime(db: Db, e: string, clusterKey: string, now: int): (Db, Reply) {
    var existing := OpenAlert(db.alerts, clusterKey, now - DEDUP_WINDOW);
    if existing.Some? then
      var a := db.alerts[existing.value];
      var folded := if e in a.extractionIds then a else a.(extractionIds := a.extractionIds + [e]);
      (db.(alerts := db.alerts[existing.value := folded]),
       Bare(OutsideRegime, false).(alertId := Some(a.id), deduplicated := true))
    else
      (db.(alerts := db.alerts + [Alert(db.nextId, clusterKey, [e], now)], nextId := db.nextId + 1),
       Bare(OutsideRegime, false).(alertId := Some(db.nextId)))
  }

  /** The side rows of each outcome. */
  function Branch(db: Db, e: string, outcome: Outcome, cluster: Option<string>, now: int): (Db, Reply) {
    match outcome
    case AutoAccept => (db, Bare(AutoAccept, false))
    case AuditSample =>
      var db' := AddTask(db, e, "audit");
      (db'.(samples := db.samples + [Sample(db'.nextId, e, db.nextId)], nextId := db'.nextId + 1),
       Bare(AuditSample, false).(taskId := Some(db.nextId), sampleId := Some(db'.nextId)))
    case Review => (AddTask(db, e, "routed"), Bare(Review, false).(taskId := Some(db.nextId)))
    case Conflict =>
      (db.(conflicts := db.conflicts + [ConflictRow(db.nextId, [e])], nextId := db.nextId + 1),
       Bare(Conflict, false).(conflictId := Some(db.nextId)))
    case OutsideRegime => OutsideCalibratedRegime(db, e, if Truthy(cluster) then cluster.value else e, now)
  }

  /** The decision record and its audit entry. */
  function Record(c: Crypto, db: Db, e: string, outcome: Outcome): Db {
    db.(decisions := db.decisions + [Decision(e, outcome)],
        audit := db.audit + [AuditRow(ShardFor(c, if e != "" then e else ENGINE), RouteDecision(outcome), e)])
  }

  function Route(c: Crypto, db: Db, e: string, cluster: Option<string>, now: int): (Db, Result<Reply, RouteError>) {
    if e !in db.extractions then (db, Err(ExtractionNotFound))
    else if db.extractions[e].outcome.None? then (db, Err(Unroutable))
    else
      var outcome := db.extractions[e].outcome.value;
      var existing := DecisionsOf(db.decisions, e);
      if |existing| > 1 then (db, Err(MultipleRows))
      else if existing != [] then
        if existing[0] != outcome then (db, Err(AlreadyDecidedWithDifferentOutcome)) else (db, Replay(db, e, outcome))
      else
        var (db', reply) := Branch(db, e, outcome, cluster, now);
        (MarkProcessed(c, Record(c, db', e, outcome), db.extractions[e].pageId), Ok(reply))
  }

  // ----- page lifecycle -----

  const ENGINE := "system:decision-engine"

  /** Page -> document -> batch -> district. */
  function DistrictForPage(db: Db, page: string): Option<string> {
    if page !in db.pages then None
    else if db.pages[page] !in db.documents then None
    else if db.documents[db.pages[page]] !in db.districts then None
    else db.districts[db.documents[db.pages[page]]]
  }

  /** The shard the replay guard searches. */
  function GuardShard(c: Crypto, district: Option<string>, page: string): int {
    if Truthy(district) then ShardFor(c, ShardKeyFor(district, None)) else ShardFor(c, page)
  }

  /** What `record_page_processed` asks the audit log to append. */
  function ProcessedRequest(district: Option<string>, page: string): Request {
    Request(ENGINE, "page.processed", Some(page), None, None, None,
            if Truthy(district) then Some(ShardKeyFor(district, None)) else None, district)
  }

  function ProcessedIn(rows: seq<AuditRow>, shard: int, page: string): nat {
    if rows == [] then 0
    else
      var last := rows[|rows| - 1];
      ProcessedIn(rows[..|rows| - 1], shard, page) +
      if last.shardId == shard && last.action == PageProcessed && last.subject == page then 1 else 0
  }

  /** At least one extraction, and every one of them has an outcome. */
  predicate Terminal(db: Db, page: string) {
    && (exists e :: e in db.extractions && db.extractions[e].pageId == page)
    && (forall e :: e in db.extractions && db.extractions[e].pageId == page ==> db.extractions[e].outcome.Some?)
  }

  function MarkProcessed(c: Crypto, db: Db, page: string): Db {
    var district := DistrictForPage(db, page);
    if ProcessedIn(db.audit, GuardShard(c, district, page), page) > 0 then db
    else if !Terminal(db, page) then db
    else db.(audit := db.audit + [AuditRow(ResolveShard(c, ProcessedRequest(district, page)), PageProcessed, page)])
  }

  // ----- the session -----

  /** The database session the queue worker injects; every branch adds rows to it. */
  class Session {
    const crypto: Crypto
    var db: Db

    constructor (crypto: Crypto, db: Db)
      ensures this.crypto == crypto && this.db == db
    {
      this.crypto, this.db := crypto, db;
    }

    method FreshId() returns (id: nat)
      modifies this
      ensures id == old(db).nextId && db == old(db).(nextId := id + 1)
    {
      id := db.nextId;
      db := db.(nextId := id + 1);
    }

    method AddReviewTask(e: string, stream: string) returns (id: nat)
      modifies this
      ensures db == AddTask(old(db), e, stream) && id == old(db).nextId
    {
      id := FreshId();
      db := db.(tasks := db.tasks + [Task(id, e, stream)]);
    }

    method FoldIntoAlert(e: string, clusterKey: string, now: int) returns (reply: Reply)
      modifies this
      ensures (db, reply) == OutsideCalibratedRegime(old(db), e, clusterKey, now)
    {
      var existing := OpenAlert(db.alerts, clusterKey, now - DEDUP_WINDOW);
      if existing.Some? {
        var a := db.alerts[existing.value];
        assert db.alerts[existing.value := a] == db.alerts;
        if e !in a.extractionIds {
          db := db.(alerts := db.alerts[existing.value := a.(extractionIds := a.extractionIds + [e])]);
        }
        return Bare(OutsideRegime, false).(alertId := Some(a.id), deduplicated := true);
      }
      var id := FreshId();
      db := db.(alerts := db.alerts + [Alert(id, clusterKey, [e], now)]);
      reply := Bare(OutsideRegime, false).(alertId := Some(id));
    }

    method Dispatch(e: string, outcome: Outcome, cluster: Option<string>, now: int) returns (reply: Reply)
      modifies this
      ensures (db, reply) == Branch(old(db), e, outcome, cluster, now)
    {
      match outcome {
        case AutoAccept =>
          reply := Bare(AutoAccept, false);
        case AuditSample =>
          var task := AddReviewTask(e, "audit");
          var sample := FreshId();
          db := db.(samples := db.samples + [Sample(sample, e, task)]);
          reply := Bare(AuditSample, false).(taskId := Some(task), sampleId := Some(sample));
        case Review =>
          var task := AddReviewTask(e, "routed");
          reply := Bare(Review, false).(taskId := Some(task));
        case Conflict =>
          var id := FreshId();
          db := db.(conflicts := db.conflicts + [ConflictRow(id, [e])]);
          reply := Bare(Conflict, false).(conflictId := Some(id));
        case OutsideRegime =>
          reply := FoldIntoAlert(e, if Truthy(cluster) then cluster.value else e, now);
      }
    }

    method AuditAppend(q: Request, action: Action, subject: string)
      modifies this
      ensures db == old(db).(audit := old(db).audit + [AuditRow(ResolveShard(crypto, q), action, subject)])
    {
      db := db.(audit := db.audit + [AuditRow(ResolveShard(crypto, q), action, subject)]);
    }

    method MarkProcessedIfTerminal(page: string) returns (appended: bool)
      modifies this
      ensures db == MarkProcessed(crypto, old(db), page) && appended == (db != old(db))
    {
      var district := DistrictForPage(db, page);
      if ProcessedIn(db.audit, GuardShard(crypto, district, page), page) > 0 {
        return false;
      }
      if !Terminal(db, page) {
        return false;
      }
      AuditAppend(ProcessedRequest(district, page), PageProcessed, page);
      assert |db.audit| == |old(db).audit| + 1;
      appended := true;
    }

    /** `route`, followed by the runner's commit or, on an error, its rollback. */
    method RouteExtraction(e: string, cluster: Option<string>, now: int) returns (r: Result<Reply, RouteError>)
      modifies this
      ensures (db, r) == Route(crypto, old(db), e, cluster, now)
    {
      if e !in db.extractions {
        return Err(ExtractionNotFound);
      }
      var extraction := db.extractions[e];
      if extraction.outcome.None? {
        return Err(Unroutable);
      }
      var outcome := extraction.outcome.value;
      var existing := DecisionsOf(db.decisions, e);
      if |existing| > 1 {
        return Err(MultipleRows);
      }
      if existing != [] {
        if existing[0] != outcome {
          return Err(AlreadyDecidedWithDifferentOutcome);
        }
        return Replay(db, e, outcome);
      }
      var reply := Dispatch(e, outcome, cluster, now);
      db := db.(decisions := db.decisions + [Decision(e, outcome)]);
      AuditAppend(Request(ENGINE, "decision.route", Some(e), None, None, None, None, None), RouteDecision(outcome), e);
      var appended := MarkProcessedIfTerminal(extraction.pageId);
      r := Ok(reply);
    }
  }
}
