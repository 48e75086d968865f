/** Effectively-once decisions, and `page.processed` exactly once. */
module DecisionProofs {
  import opened Wrappers
  import opened HashChain
  import opened DecisionEngine

  // ----- what the tables say about one extraction -----

  datatype View = View(
    decisions: seq<Outcome>, audits: seq<Outcome>, tasks: seq<Task>, samples: seq<Sample>,
    conflicts: seq<nat>, alerts: seq<nat>)

  function ViewOf(db: Db, e: string): View {
    View(DecisionsOf(db.decisions, e), RouteAuditsOf(db.audit, e), TasksOf(db.tasks, e), SamplesOf(db.samples, e),
         ConflictsOf(db.conflicts, e), AlertsOf(db.alerts, e))
  }

  const UNDECIDED := View([], [], [], [], [], [])

  /** One decision, one audit entry naming the same outcome, and exactly the rows it calls for. */
  ghost predicate DecidedOnce(v: View) {
    && |v.decisions| == 1 && v.audits == v.decisions
    && match v.decisions[0]
       case AutoAccept => v.tasks == [] && v.samples == [] && v.conflicts == [] && v.alerts == []
       case AuditSample =>
         && |v.tasks| == |v.samples| == 1 && v.samples[0].taskId == v.tasks[0].id && v.tasks[0].stream == "audit"
         && v.conflicts == [] && v.alerts == []
       case Review =>
         |v.tasks| == 1 && v.tasks[0].stream == "routed" && v.samples == [] && v.conflicts == [] && v.alerts == []
       case Conflict => |v.conflicts| == 1 && v.tasks == [] && v.samples == [] && v.alerts == []
       case OutsideRegime => |v.alerts| == 1 && v.tasks == [] && v.samples == [] && v.conflicts == []
  }

  ghost predicate Consistent(v: View) {
    v == UNDECIDED || DecidedOnce(v)
  }

  /** The rows a reply names. */
  ghost predicate Names(r: Reply, v: View) {
    && v.decisions == [r.outcome]
    && r.taskId == (if v.tasks == [] then None else Some(v.tasks[0].id))
    && r.sampleId == (if v.samples == [] then None else Some(v.samples[0].id))
    && r.conflictId == (if v.conflicts == [] then None else Some(v.conflicts[0]))
    && r.alertId == (if v.alerts == [] then None else Some(v.alerts[0]))
  }

  // ----- rows added and changed -----

  lemma Snoc<T>(xs: seq<T>, x: T)
    ensures (xs + [x])[..|xs|] == xs && (xs + [x])[|xs|] == x
  {
  }

  function Folded(alerts: seq<Alert>, k: nat, e: string): seq<Alert>
    requires k < |alerts|
  {
    alerts[k := alerts[k].(extractionIds := alerts[k].extractionIds + [e])]
  }

  /** Folding `e` into an alert leaves the alerts of every other extraction as they were. */
  lemma {:induction false} FoldTouchesOnly(alerts: seq<Alert>, k: nat, e: string, x: string)
    requires k < |alerts| && x != e
    ensures AlertsOf(Folded(alerts, k, e), x) == AlertsOf(alerts, x)
  {
    var n := |alerts| - 1;
    if k == n {
      assert Folded(alerts, k, e)[..n] == alerts[..n];
    } else {
      assert Folded(alerts, k, e)[..n] == Folded(alerts[..n], k, e);
      FoldTouchesOnly(alerts[..n], k, e, x);
    }
  }

  /** For an extraction no alert lists, it becomes its one alert. */
  lemma {:induction false} FoldAdds(alerts: seq<Alert>, k: nat, e: string)
    requires k < |alerts| && AlertsOf(alerts, e) == []
    ensures e !in alerts[k].extractionIds && AlertsOf(Folded(alerts, k, e), e) == [alerts[k].id]
  {
    var n := |alerts| - 1;
    if k == n {
      assert Folded(alerts, k, e)[..n] == alerts[..n];
    } else {
      assert Folded(alerts, k, e)[..n] == Folded(alerts[..n], k, e);
      FoldAdds(alerts[..n], k, e);
    }
  }

  lemma AlertBranchOwn(db: Db, e: string, clusterKey: string, now: int)
    requires AlertsOf(db.alerts, e) == []
    ensures var (db', reply) := OutsideCalibratedRegime(db, e, clusterKey, now);
            && db' == db.(alerts := db'.alerts, nextId := db'.nextId)
            && reply == Bare(OutsideRegime, false).(alertId := reply.alertId, deduplicated := reply.deduplicated)
            && reply.alertId.Some? && AlertsOf(db'.alerts, e) == [reply.alertId.value]
  {
    var existing := OpenAlert(db.alerts, clusterKey, now - DEDUP_WINDOW);
    if existing.Some? {
      FoldAdds(db.alerts, existing.value, e);
    } else {
      Snoc(db.alerts, Alert(db.nextId, clusterKey, [e], now));
    }
  }

  lemma AlertBranchOther(db: Db, e: string, clusterKey: string, now: int, x: string)
    requires x != e
    ensures var db' := OutsideCalibratedRegime(db, e, clusterKey, now).0;
            db' == db.(alerts := db'.alerts, nextId := db'.nextId) && AlertsOf(db'.alerts, x) == AlertsOf(db.alerts, x)
  {
    var existing := OpenAlert(db.alerts, clusterKey, now - DEDUP_WINDOW);
    if existing.Some? {
      FoldTouchesOnly(db.alerts, existing.value, e, x);
      assert db.alerts[existing.value := db.alerts[existing.value]] == db.alerts;
    } else {
      Snoc(db.alerts, Alert(db.nextId, clusterKey, [e], now));
    }
  }

  lemma AuditAdded(rows: seq<AuditRow>, row: AuditRow, x: string)
    ensures RouteAuditsOf(rows + [row], x)
            == RouteAuditsOf(rows, x) + if row.action.RouteDecision? && row.subject == x then [row.action.outcome] else []
  {
    Snoc(rows, row);
  }

  lemma TaskAdded(rows: seq<Task>, row: Task, x: string)
    ensures TasksOf(rows + [row], x) == TasksOf(rows, x) + if row.extractionId == x then [row] else []
  {
    Snoc(rows, row);
  }

  lemma SampleAdded(rows: seq<Sample>, row: Sample, x: string)
    ensures SamplesOf(rows + [row], x) == SamplesOf(rows, x) + if row.extractionId == x then [row] else []
  {
    Snoc(rows, row);
  }

  lemma ConflictAdded(rows: seq<ConflictRow>, row: ConflictRow, x: string)
    ensures ConflictsOf(rows + [row], x) == ConflictsOf(rows, x) + if x in row.records then [row.id] else []
  {
    Snoc(rows, row);
  }

  /** A branch adds no row about any other extraction. */
  lemma BranchOther(db: Db, e: string, outcome: Outcome, cluster: Option<string>, now: int, x: string)
    requires x != e
    ensures ViewOf(Branch(db, e, outcome, cluster, now).0, x) == ViewOf(db, x)
  {
    hide DecisionsOf, RouteAuditsOf, AlertsOf, ConflictsOf, TasksOf, SamplesOf, OutsideCalibratedRegime;
    match outcome
    case AutoAccept =>
    case AuditSample =>
      TaskAdded(db.tasks, Task(db.nextId, e, "audit"), x);
      SampleAdded(db.samples, Sample(db.nextId + 1, e, db.nextId), x);
    case Review => TaskAdded(db.tasks, Task(db.nextId, e, "routed"), x);
    case Conflict => ConflictAdded(db.conflicts, ConflictRow(db.nextId, [e]), x);
    case OutsideRegime => AlertBranchOther(db, e, if Truthy(cluster) then cluster.value else e, now, x);
  }

  /** What a branch leaves behind is what its outcome calls for, and its reply names it. */
  ghost predicate BranchedOnce(v: View, reply: Reply, outcome: Outcome) {
    var decided := v.(decisions := [outcome], audits := [outcome]);
    && reply.outcome == outcome && !reply.replayed && DecidedOnce(decided) && Names(reply, decided)
    && v.decisions == [] == v.audits
  }

  lemma SampleBranchOwn(db: Db, e: string, cluster: Option<string>, now: int)
    requires ViewOf(db, e) == UNDECIDED
    ensures var (db', reply) := Branch(db, e, AuditSample, cluster, now); BranchedOnce(ViewOf(db', e), reply, AuditSample)
  {
    hide DecisionsOf, RouteAuditsOf, AlertsOf, ConflictsOf, TasksOf, SamplesOf;
    var task, sample := Task(db.nextId, e, "audit"), Sample(db.nextId + 1, e, db.nextId);
    TaskAdded(db.tasks, task, e);
    SampleAdded(db.samples, sample, e);
    var (db', reply) := Branch(db, e, AuditSample, cluster, now);
    assert ViewOf(db', e) == UNDECIDED.(tasks := [task], samples := [sample]);
    hide ViewOf;
  }

  lemma ReviewBranchOwn(db: Db, e: string, cluster: Option<string>, now: int)
    requires ViewOf(db, e) == UNDECIDED
    ensures var (db', reply) := Branch(db, e, Review, cluster, now); BranchedOnce(ViewOf(db', e), reply, Review)
  {
    hide DecisionsOf, RouteAuditsOf, AlertsOf, ConflictsOf, TasksOf, SamplesOf;
    TaskAdded(db.tasks, Task(db.nextId, e, "routed"), e);
    var (db', reply) := Branch(db, e, Review, cluster, now);
    assert ViewOf(db', e) == UNDECIDED.(tasks := [Task(db.nextId, e, "routed")]);
    hide ViewOf;
  }

  lemma ConflictBranchOwn(db: Db, e: string, cluster: Option<string>, now: int)
    requires ViewOf(db, e) == UNDECIDED
    ensures var (db', reply) := Branch(db, e, Conflict, cluster, now); BranchedOnce(ViewOf(db', e), reply, Conflict)
  {
    hide DecisionsOf, RouteAuditsOf, AlertsOf, ConflictsOf, TasksOf, SamplesOf;
    ConflictAdded(db.conflicts, ConflictRow(db.nextId, [e]), e);
    var (db', reply) := Branch(db, e, Conflict, cluster, now);
    assert ViewOf(db', e) == UNDECIDED.(conflicts := [db.nextId]);
    hide ViewOf;
  }

  lemma RegimeBranchOwn(db: Db, e: string, cluster: Option<string>, now: int)
    requires ViewOf(db, e) == UNDECIDED
    ensures var (db', reply) := Branch(db, e, OutsideRegime, cluster, now);
            BranchedOnce(ViewOf(db', e), reply, OutsideRegime)
  {
    hide DecisionsOf, RouteAuditsOf, AlertsOf, TasksOf, SamplesOf, ConflictsOf, OutsideCalibratedRegime;
    AlertBranchOwn(db, e, if Truthy(cluster) then cluster.value else e, now);
  }

  /** A branch adds exactly the side rows of its outcome, and its reply names them. */
  lemma BranchOwn(db: Db, e: string, outcome: Outcome, cluster: Option<string>, now: int)
    requires ViewOf(db, e) == UNDECIDED
    ensures var (db', reply) := Branch(db, e, outcome, cluster, now);
            var v := ViewOf(db', e).(decisions := [outcome], audits := [outcome]);
            && reply.outcome == outcome && !reply.replayed && DecidedOnce(v) && Names(reply, v)
            && ViewOf(db', e).decisions == [] == ViewOf(db', e).audits
  {
    if outcome == AutoAccept {
      assert Branch(db, e, outcome, cluster, now) == (db, Bare(AutoAccept, false));
    }
    hide Branch, ViewOf, DecidedOnce, Names;
    match outcome
    case AutoAccept => AcceptedOwn(db, e);
    case AuditSample => SampleBranchOwn(db, e, cluster, now);
    case Review => ReviewBranchOwn(db, e, cluster, now);
    case Conflict => ConflictBranchOwn(db, e, cluster, now);
    case OutsideRegime => RegimeBranchOwn(db, e, cluster, now);
  }

  lemma AcceptedOwn(db: Db, e: string)
    requires ViewOf(db, e) == UNDECIDED
    ensures BranchedOnce(ViewOf(db, e), Bare(AutoAccept, false), AutoAccept)
  {
    hide ViewOf;
  }

  lemma RecordView(c: Crypto, db: Db, e: string, outcome: Outcome, x: string)
    ensures var v, v' := ViewOf(db, x), ViewOf(Record(c, db, e, outcome), x);
            v' == if x == e then v.(decisions := v.decisions + [outcome], audits := v.audits + [outcome]) else v
  {
    var db' := Record(c, db, e, outcome);
    Snoc(db.decisions, Decision(e, outcome));
    Snoc(db.audit, db'.audit[|db.audit|]);
    assert db'.audit == db.audit + [db'.audit[|db.audit|]];
  }

  lemma MarkProcessedView(c: Crypto, db: Db, page: string, x: string)
    ensures ViewOf(MarkProcessed(c, db, page), x) == ViewOf(db, x)
  {
    var db' := MarkProcessed(c, db, page);
    if db' != db {
      Snoc(db.audit, db'.audit[|db.audit|]);
    }
  }

  // ----- one delivery -----

  /** The tables after a first delivery, in three steps. */
  function Decided(c: Crypto, db: Db, e: string, outcome: Outcome, cluster: Option<string>, now: int): Db {
    Record(c, Branch(db, e, outcome, cluster, now).0, e, outcome)
  }

  /** A delivery never touches another extraction's rows, whatever state its own are in. */
  lemma DeliveryTouchesOnly(c: Crypto, db: Db, e: string, cluster: Option<string>, now: int, x: string)
    requires x != e
    ensures ViewOf(Route(c, db, e, cluster, now).0, x) == ViewOf(db, x)
  {
    hide ViewOf, Branch, Record, MarkProcessed, Replay;
    if e in db.extractions && db.extractions[e].outcome.Some? {
      var outcome := db.extractions[e].outcome.value;
      BranchOther(db, e, outcome, cluster, now, x);
      RecordView(c, Branch(db, e, outcome, cluster, now).0, e, outcome, x);
      MarkProcessedView(c, Decided(c, db, e, outcome, cluster, now), db.extractions[e].pageId, x);
    }
  }

  /** The first delivery decides, and names the rows it wrote. */
  lemma FirstDelivery(c: Crypto, db: Db, e: string, cluster: Option<string>, now: int)
    requires ViewOf(db, e) == UNDECIDED && e in db.extractions && db.extractions[e].outcome.Some?
    ensures var (db', r) := Route(c, db, e, cluster, now);
            && r.Ok? && !r.value.replayed && r.value.outcome == db.extractions[e].outcome.value
            && DecidedOnce(ViewOf(db', e)) && Names(r.value, ViewOf(db', e))
  {
    hide Branch, Record, MarkProcessed, Replay, DecidedOnce, Names;
    var outcome := db.extractions[e].outcome.value;
    BranchOwn(db, e, outcome, cluster, now);
    RecordView(c, Branch(db, e, outcome, cluster, now).0, e, outcome, e);
    MarkProcessedView(c, Decided(c, db, e, outcome, cluster, now), db.extractions[e].pageId, e);
    assert [] + [outcome] == [outcome];
    var v := ViewOf(Branch(db, e, outcome, cluster, now).0, e);
    assert v.(decisions := v.decisions + [outcome], audits := v.audits + [outcome])
        == v.(decisions := [outcome], audits := [outcome]);
  }

  /**
   Every later delivery leaves the tables alone. It answers exactly when upstream still says
   the outcome that was decided, and then it names the rows of the first delivery; the
   single-row lookups never see two rows.
   */
  lemma LaterDelivery(c: Crypto, db: Db, e: string, cluster: Option<string>, now: int)
    requires DecidedOnce(ViewOf(db, e)) && e in db.extractions
    ensures var (db', r), outcome := Route(c, db, e, cluster, now), db.extractions[e].outcome;
            && db' == db
            && (r.Ok? <==> outcome == Some(ViewOf(db, e).decisions[0]))
            && (r.Ok? ==> Names(r.value, ViewOf(db, e)) && r.value.replayed
                          && r.value.deduplicated == (r.value.outcome == OutsideRegime))
            && (r.Err? ==> r.error == if outcome.None? then Unroutable else AlreadyDecidedWithDifferentOutcome)
  {
  }

  /** Were another conflict to name the extraction, its replay would fail on the lookup. */
  lemma ForeignConflictBreaksReplay(c: Crypto, db: Db, e: string, id: nat, records: seq<string>, cluster: Option<string>, now: int)
    requires DecidedOnce(ViewOf(db, e)) && e in db.extractions
    requires db.extractions[e].outcome == Some(Conflict) && ViewOf(db, e).decisions == [Conflict]
    ensures Route(c, db.(conflicts := db.conflicts + [ConflictRow(id, records)]), e, cluster, now).1 == Err(MultipleRows)
            <==> e in records
  {
    Snoc(db.conflicts, ConflictRow(id, records));
  }

  // ----- runs -----

  /** Everything else that happens to these tables. */
  datatype Step =
    | Deliver(e: string, cluster: Option<string>, now: int)      // one handler call, committed or rolled back
    | SetOutcome(e: string, outcome: Option<Outcome>)           // upstream writes routing_outcome
    | AddExtraction(e: string, page: string)
    | OpenConflict(id: nat, records: seq<string>)               // the conflict register
    | OtherAudit(shard: int, subject: string)

  function Apply(c: Crypto, db: Db, step: Step): Db {
    match step
    case Deliver(e, cluster, now) => Route(c, db, e, cluster, now).0
    case SetOutcome(e, outcome) =>
      if e in db.extractions then db.(extractions := db.extractions[e := db.extractions[e].(outcome := outcome)]) else db
    case AddExtraction(e, page) =>
      if e in db.extractions then db else db.(extractions := db.extractions[e := Extraction(page, None)])
    case OpenConflict(id, records) => db.(conflicts := db.conflicts + [ConflictRow(id, records)])
    case OtherAudit(shard, subject) => db.(audit := db.audit + [AuditRow(shard, OtherAction, subject)])
  }

  function Run(c: Crypto, db: Db, steps: seq<Step>): Db
    decreases |steps|
  {
    if steps == [] then db else Run(c, Apply(c, db, steps[0]), steps[1..])
  }

  /** The conflict register opens conflicts between records, not about extraction `e`. */
  predicate NoForeignConflict(steps: seq<Step>, e: string) {
    forall i :: 0 <= i < |steps| && steps[i].OpenConflict? ==> e !in steps[i].records
  }

  ghost predicate Kept(db: Db, e: string) {
    && Consistent(ViewOf(db, e))
    && (ViewOf(db, e).decisions != [] ==> e in db.extractions)
  }

  lemma DeliverKeepsView(c: Crypto, db: Db, d: string, cluster: Option<string>, now: int, e: string)
    requires Kept(db, e)
    ensures Kept(Route(c, db, d, cluster, now).0, e)
    ensures ViewOf(db, e) != UNDECIDED ==> ViewOf(Route(c, db, d, cluster, now).0, e) == ViewOf(db, e)
  {
    hide Route, Names, ViewOf;
    RouteKeepsExtractions(c, db, d, cluster, now);
    if d != e {
      DeliveryTouchesOnly(c, db, d, cluster, now, e);
    } else if ViewOf(db, e) != UNDECIDED {
      LaterDelivery(c, db, e, cluster, now);
    } else if e in db.extractions && db.extractions[e].outcome.Some? {
      FirstDelivery(c, db, e, cluster, now);
    } else {
      NothingToDeliver(c, db, e, cluster, now);
    }
  }

  /** One step: the view stays consistent, and once decided it never changes again. */
  lemma StepKeepsView(c: Crypto, db: Db, step: Step, e: string)
    requires Kept(db, e)
    requires step.OpenConflict? ==> e !in step.records
    ensures Kept(Apply(c, db, step), e)
    ensures ViewOf(db, e) != UNDECIDED ==> ViewOf(Apply(c, db, step), e) == ViewOf(db, e)
  {
    hide Route, Names, DecidedOnce, DecisionsOf, RouteAuditsOf, TasksOf, SamplesOf, ConflictsOf, AlertsOf;
    match step
    case Deliver(d, cluster, now) => DeliverKeepsView(c, db, d, cluster, now, e);
    case OpenConflict(id, records) =>
      ConflictAdded(db.conflicts, ConflictRow(id, records), e);
      assert ViewOf(Apply(c, db, step), e) == ViewOf(db, e);
    case OtherAudit(shard, subject) =>
      AuditAdded(db.audit, AuditRow(shard, OtherAction, subject), e);
      assert ViewOf(Apply(c, db, step), e) == ViewOf(db, e);
    case _ =>
      assert ViewOf(Apply(c, db, step), e) == ViewOf(db, e);
  }

  lemma NothingToDeliver(c: Crypto, db: Db, e: string, cluster: Option<string>, now: int)
    requires e !in db.extractions || db.extractions[e].outcome.None?
    ensures Route(c, db, e, cluster, now).0 == db
  {
  }

  /** The tables that routing only reads. */
  predicate SameSources(db: Db, db': Db) {
    && db'.extractions == db.extractions && db'.pages == db.pages
    && db'.documents == db.documents && db'.districts == db.districts
  }

  lemma BranchKeepsSources(db: Db, e: string, outcome: Outcome, cluster: Option<string>, now: int)
    ensures SameSources(db, Branch(db, e, outcome, cluster, now).0)
    ensures Branch(db, e, outcome, cluster, now).0.decisions == db.decisions
    ensures Branch(db, e, outcome, cluster, now).0.audit == db.audit
  {
    hide OpenAlert;
  }

  lemma RouteKeepsExtractions(c: Crypto, db: Db, e: string, cluster: Option<string>, now: int)
    ensures SameSources(db, Route(c, db, e, cluster, now).0)
  {
    hide DecisionsOf, Replay, Branch, ProcessedIn, Terminal, DistrictForPage, GuardShard, ResolveShard, ShardFor;
    if e in db.extractions && db.extractions[e].outcome.Some? {
      BranchKeepsSources(db, e, db.extractions[e].outcome.value, cluster, now);
    }
  }

  /**
   Effectively once. Over every run of deliveries, redeliveries, rollbacks, upstream changes
   and other writers, an extraction is undecided, or decided exactly once with exactly the
   rows its outcome calls for; and once decided its rows never change.
   */
  lemma {:induction false} RunsDecideOnce(c: Crypto, db: Db, steps: seq<Step>, e: string)
    requires Kept(db, e) && NoForeignConflict(steps, e)
    ensures Kept(Run(c, db, steps), e)
    ensures ViewOf(db, e) != UNDECIDED ==> ViewOf(Run(c, db, steps), e) == ViewOf(db, e)
    decreases |steps|
  {
    hide ViewOf, Apply;
    if steps != [] {
      StepKeepsView(c, db, steps[0], e);
      RunsDecideOnce(c, Apply(c, db, steps[0]), steps[1..], e);
    }
  }

  // ----- conflicts that others open -----

  /** The steps without the conflicts that the register opens. */
  function Calm(steps: seq<Step>): seq<Step> {
    if steps == [] then [] else (if steps[0].OpenConflict? then [] else [steps[0]]) + Calm(steps[1..])
  }

  function ForeignConflicts(steps: seq<Step>, e: string): nat {
    if steps == [] then 0
    else ForeignConflicts(steps[1..], e) + if steps[0].OpenConflict? && e in steps[0].records then 1 else 0
  }

  lemma {:induction false} CalmHasNoForeignConflict(steps: seq<Step>, e: string)
    ensures NoForeignConflict(Calm(steps), e)
  {
    if steps != [] {
      CalmHasNoForeignConflict(steps[1..], e);
    }
  }

  /** Routing never reads the conflict table but to answer a replay: it writes the same rows whatever is in there. */
  lemma RouteIgnoresConflicts(c: Crypto, db: Db, rows: seq<ConflictRow>, e: string, cluster: Option<string>, now: int)
      returns (added: seq<ConflictRow>)
    ensures var r := Route(c, db, e, cluster, now).0;
            && r.conflicts == db.conflicts + added
            && Route(c, db.(conflicts := rows), e, cluster, now).0 == r.(conflicts := rows + added)
  {
    added := [];
    hide DecisionsOf, Replay, OutsideCalibratedRegime, ProcessedIn, GuardShard, ProcessedRequest, ResolveShard, ShardFor;
    if e in db.extractions && db.extractions[e].outcome.Some? && DecisionsOf(db.decisions, e) == [] {
      var outcome := db.extractions[e].outcome.value;
      BranchIgnoresConflicts(db, rows, e, outcome, cluster, now);
      added := ConflictsAdded(db, e, outcome);
      var b := Branch(db, e, outcome, cluster, now).0;
      assert b.conflicts == db.conflicts + added;
      MarkIgnoresConflicts(c, Record(c, b, e, outcome), rows + added, db.extractions[e].pageId);
      hide Branch, MarkProcessed;
    } else {
      assert db.conflicts + [] == db.conflicts && rows + [] == rows;
    }
  }

  function ConflictsAdded(db: Db, e: string, outcome: Outcome): seq<ConflictRow> {
    if outcome == Conflict then [ConflictRow(db.nextId, [e])] else []
  }

  lemma SampleIgnoresConflicts(db: Db, rows: seq<ConflictRow>, e: string, cluster: Option<string>, now: int)
    ensures var b := Branch(db, e, AuditSample, cluster, now).0;
            b.conflicts == db.conflicts && Branch(db.(conflicts := rows), e, AuditSample, cluster, now).0 == b.(conflicts := rows)
  {
  }

  lemma ReviewIgnoresConflicts(db: Db, rows: seq<ConflictRow>, e: string, cluster: Option<string>, now: int)
    ensures var b := Branch(db, e, Review, cluster, now).0;
            b.conflicts == db.conflicts && Branch(db.(conflicts := rows), e, Review, cluster, now).0 == b.(conflicts := rows)
  {
  }

  lemma ConflictIgnoresConflicts(db: Db, rows: seq<ConflictRow>, e: string, cluster: Option<string>, now: int)
    ensures var b, row := Branch(db, e, Conflict, cluster, now).0, ConflictRow(db.nextId, [e]);
            && b.conflicts == db.conflicts + [row]
            && Branch(db.(conflicts := rows), e, Conflict, cluster, now).0 == b.(conflicts := rows + [row])
  {
  }

  lemma OtherIgnoresConflicts(db: Db, rows: seq<ConflictRow>, e: string, outcome: Outcome, cluster: Option<string>, now: int)
    requires outcome == AutoAccept || outcome == OutsideRegime
    ensures var b := Branch(db, e, outcome, cluster, now).0;
            b.conflicts == db.conflicts && Branch(db.(conflicts := rows), e, outcome, cluster, now).0 == b.(conflicts := rows)
  {
    RegimeIgnoresConflicts(db, rows, e, if Truthy(cluster) then cluster.value else e, now);
    hide OutsideCalibratedRegime;
  }

  lemma BranchIgnoresConflicts(db: Db, rows: seq<ConflictRow>, e: string, outcome: Outcome, cluster: Option<string>, now: int)
    ensures var b, added := Branch(db, e, outcome, cluster, now).0, ConflictsAdded(db, e, outcome);
            && b.conflicts == db.conflicts + added
            && Branch(db.(conflicts := rows), e, outcome, cluster, now).0 == b.(conflicts := rows + added)
  {
    hide Branch;
    assert db.conflicts + [] == db.conflicts && rows + [] == rows;
    match outcome
    case AuditSample => SampleIgnoresConflicts(db, rows, e, cluster, now);
    case Review => ReviewIgnoresConflicts(db, rows, e, cluster, now);
    case Conflict => ConflictIgnoresConflicts(db, rows, e, cluster, now);
    case _ => OtherIgnoresConflicts(db, rows, e, outcome, cluster, now);
  }

  lemma RegimeIgnoresConflicts(db: Db, rows: seq<ConflictRow>, e: string, clusterKey: string, now: int)
    ensures var b := OutsideCalibratedRegime(db, e, clusterKey, now).0;
            && b.conflicts == db.conflicts
            && OutsideCalibratedRegime(db.(conflicts := rows), e, clusterKey, now).0 == b.(conflicts := rows)
  {
    hide OpenAlert;
  }

  lemma MarkIgnoresConflicts(c: Crypto, db: Db, rows: seq<ConflictRow>, page: string)
    ensures MarkProcessed(c, db, page).conflicts == db.conflicts
    ensures MarkProcessed(c, db.(conflicts := rows), page) == MarkProcessed(c, db, page).(conflicts := rows)
  {
    hide ProcessedIn, GuardShard, ProcessedRequest, ResolveShard, ShardFor;
    assert DistrictForPage(db.(conflicts := rows), page) == DistrictForPage(db, page);
    assert Terminal(db.(conflicts := rows), page) == Terminal(db, page);
    hide DistrictForPage, Terminal;
  }

  lemma StepIgnoresConflicts(c: Crypto, db: Db, rows: seq<ConflictRow>, step: Step) returns (added: seq<ConflictRow>)
    requires !step.OpenConflict?
    ensures var r := Apply(c, db, step);
            && r.conflicts == db.conflicts + added
            && Apply(c, db.(conflicts := rows), step) == r.(conflicts := rows + added)
  {
    hide Route;
    if step.Deliver? {
      added := RouteIgnoresConflicts(c, db, rows, step.e, step.cluster, step.now);
    } else {
      added := [];
      assert db.conflicts + [] == db.conflicts && rows + [] == rows;
    }
  }

  lemma {:induction false} ConflictsConcat(xs: seq<ConflictRow>, ys: seq<ConflictRow>, e: string)
    ensures ConflictsOf(xs + ys, e) == ConflictsOf(xs, e) + ConflictsOf(ys, e)
  {
    if ys == [] {
      assert xs + ys == xs;
    } else {
      var n := |ys| - 1;
      assert (xs + ys)[..|xs + ys| - 1] == xs + ys[..n];
      ConflictsConcat(xs, ys[..n], e);
    }
  }

  /** `more` rows naming `e` besides those of the calm run. */
  ghost predicate MoreConflicts(calm: seq<ConflictRow>, rows: seq<ConflictRow>, e: string, more: nat) {
    && |ConflictsOf(rows, e)| == |ConflictsOf(calm, e)| + more
    && forall id :: id in ConflictsOf(calm, e) ==> id in ConflictsOf(rows, e)
  }

  lemma ForeignIsMore(calm: seq<ConflictRow>, rows: seq<ConflictRow>, row: ConflictRow, e: string, more: nat)
    requires MoreConflicts(calm, rows, e, more)
    ensures MoreConflicts(calm, rows + [row], e, more + if e in row.records then 1 else 0)
  {
    ConflictAdded(rows, row, e);
    hide ConflictsOf;
  }

  lemma SameAreNotMore(calm: seq<ConflictRow>, rows: seq<ConflictRow>, added: seq<ConflictRow>, e: string, more: nat)
    requires MoreConflicts(calm, rows, e, more)
    ensures MoreConflicts(calm + added, rows + added, e, more)
  {
    ConflictsConcat(rows, added, e);
    ConflictsConcat(calm, added, e);
    hide ConflictsOf;
  }

  /** Conflicts opened by others change nothing but the conflict table. */
  lemma {:induction false} RunsIgnoreConflicts(c: Crypto, db: Db, rows: seq<ConflictRow>, steps: seq<Step>, e: string, more: nat)
      returns (rows': seq<ConflictRow>)
    requires MoreConflicts(db.conflicts, rows, e, more)
    ensures var calm := Run(c, db, Calm(steps));
            && Run(c, db.(conflicts := rows), steps) == calm.(conflicts := rows')
            && MoreConflicts(calm.conflicts, rows', e, more + ForeignConflicts(steps, e))
    decreases |steps|
  {
    hide MoreConflicts;
    if steps == [] {
      rows' := rows;
    } else if steps[0].OpenConflict? {
      var row := ConflictRow(steps[0].id, steps[0].records);
      ForeignIsMore(db.conflicts, rows, row, e, more);
      assert Calm(steps) == Calm(steps[1..]);
      rows' := RunsIgnoreConflicts(c, db, rows + [row], steps[1..], e, more + if e in row.records then 1 else 0);
    } else {
      var added := StepIgnoresConflicts(c, db, rows, steps[0]);
      SameAreNotMore(db.conflicts, rows, added, e, more);
      assert Calm(steps)[0] == steps[0] && Calm(steps)[1..] == Calm(steps[1..]);
      hide Apply;
      rows' := RunsIgnoreConflicts(c, Apply(c, db, steps[0]), rows + added, steps[1..], e, more);
    }
  }

  /**
   Effectively once among conflicts of all kinds. Whatever the register opens, the extraction is
   undecided or decided exactly once with its own rows, as if the register had opened nothing;
   its conflict rows are its own and one for each conflict that the register opened under it.
   */
  lemma AnyRunDecidesOnce(c: Crypto, db: Db, steps: seq<Step>, e: string)
    requires Kept(db, e)
    ensures var v, own := ViewOf(Run(c, db, steps), e), ViewOf(Run(c, db, Calm(steps)), e);
            && Consistent(own) && v == own.(conflicts := v.conflicts)
            && (ViewOf(db, e) != UNDECIDED ==> own == ViewOf(db, e))
            && |v.conflicts| == |own.conflicts| + ForeignConflicts(steps, e)
            && forall id :: id in own.conflicts ==> id in v.conflicts
  {
    CalmHasNoForeignConflict(steps, e);
    RunsDecideOnce(c, db, Calm(steps), e);
    var rows := RunsIgnoreConflicts(c, db, db.conflicts, steps, e, 0);
    assert db.(conflicts := db.conflicts) == db;
    hide Run, DecisionsOf, RouteAuditsOf, TasksOf, SamplesOf, AlertsOf, ConflictsOf, DecidedOnce;
  }

  // ----- an extraction's own rows -----

  /** Decided once, as far as its own rows go: others may have opened conflicts under it besides. */
  ghost predicate OwnOnce(v: View) {
    && |v.decisions| == 1 && (v.decisions[0] == Conflict ==> v.conflicts != [])
    && DecidedOnce(v.(conflicts := if v.decisions[0] == Conflict then [0] else []))
  }

  ghost predicate OwnUndecided(v: View) {
    v.(conflicts := []) == UNDECIDED
  }

  ghost predicate KeptOwn(db: Db, e: string) {
    var v := ViewOf(db, e);
    (OwnUndecided(v) || OwnOnce(v)) && (v.decisions != [] ==> e in db.extractions)
  }

  lemma ViewWithConflicts(db: Db, rows: seq<ConflictRow>, e: string)
    ensures ViewOf(db.(conflicts := rows), e) == ViewOf(db, e).(conflicts := ConflictsOf(rows, e))
  {
  }

  /** The conflict row of its own that a decided extraction would have. */
  function OwnRows(v: View, e: string): seq<ConflictRow> {
    if v.decisions == [Conflict] then [ConflictRow(0, [e])] else []
  }

  lemma OwnRowsAreKept(db: Db, e: string)
    requires KeptOwn(db, e)
    ensures var rows := OwnRows(ViewOf(db, e), e);
            && Kept(db.(conflicts := rows), e)
            && (ConflictsOf(rows, e) != [] ==> ViewOf(db, e).conflicts != [])
            && (OwnUndecided(ViewOf(db, e)) ==> ViewOf(db.(conflicts := rows), e) == UNDECIDED)
            && (!OwnUndecided(ViewOf(db, e)) ==> ViewOf(db.(conflicts := rows), e) != UNDECIDED)
  {
    var rows := OwnRows(ViewOf(db, e), e);
    ViewWithConflicts(db, rows, e);
    assert [ConflictRow(0, [e])][..0] == [];
    assert ConflictsOf([ConflictRow(0, [e])], e) == [0] && ConflictsOf([], e) == [];
    hide ConflictsOf, ViewOf;
  }

  /** One step of anyone, conflicts of all kinds included. */
  lemma StepKeepsOwn(c: Crypto, db: Db, step: Step, e: string)
    requires KeptOwn(db, e)
    ensures var v, v' := ViewOf(db, e), ViewOf(Apply(c, db, step), e);
            KeptOwn(Apply(c, db, step), e) && (!OwnUndecided(v) ==> v'.(conflicts := []) == v.(conflicts := []))
  {
    var v, rows := ViewOf(db, e), OwnRows(ViewOf(db, e), e);
    if step.OpenConflict? {
      ConflictAdded(db.conflicts, ConflictRow(step.id, step.records), e);
      ViewWithConflicts(db, db.conflicts + [ConflictRow(step.id, step.records)], e);
      hide ViewOf, ConflictsOf;
    } else {
      OwnRowsAreKept(db, e);
      StepKeepsView(c, db.(conflicts := rows), step, e);
      var added := StepIgnoresConflicts(c, db, rows, step);
      var after := Apply(c, db, step);
      ViewWithConflicts(after, rows + added, e);
      ViewWithConflicts(db, rows, e);
      ConflictsConcat(rows, added, e);
      ConflictsConcat(db.conflicts, added, e);
      assert ViewOf(after, e).conflicts == ConflictsOf(db.conflicts, e) + ConflictsOf(added, e);
      assert v.conflicts == ConflictsOf(db.conflicts, e);
      hide ViewOf, ConflictsOf, Apply;
      TransferOwn(ViewOf(after, e), ConflictsOf(rows, e) + ConflictsOf(added, e));
    }
  }

  /** A view whose own rows are right with one list of conflicts is right with any that has one when that list has. */
  lemma TransferOwn(v: View, conflicts: seq<nat>)
    requires Consistent(v.(conflicts := conflicts)) && (conflicts != [] ==> v.conflicts != [])
    ensures OwnUndecided(v) || OwnOnce(v)
  {
  }

  /** A reply means a decision. */
  lemma OkHasDecision(c: Crypto, db: Db, e: string, cluster: Option<string>, now: int)
    requires Route(c, db, e, cluster, now).1.Ok?
    ensures ViewOf(Route(c, db, e, cluster, now).0, e).decisions != []
  {
    var existing := DecisionsOf(db.decisions, e);
    if existing == [] {
      var outcome := db.extractions[e].outcome.value;
      BranchKeepsSources(db, e, outcome, cluster, now);
      var d := Record(c, Branch(db, e, outcome, cluster, now).0, e, outcome);
      Snoc(db.decisions, Decision(e, outcome));
      assert d.decisions == db.decisions + [Decision(e, outcome)];
      assert DecisionsOf(d.decisions, e) == existing + [outcome];
      MarkProcessedView(c, d, db.extractions[e].pageId, e);
      hide MarkProcessed, Branch, Record;
    }
  }

  lemma {:induction false} RunsKeepExtraction(c: Crypto, db: Db, steps: seq<Step>, e: string)
    requires e in db.extractions
    ensures var db' := Run(c, db, steps);
            e in db'.extractions && db'.extractions[e].pageId == db.extractions[e].pageId
    decreases |steps|
  {
    hide Route;
    if steps != [] {
      if steps[0].Deliver? {
        RouteKeepsExtractions(c, db, steps[0].e, steps[0].cluster, steps[0].now);
      }
      RunsKeepExtraction(c, Apply(c, db, steps[0]), steps[1..], e);
    }
  }

  // ----- the replay, whatever the register opened -----

  /** The first reply names rows that routing wrote itself; the conflict table has no part in it. */
  lemma FirstReplyIgnoresConflicts(c: Crypto, db: Db, rows: seq<ConflictRow>, e: string, cluster: Option<string>, now: int)
    requires DecisionsOf(db.decisions, e) == []
    ensures Route(c, db.(conflicts := rows), e, cluster, now).1 == Route(c, db, e, cluster, now).1
  {
    hide OpenAlert, MarkProcessed, Record, Replay;
  }

  /** A first delivery with conflicts about the extraction already open: the same rows and the same reply as without them. */
  lemma FirstAmongConflicts(c: Crypto, db: Db, e: string, cluster: Option<string>, now: int)
    requires OwnUndecided(ViewOf(db, e)) && e in db.extractions && db.extractions[e].outcome.Some?
    ensures var (db1, first), calm := Route(c, db, e, cluster, now), Route(c, db.(conflicts := []), e, cluster, now).0;
            && db1 == calm.(conflicts := db1.conflicts) && SameSources(db, calm)
            && MoreConflicts(calm.conflicts, db1.conflicts, e, |ViewOf(db, e).conflicts|)
            && first.Ok? && !first.value.replayed && first.value.outcome == db.extractions[e].outcome.value
            && DecidedOnce(ViewOf(calm, e)) && Names(first.value, ViewOf(calm, e))
  {
    var quiet := db.(conflicts := []);
    assert ConflictsOf([], e) == [];
    ViewWithConflicts(db, [], e);
    assert quiet.(conflicts := db.conflicts) == db;
    assert ViewOf(quiet, e) == UNDECIDED && ViewOf(db, e).conflicts == ConflictsOf(db.conflicts, e);
    assert DecisionsOf(quiet.decisions, e) == ViewOf(quiet, e).decisions == [];
    assert MoreConflicts([], db.conflicts, e, |ConflictsOf(db.conflicts, e)|);
    hide Route, ViewOf, ConflictsOf, MoreConflicts, DecidedOnce, Names, DecisionsOf;
    FirstDelivery(c, quiet, e, cluster, now);
    FirstReplyIgnoresConflicts(c, quiet, db.conflicts, e, cluster, now);
    RouteKeepsExtractions(c, quiet, e, cluster, now);
    var added := RouteIgnoresConflicts(c, quiet, db.conflicts, e, cluster, now);
    SameAreNotMore([], db.conflicts, added, e, |ConflictsOf(db.conflicts, e)|);
  }

  /** A delivery of an extraction that decided with the rows of `own`, among conflicts that others opened under it. */
  lemma LaterAmongConflicts(c: Crypto, db: Db, own: View, e: string, cluster: Option<string>, now: int)
    requires DecidedOnce(own) && e in db.extractions && ViewOf(db, e) == own.(conflicts := ViewOf(db, e).conflicts)
    requires forall id :: id in own.conflicts ==> id in ViewOf(db, e).conflicts
    ensures var (db', r), outcome := Route(c, db, e, cluster, now), db.extractions[e].outcome;
            && db' == db
            && (r.Ok? <==> outcome == Some(own.decisions[0]) && (own.decisions[0] == Conflict ==> |ViewOf(db, e).conflicts| == 1))
            && (r.Ok? ==> Names(r.value, own) && r.value.replayed && r.value.deduplicated == (r.value.outcome == OutsideRegime))
            && (r.Err? ==> r.error == if outcome.None? then Unroutable
                                      else if outcome.value != own.decisions[0] then AlreadyDecidedWithDifferentOutcome
                                      else MultipleRows)
  {
    hide DecisionsOf, TasksOf, SamplesOf, AlertsOf, ConflictsOf, RouteAuditsOf;
    if own.decisions[0] == Conflict {
      assert own.conflicts[0] in own.conflicts;
    }
  }

  /**
   A redelivery at any later time. Whatever the register opens before or after the decision,
   it changes no table, and it answers if and only if upstream still says the outcome that
   was decided and, for a conflict decision, the register never opened a conflict about the
   extraction. An answer is the first reply, marked as a replay.
   */
  lemma ReplayNamesFirstRows(c: Crypto, db: Db, e: string, cluster: Option<string>, now: int, steps: seq<Step>,
                             cluster': Option<string>, now': int)
    requires OwnUndecided(ViewOf(db, e)) && e in db.extractions && db.extractions[e].outcome.Some?
    ensures var (db1, first) := Route(c, db, e, cluster, now);
            var db2 := Run(c, db1, steps);
            var (db3, again) := Route(c, db2, e, cluster', now');
            && db3 == db2 && first.Ok? && e in db2.extractions
            && (again.Ok? <==>
                  && db2.extractions[e].outcome == Some(first.value.outcome)
                  && (first.value.outcome == Conflict ==> ViewOf(db, e).conflicts == [] && ForeignConflicts(steps, e) == 0))
            && (again.Ok? ==>
                  again.value == first.value.(replayed := true, deduplicated := first.value.outcome == OutsideRegime))
            && (again.Err? && again.error == MultipleRows <==>
                  && db2.extractions[e].outcome == Some(Conflict) && first.value.outcome == Conflict
                  && |ViewOf(db, e).conflicts| + ForeignConflicts(steps, e) > 0)
  {
    hide Route, Run, DecidedOnce, OwnUndecided, ViewOf, ConflictsOf;
    FirstAmongConflicts(c, db, e, cluster, now);
    RouteKeepsExtractions(c, db, e, cluster, now);
    var db1, calm := Route(c, db, e, cluster, now).0, Route(c, db.(conflicts := []), e, cluster, now).0;
    var own, more := ViewOf(calm, e), |ViewOf(db, e).conflicts|;
    CalmHasNoForeignConflict(steps, e);
    RunsDecideOnce(c, calm, Calm(steps), e);
    var rows := RunsIgnoreConflicts(c, calm, db1.conflicts, steps, e, more);
    RunsKeepExtraction(c, db1, steps, e);
    var end := Run(c, calm, Calm(steps));
    ViewWithConflicts(end, rows, e);
    ConflictsOfView(end, e);
    LaterAmongConflicts(c, Run(c, db1, steps), own, e, cluster', now');
    OwnConflicts(own);
    assert more + ForeignConflicts(steps, e) == |ViewOf(Run(c, db1, steps), e).conflicts| - |own.conflicts|;
    var first, again := Route(c, db, e, cluster, now).1.value, Route(c, Run(c, db1, steps), e, cluster', now').1;
    assert again.Err? && again.error == MultipleRows ==> first.outcome == Conflict;
  }

  lemma ConflictsOfView(db: Db, e: string)
    ensures ViewOf(db, e).conflicts == ConflictsOf(db.conflicts, e)
  {
  }

  lemma OwnConflicts(own: View)
    requires DecidedOnce(own)
    ensures |own.decisions| == 1 && |own.conflicts| == if own.decisions[0] == Conflict then 1 else 0
  {
  }
}
