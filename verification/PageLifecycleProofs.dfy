/** `page.processed`: at most once, only for a terminal page, and for every decided page. */
module PageLifecycleProofs {
  import opened Wrappers
  import opened HashChain
  import opened DecisionEngine
  import opened DecisionProofs
  import opened DecisionRows

  /**
   The guard searches the shard that the append writes to, except for one corner: a page
   without a district and with an empty id, whose append falls back to the actor's shard.
   */
  lemma GuardSearchesAppendShard(c: Crypto, district: Option<string>, page: string)
    ensures GuardShard(c, district, page) == ResolveShard(c, ProcessedRequest(district, page))
            <==> Truthy(district) || page != "" || ShardFor(c, "") == ShardFor(c, ENGINE)
  {
  }

  /** The `page.processed` entries of a page, in whatever shard. */
  function ProcessedCount(rows: seq<AuditRow>, page: string): nat {
    if rows == [] then 0
    else
      var last := rows[|rows| - 1];
      ProcessedCount(rows[..|rows| - 1], page) + if last.action == PageProcessed && last.subject == page then 1 else 0
  }

  /** Every entry of the page is in one shard, and there is at most one. */
  ghost predicate OnceIn(rows: seq<AuditRow>, shard: int, page: string) {
    ProcessedCount(rows, page) == ProcessedIn(rows, shard, page) <= 1
  }

  lemma {:induction false} CountSplits(rows: seq<AuditRow>, shard: int, page: string)
    ensures ProcessedIn(rows, shard, page) <= ProcessedCount(rows, page)
  {
    if rows != [] {
      CountSplits(rows[..|rows| - 1], shard, page);
    }
  }

  lemma AuditSnoc(rows: seq<AuditRow>, row: AuditRow, shard: int, page: string)
    ensures var mine := row.action == PageProcessed && row.subject == page;
            && ProcessedCount(rows + [row], page) == ProcessedCount(rows, page) + (if mine then 1 else 0)
            && ProcessedIn(rows + [row], shard, page)
               == ProcessedIn(rows, shard, page) + (if mine && row.shardId == shard then 1 else 0)
  {
    Snoc(rows, row);
  }

  predicate HasKey(page: string, district: Option<string>) {
    Truthy(district) || page != ""
  }

  function PageShard(c: Crypto, db: Db, page: string): int {
    GuardShard(c, DistrictForPage(db, page), page)
  }

  /** What the check does to any page's count: one more exactly when this page is terminal and has none. */
  lemma MarkProcessedCounts(c: Crypto, db: Db, marked: string, page: string)
    requires OnceIn(db.audit, PageShard(c, db, page), page)
    requires HasKey(marked, DistrictForPage(db, marked))
    ensures var db' := MarkProcessed(c, db, marked);
            && OnceIn(db'.audit, PageShard(c, db, page), page)
            && ProcessedCount(db'.audit, page) == ProcessedCount(db.audit, page) +
                 if page == marked && AllRouted(db, page) && ProcessedCount(db.audit, page) == 0 then 1 else 0
  {
    var district := DistrictForPage(db, marked);
    GuardSearchesAppendShard(c, district, marked);
    AuditSnoc(db.audit, AuditRow(ResolveShard(c, ProcessedRequest(district, marked)), PageProcessed, marked),
              PageShard(c, db, page), page);
  }

  /**
   The guard relies on a page keeping its district. For a terminal page already recorded in
   shard `home`, the next check records it a second time exactly when its key now leads elsewhere.
   */
  lemma RepeatedIffDistrictMoved(c: Crypto, db: Db, home: int, page: string)
    requires OnceIn(db.audit, home, page) && ProcessedCount(db.audit, page) == 1
    requires AllRouted(db, page) && HasKey(page, DistrictForPage(db, page))
    ensures ProcessedCount(MarkProcessed(c, db, page).audit, page) == 2 <==> PageShard(c, db, page) != home
  {
    var district := DistrictForPage(db, page);
    GuardSearchesAppendShard(c, district, page);
    AuditSnoc(db.audit, AuditRow(ResolveShard(c, ProcessedRequest(district, page)), PageProcessed, page), home, page);
    if PageShard(c, db, page) != home {
      EntryHasOneShard(db.audit, home, PageShard(c, db, page), page);
    }
  }

  lemma {:induction false} EntryHasOneShard(rows: seq<AuditRow>, home: int, other: int, page: string)
    requires home != other
    ensures ProcessedIn(rows, home, page) + ProcessedIn(rows, other, page) <= ProcessedCount(rows, page)
  {
    if rows != [] {
      EntryHasOneShard(rows[..|rows| - 1], home, other, page);
    }
  }

  // ----- an entry waits for the last field -----

  lemma MarkedWhenRouted(c: Crypto, db: Db, marked: string, page: string)
    ensures var count, count' := ProcessedCount(db.audit, page), ProcessedCount(MarkProcessed(c, db, marked).audit, page);
            && (count' == count || (count' == count + 1 && page == marked && AllRouted(db, page)))
            && AllRouted(MarkProcessed(c, db, marked), page) == AllRouted(db, page)
  {
    ghost var d := DistrictForPage(db, marked);
    PageCheckRows(c, db, marked, d);
    var row := AuditRow(PageKey(c, d, if marked != "" then marked else "system:decision-engine"), PageProcessed, marked);
    AuditSnoc(db.audit, row, 0, page);
    hide MarkProcessed, ProcessedCount, ProcessedIn, DistrictForPage, PageKey;
  }

  // ----- runs -----

  predicate IsDecided(db: Db, e: string) {
    DecisionsOf(db.decisions, e) != []
  }

  /** At least one extraction, and every one of them is decided. */
  ghost predicate AllDecided(db: Db, page: string) {
    && (exists e :: e in db.extractions && db.extractions[e].pageId == page)
    && (forall e :: e in db.extractions && db.extractions[e].pageId == page ==> IsDecided(db, e))
  }

  /** Decided extractions exist and have an outcome; a page all of whose extractions are decided is recorded. */
  ghost predicate Recorded(db: Db, page: string) {
    && (forall e :: IsDecided(db, e) ==> e in db.extractions && db.extractions[e].outcome.Some?)
    && (AllDecided(db, page) ==> ProcessedCount(db.audit, page) == 1)
  }

  /** The pages that extractions name have a district or a non-empty id. */
  ghost predicate Keyed(db: Db) {
    forall e :: e in db.extractions ==>
      var p := db.extractions[e].pageId; HasKey(p, DistrictForPage(db, p))
  }

  lemma RecordCounts(c: Crypto, db: Db, e: string, outcome: Outcome, cluster: Option<string>, now: int, page: string)
    ensures var db' := Decided(c, db, e, outcome, cluster, now);
            && SameSources(db, db')
            && db'.decisions == db.decisions + [Decision(e, outcome)]
            && ProcessedCount(db'.audit, page) == ProcessedCount(db.audit, page)
            && (forall s :: ProcessedIn(db'.audit, s, page) == ProcessedIn(db.audit, s, page))
  {
    hide Branch;
    BranchKeepsSources(db, e, outcome, cluster, now);
    forall s ensures ProcessedIn(Decided(c, db, e, outcome, cluster, now).audit, s, page) == ProcessedIn(db.audit, s, page) {
      AuditSnoc(db.audit, AuditRow(ShardFor(c, if e != "" then e else ENGINE), RouteDecision(outcome), e), s, page);
    }
    AuditSnoc(db.audit, AuditRow(ShardFor(c, if e != "" then e else ENGINE), RouteDecision(outcome), e), 0, page);
  }

  /** Either nothing happens, or the extraction is decided, recorded, and its page checked. */
  lemma RouteSplits(c: Crypto, db: Db, e: string, cluster: Option<string>, now: int)
    ensures var db' := Route(c, db, e, cluster, now).0;
            if e in db.extractions && db.extractions[e].outcome.Some? && !IsDecided(db, e) then
              db' == MarkProcessed(c, Decided(c, db, e, db.extractions[e].outcome.value, cluster, now), db.extractions[e].pageId)
            else db' == db
  {
    hide Branch, Record, MarkProcessed, Replay;
  }

  lemma SameSourcesSamePage(c: Crypto, db: Db, db': Db, page: string)
    requires SameSources(db, db')
    ensures DistrictForPage(db', page) == DistrictForPage(db, page) && PageShard(c, db', page) == PageShard(c, db, page)
    ensures Terminal(db', page) == Terminal(db, page)
  {
  }

  /** A delivery records a page at most once, and records it if it decides its last extraction. */
  lemma DeliveryKeepsPage(c: Crypto, db: Db, e: string, cluster: Option<string>, now: int, page: string)
    requires OnceIn(db.audit, PageShard(c, db, page), page) && Keyed(db)
    ensures var db' := Route(c, db, e, cluster, now).0;
            && OnceIn(db'.audit, PageShard(c, db', page), page)
            && (Recorded(db, page) ==> Recorded(db', page))
  {
    hide Route, MarkProcessed, Decided, DistrictForPage, GuardShard, ProcessedIn, ProcessedCount;
    RouteSplits(c, db, e, cluster, now);
    if e in db.extractions && db.extractions[e].outcome.Some? && !IsDecided(db, e) {
      var outcome, marked := db.extractions[e].outcome.value, db.extractions[e].pageId;
      var db1 := Decided(c, db, e, outcome, cluster, now);
      RecordCounts(c, db, e, outcome, cluster, now, page);
      SameSourcesSamePage(c, db, db1, page);
      SameSourcesSamePage(c, db, db1, marked);
      MarkProcessedCounts(c, db1, marked, page);
      MarkKeepsSources(c, db1, marked);
      var db' := MarkProcessed(c, db1, marked);
      SameSourcesSamePage(c, db, db', page);
      if Recorded(db, page) {
        forall x ensures IsDecided(db', x) <==> IsDecided(db, x) || x == e {
          Snoc(db.decisions, Decision(e, outcome));
        }
      }
    }
  }

  lemma MarkKeepsSources(c: Crypto, db: Db, page: string)
    ensures SameSources(db, MarkProcessed(c, db, page)) && MarkProcessed(c, db, page).decisions == db.decisions
  {
  }

  /** The pages that extractions name have a district or a non-empty id, also the ones yet to come. */
  predicate KeyedStep(db: Db, step: Step) {
    step.AddExtraction? ==> HasKey(step.page, DistrictForPage(db, step.page))
  }

  /** An update that only writes outcomes. */
  predicate SamePages(db: Db, db': Db) {
    && db'.extractions.Keys == db.extractions.Keys
    && forall e :: e in db.extractions ==> db'.extractions[e].pageId == db.extractions[e].pageId
  }

  lemma SamePagesSameDecided(db: Db, db': Db, page: string)
    requires SamePages(db, db') && db'.decisions == db.decisions
    ensures AllDecided(db', page) == AllDecided(db, page)
  {
    if e :| e in db.extractions && db.extractions[e].pageId == page {
      assert e in db'.extractions && db'.extractions[e].pageId == page;
    }
    if e :| e in db'.extractions && db'.extractions[e].pageId == page {
      assert e in db.extractions && db.extractions[e].pageId == page;
    }
  }

  /** A new extraction is undecided, so its page is not all decided; other pages are as they were. */
  lemma NewExtractionKeepsRecorded(db: Db, e: string, p: string, page: string)
    requires Recorded(db, page) && e !in db.extractions
    ensures Recorded(db.(extractions := db.extractions[e := Extraction(p, None)]), page)
  {
    var db' := db.(extractions := db.extractions[e := Extraction(p, None)]);
    assert !IsDecided(db', e) by {
      assert IsDecided(db', e) == IsDecided(db, e);
    }
    if AllDecided(db', page) {
      assert p != page by {
        assert e in db'.extractions && db'.extractions[e].pageId == p;
      }
      var x :| x in db'.extractions && db'.extractions[x].pageId == page;
      assert x in db.extractions && db.extractions[x].pageId == page;
      assert forall y :: y in db.extractions ==> y in db'.extractions && db'.extractions[y] == db.extractions[y];
    }
  }

  lemma DistrictsStay(c: Crypto, db: Db, step: Step)
    ensures forall p :: DistrictForPage(Apply(c, db, step), p) == DistrictForPage(db, p)
  {
    hide Route;
    if step.Deliver? {
      RouteKeepsExtractions(c, db, step.e, step.cluster, step.now);
    }
  }

  lemma StepKeepsPage(c: Crypto, db: Db, step: Step, page: string)
    requires OnceIn(db.audit, PageShard(c, db, page), page) && Keyed(db) && KeyedStep(db, step)
    ensures var db' := Apply(c, db, step);
            && OnceIn(db'.audit, PageShard(c, db', page), page) && Keyed(db')
            && (Recorded(db, page) && !(step.SetOutcome? && step.outcome.None?) ==> Recorded(db', page))
            && forall p :: DistrictForPage(db', p) == DistrictForPage(db, p)
  {
    hide Route, GuardShard, ProcessedIn, ProcessedCount, AllDecided, DistrictForPage;
    var db' := Apply(c, db, step);
    DistrictsStay(c, db, step);
    match step
    case Deliver(e, cluster, now) =>
      DeliveryKeepsPage(c, db, e, cluster, now, page);
      RouteKeepsExtractions(c, db, e, cluster, now);
    case SetOutcome(e, outcome) =>
      SamePagesSameDecided(db, db', page);
    case AddExtraction(e, p) =>
      if e !in db.extractions && Recorded(db, page) {
        NewExtractionKeepsRecorded(db, e, p, page);
      }
    case OpenConflict(id, records) =>
      SamePagesSameDecided(db, db', page);
    case OtherAudit(shard, subject) =>
      AuditSnoc(db.audit, AuditRow(shard, OtherAction, subject), PageShard(c, db, page), page);
      SamePagesSameDecided(db, db', page);
  }

  /** No step but a delivery of one of its fields records a page, and that one only with every field of it routed. */
  lemma StepRecordsWhenRouted(c: Crypto, db: Db, step: Step, page: string)
    ensures var db' := Apply(c, db, step);
            || ProcessedCount(db'.audit, page) == ProcessedCount(db.audit, page)
            || (ProcessedCount(db'.audit, page) == ProcessedCount(db.audit, page) + 1 && AllRouted(db', page)
                && step.Deliver? && step.e in db.extractions && db.extractions[step.e].pageId == page)
  {
    hide Route, ProcessedCount, ProcessedIn, AllRouted, MarkProcessed, Decided;
    match step
    case Deliver(e, cluster, now) =>
      RouteSplits(c, db, e, cluster, now);
      if e in db.extractions && db.extractions[e].outcome.Some? && !IsDecided(db, e) {
        var outcome, marked := db.extractions[e].outcome.value, db.extractions[e].pageId;
        RecordCounts(c, db, e, outcome, cluster, now, page);
        MarkedWhenRouted(c, Decided(c, db, e, outcome, cluster, now), marked, page);
      }
    case OtherAudit(shard, subject) => AuditSnoc(db.audit, AuditRow(shard, OtherAction, subject), 0, page);
    case _ =>
  }

  /**
   Exactly when a delivery records a page: it decides a field of the page, after it every field
   of the page is routed, and the page was not recorded yet.
   */
  lemma DeliveryRecordsIff(c: Crypto, db: Db, e: string, cluster: Option<string>, now: int, page: string)
    requires OnceIn(db.audit, PageShard(c, db, page), page) && Keyed(db)
    ensures var db' := Route(c, db, e, cluster, now).0;
            ProcessedCount(db'.audit, page) == ProcessedCount(db.audit, page) +
              if e in db.extractions && db.extractions[e].outcome.Some? && Undecided(db, e) && db.extractions[e].pageId == page
                 && AllRouted(db', page) && ProcessedCount(db.audit, page) == 0 then 1 else 0
  {
    hide Route, MarkProcessed, Decided, DistrictForPage, GuardShard, ProcessedIn, ProcessedCount, AllRouted;
    RouteSplits(c, db, e, cluster, now);
    UndecidedHasNone(db.decisions, e);
    if e in db.extractions && db.extractions[e].outcome.Some? && !IsDecided(db, e) {
      var outcome, marked := db.extractions[e].outcome.value, db.extractions[e].pageId;
      var db1 := Decided(c, db, e, outcome, cluster, now);
      RecordCounts(c, db, e, outcome, cluster, now, page);
      SameSourcesSamePage(c, db, db1, page);
      SameSourcesSamePage(c, db, db1, marked);
      MarkProcessedCounts(c, db1, marked, page);
      MarkedWhenRouted(c, db1, marked, page);
    }
  }

  /** Over every run of anyone's steps: the first entry of a page is written by the step after which its last field is routed. */
  lemma {:induction false} FirstEntryWaits(c: Crypto, db: Db, steps: seq<Step>, page: string) returns (i: nat)
    requires ProcessedCount(db.audit, page) == 0 < ProcessedCount(Run(c, db, steps).audit, page)
    ensures i < |steps| && steps[i].Deliver?
    ensures var before, after := Run(c, db, steps[..i]), Run(c, db, steps[..i + 1]);
            && ProcessedCount(before.audit, page) == 0 && ProcessedCount(after.audit, page) == 1 && AllRouted(after, page)
    decreases |steps|
  {
    hide Apply, ProcessedCount, AllRouted;
    if steps == [] {
      assert false;
    }
    var next := Apply(c, db, steps[0]);
    StepRecordsWhenRouted(c, db, steps[0], page);
    if ProcessedCount(next.audit, page) > 0 {
      i := 0;
      assert Run(c, db, []) == db && Run(c, next, []) == next;
      assert steps[..1] == [steps[0]] && [steps[0]][1..] == [] && steps[..0] == [];
    } else {
      i := FirstEntryWaits(c, next, steps[1..], page);
      assert steps[..i + 1][1..] == steps[1..][..i] && steps[..i + 2][1..] == steps[1..][..i + 1];
      i := i + 1;
    }
  }

  predicate KeyedSteps(db: Db, steps: seq<Step>) {
    forall i :: 0 <= i < |steps| ==> KeyedStep(db, steps[i])
  }

  predicate OutcomesNeverRevert(steps: seq<Step>) {
    forall i :: 0 <= i < |steps| && steps[i].SetOutcome? ==> steps[i].outcome.Some?
  }

  /**
   Over every run in which pages keep their districts, a page is recorded as processed at
   most once; and if outcomes never revert to null, every page all of whose extractions are
   decided is recorded exactly once.
   */
  lemma {:induction false} RunsRecordPages(c: Crypto, db: Db, steps: seq<Step>, page: string)
    requires OnceIn(db.audit, PageShard(c, db, page), page) && Keyed(db) && KeyedSteps(db, steps)
    ensures var db' := Run(c, db, steps);
            && OnceIn(db'.audit, PageShard(c, db', page), page)
            && (Recorded(db, page) && OutcomesNeverRevert(steps) && AllDecided(db', page) ==>
                  ProcessedCount(db'.audit, page) == 1)
            && (Recorded(db, page) && OutcomesNeverRevert(steps) ==> Recorded(db', page))
    decreases |steps|
  {
    hide Apply, GuardShard, ProcessedIn, ProcessedCount, OnceIn, AllDecided, DistrictForPage, Keyed;
    if steps != [] {
      StepKeepsPage(c, db, steps[0], page);
      RunsRecordPages(c, Apply(c, db, steps[0]), steps[1..], page);
    }
  }
}
