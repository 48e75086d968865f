/**
 The decision worker from end to end: messages from the queue, through the runner, into the
 decision engine (services/backend/src/backend/workers/decision_engine.py). One theorem spans
 the three: a message that left the queue was decided once, or lies on the dead-letter queue.
 */
module DecisionDelivery {
  import opened Wrappers
  import opened HashChain
  import opened MessageQueue
  import opened MessageQueueProofs
  import W = WorkerRunner
  import WP = WorkerRunnerProofs
  import D = DecisionEngine
  import DP = DecisionProofs

  /** The payload: the extraction, the outcome the sender believes it has, and its novelty cluster. */
  datatype Envelope = Envelope(extraction: string, claimed: Option<D.Outcome>, cluster: Option<string>)

  datatype World = World(db: D.Db, site: W.Site<Envelope>)

  // ----- the handler -----

  datatype HandleError = MissingId | NotFound | PayloadMismatch | Refused(reason: D.RouteError)

  /**
   `handle`. A payload that contradicts the tables leaves an audit row, committed on its own,
   before the error is raised. Whether the confidences differ is a parameter.
   */
  function Handle(c: Crypto, db: D.Db, m: Envelope, confidenceDiffers: bool, now: int): (D.Db, Result<D.Reply, HandleError>) {
    if m.extraction == "" then (db, Err(MissingId))
    else if m.extraction !in db.extractions then (db, Err(NotFound))
    else if (m.claimed.Some? && m.claimed != db.extractions[m.extraction].outcome) || confidenceDiffers then
      (db.(audit := db.audit + [D.AuditRow(SYSTEM_SHARD_ID, D.OtherAction, m.extraction)]), Err(PayloadMismatch))
    else
      var (db', r) := D.Route(c, db, m.extraction, m.cluster, now);
      (db', if r.Ok? then Ok(r.value) else Err(Refused(r.error)))
  }

  method HandleMessage(session: D.Session, m: Envelope, confidenceDiffers: bool, now: int)
      returns (r: Result<D.Reply, HandleError>)
    modifies session
    ensures (session.db, r) == Handle(session.crypto, old(session.db), m, confidenceDiffers, now)
  {
    if m.extraction == "" {
      return Err(MissingId);
    }
    if m.extraction !in session.db.extractions {
      return Err(NotFound);
    }
    var mismatched := m.claimed.Some? && m.claimed != session.db.extractions[m.extraction].outcome;
    if mismatched || confidenceDiffers {
      session.AuditAppend(
        Request(D.ENGINE, "decision.payload_mismatch", Some(m.extraction), None, None, None, Some(SYSTEM_SHARD_KEY), None),
        D.OtherAction, m.extraction);
      return Err(PayloadMismatch);
    }
    var reply := session.RouteExtraction(m.extraction, m.cluster, now);
    r := if reply.Ok? then Ok(reply.value) else Err(Refused(reply.error));
  }

  datatype Mishap = Smooth | DiesBeforeCommit | DiesBeforeAck

  datatype Turn = Turn(mishap: Mishap, deadLetter: W.DeadLetterFate, confidenceDiffers: bool, now: int)

  /** What the runner sees of one handler call. */
  function FateOf(r: Result<D.Reply, HandleError>, mishap: Mishap): W.HandlerFate {
    if mishap == DiesBeforeCommit then W.CrashesBeforeCommit
    else if r.Err? then if mishap == DiesBeforeAck then W.CrashesBeforeCommit else W.Raises
    else if mishap == DiesBeforeAck then W.CrashesBeforeAck else W.Returns
  }

  function FateFor(c: Crypto, w: World, m: Message<Envelope>, turn: Turn, max: nat): W.Fate {
    if m.deliveryCount > max then W.Fate(W.Raises, turn.deadLetter)
    else W.Fate(FateOf(Handle(c, w.db, m.data, turn.confidenceDiffers, turn.now).1, turn.mishap), turn.deadLetter)
  }

  function DbAfter(c: Crypto, w: World, m: Message<Envelope>, turn: Turn, max: nat): D.Db {
    if m.deliveryCount > max || turn.mishap == DiesBeforeCommit then w.db
    else Handle(c, w.db, m.data, turn.confidenceDiffers, turn.now).0
  }

  function DeliverOne(c: Crypto, w: World, m: Message<Envelope>, turn: Turn, max: nat): (World, W.Outcome) {
    var (site, outcome) := W.ProcessOne(w.site, m, FateFor(c, w, m, turn, max), max);
    (World(DbAfter(c, w, m, turn, max), site), outcome)
  }

  function DeliverBatch(c: Crypto, w: World, batch: seq<Message<Envelope>>, turns: seq<Turn>, max: nat): (World, W.Outcome)
    decreases |batch|
  {
    if batch == [] then (w, W.Finished)
    else if turns == [] then (w, W.Stopped)
    else
      var (w', outcome) := DeliverOne(c, w, batch[0], turns[0], max);
      if outcome == W.Finished then DeliverBatch(c, w', batch[1..], turns[1..], max) else (w', outcome)
  }

  datatype Event =
    | Published(m: Envelope, seqId: nat)
    | Called(turns: seq<Turn>)        // one call of the runner, by whichever worker is alive
    | Elsewhere(step: DP.Step)        // any other writer of the tables

  function After(c: Crypto, w: World, count: nat, max: nat, e: Event): World {
    match e
    case Published(m, id) => w.(site := w.site.(stream := w.site.stream + [Entry(id, m)]))
    case Called(turns) => DeliverBatch(c, w.(site := W.Delivering(w.site, count)), W.Batch(w.site, count), turns, max).0
    case Elsewhere(step) => w.(db := DP.Apply(c, w.db, step))
  }

  function History(c: Crypto, w: World, count: nat, max: nat, events: seq<Event>): World
    decreases |events|
  {
    if events == [] then w else History(c, After(c, w, count, max, events[0]), count, max, events[1..])
  }

  // ----- what the handler and one delivery do -----

  /** The answers of the handler, in the order of its checks. */
  lemma HandleIs(c: Crypto, db: D.Db, m: Envelope, confidenceDiffers: bool, now: int)
    ensures var (after, r), e := Handle(c, db, m, confidenceDiffers, now), m.extraction;
            var known := e != "" && e in db.extractions;
            var mismatch := known && (confidenceDiffers || (m.claimed.Some? && db.extractions[e].outcome != m.claimed));
            && (r == Err(MissingId) <==> e == "")
            && (r == Err(NotFound) <==> e != "" && e !in db.extractions)
            && (r == Err(PayloadMismatch) <==> mismatch)
            && (!known ==> after == db)
            && (mismatch ==> after == db.(audit := db.audit + [D.AuditRow(0, D.OtherAction, e)]))
            && (known && !mismatch ==>
                  var (routed, reply) := D.Route(c, db, e, m.cluster, now);
                  after == routed && r == match reply case Ok(value) => Ok(value) case Err(reason) => Err(Refused(reason)))
  {
    hide D.Route;
  }

  /**
   One delivery, with every mishap: a message past its last delivery is dead-lettered unseen;
   a death before the commit leaves nothing; a reply is committed, and acked unless the worker
   dies first; an error leaves what the handler committed on its own, and is retried or, at
   the last delivery, dead-lettered.
   */
  lemma DeliverOneIs(c: Crypto, w: World, m: Message<Envelope>, turn: Turn, max: nat)
    ensures var (w', outcome), (db', r) := DeliverOne(c, w, m, turn, max), Handle(c, w.db, m.data, turn.confidenceDiffers, turn.now);
            var done := w.site.(committed := w.site.committed + [m.seqId]);
            var failed := w.site.(failed := w.site.failed + [m.seqId]);
            if m.deliveryCount > max then
              w'.db == w.db && (w'.site, outcome) == W.DeadLetter(w.site, m, W.MaxDeliveriesExceeded, turn.deadLetter)
            else if turn.mishap == DiesBeforeCommit then w' == w && outcome == W.Crashed
            else
              && w'.db == db'
              && (w'.site, outcome) ==
                   if turn.mishap == DiesBeforeAck then (if r.Ok? then done else w.site, W.Crashed)
                   else if r.Ok? then (W.Settle(done, m.seqId), W.Finished)
                   else if m.deliveryCount == max then W.DeadLetter(failed, m, W.HandlerError, turn.deadLetter)
                   else (failed, W.Raised)
  {
    hide Handle, W.DeadLetter;
  }

  // ----- one message -----

  /** A handler call is a step of the decision engine's runs, whatever it returns. */
  lemma HandleKeepsView(c: Crypto, db: D.Db, m: Envelope, confidenceDiffers: bool, now: int, e: string)
    requires DP.KeptOwn(db, e)
    ensures var (db', r) := Handle(c, db, m, confidenceDiffers, now);
            && DP.KeptOwn(db', e)
            && (DP.OwnOnce(DP.ViewOf(db, e)) ==> DP.OwnOnce(DP.ViewOf(db', e)))
            && (r.Ok? && m.extraction == e ==> DP.OwnOnce(DP.ViewOf(db', e)))
  {
    hide DP.KeptOwn, DP.ViewOf, DP.OwnOnce, D.Route;
    OwnOnceStays(c, db, DP.OtherAudit(SYSTEM_SHARD_ID, m.extraction), e);
    OwnOnceStays(c, db, DP.Deliver(m.extraction, m.cluster, now), e);
    if D.Route(c, db, m.extraction, m.cluster, now).1.Ok? && m.extraction == e {
      DP.OkHasDecision(c, db, e, m.cluster, now);
      DecidedIsOnce(D.Route(c, db, e, m.cluster, now).0, e);
    }
  }

  lemma OwnOnceStays(c: Crypto, db: D.Db, step: DP.Step, e: string)
    requires DP.KeptOwn(db, e)
    ensures DP.KeptOwn(DP.Apply(c, db, step), e)
    ensures DP.OwnOnce(DP.ViewOf(db, e)) ==> DP.OwnOnce(DP.ViewOf(DP.Apply(c, db, step), e))
  {
    DP.StepKeepsOwn(c, db, step, e);
    hide DP.ViewOf, DP.Apply, DP.DecidedOnce;
  }

  lemma DecidedIsOnce(db: D.Db, e: string)
    requires DP.KeptOwn(db, e) && DP.ViewOf(db, e).decisions != []
    ensures DP.OwnOnce(DP.ViewOf(db, e))
  {
    hide DP.ViewOf, DP.DecidedOnce;
  }

  /** A committed message is in the stream, and if it is about `e` then `e` is decided. */
  ghost predicate CommittedOk(w: World, e: string, id: nat) {
    exists j :: 0 <= j < |w.site.stream| && w.site.stream[j].seqId == id
      && (w.site.stream[j].data.extraction == e ==> DP.OwnOnce(DP.ViewOf(w.db, e)))
  }

  ghost predicate Effective(w: World, e: string) {
    && DP.KeptOwn(w.db, e)
    && forall i :: 0 <= i < |w.site.committed| ==> CommittedOk(w, e, w.site.committed[i])
  }

  /** What was committed stays so while the stream grows and decisions stand. */
  lemma CommittedStays(w: World, w': World, e: string, id: nat)
    requires CommittedOk(w, e, id)
    requires w.site.stream <= w'.site.stream
    requires DP.OwnOnce(DP.ViewOf(w.db, e)) ==> DP.OwnOnce(DP.ViewOf(w'.db, e))
    ensures CommittedOk(w', e, id)
  {
    hide DP.ViewOf, DP.OwnOnce;
    var j :| 0 <= j < |w.site.stream| && w.site.stream[j].seqId == id
      && (w.site.stream[j].data.extraction == e ==> DP.OwnOnce(DP.ViewOf(w.db, e)));
    assert w'.site.stream[j] == w.site.stream[j];
  }

  lemma EffectiveStays(w: World, w': World, e: string)
    requires Effective(w, e) && DP.KeptOwn(w'.db, e)
    requires w.site.stream <= w'.site.stream && w'.site.committed == w.site.committed
    requires DP.OwnOnce(DP.ViewOf(w.db, e)) ==> DP.OwnOnce(DP.ViewOf(w'.db, e))
    ensures Effective(w', e)
  {
    hide DP.ViewOf, DP.OwnOnce, DP.KeptOwn, CommittedOk;
    forall i | 0 <= i < |w'.site.committed| ensures CommittedOk(w', e, w'.site.committed[i]) {
      CommittedStays(w, w', e, w.site.committed[i]);
    }
  }

  lemma CommitsOne(s: W.Site<Envelope>, m: Message<Envelope>, fate: W.Fate, max: nat)
    ensures var s' := W.ProcessOne(s, m, fate, max).0;
            s'.committed == if m.deliveryCount <= max && fate.handler in {W.Returns, W.CrashesBeforeAck}
                            then s.committed + [m.seqId] else s.committed
  {
  }

  /** Whatever the mishap: what the tables keep, and that a commit of a message about `e` leaves `e` decided. */
  lemma DbAfterKeepsView(c: Crypto, w: World, m: Message<Envelope>, turn: Turn, max: nat, e: string)
    requires DP.KeptOwn(w.db, e)
    ensures var db', fate := DbAfter(c, w, m, turn, max), FateFor(c, w, m, turn, max);
            && DP.KeptOwn(db', e)
            && (DP.OwnOnce(DP.ViewOf(w.db, e)) ==> DP.OwnOnce(DP.ViewOf(db', e)))
            && (m.deliveryCount <= max && fate.handler in {W.Returns, W.CrashesBeforeAck} && m.data.extraction == e
                ==> DP.OwnOnce(DP.ViewOf(db', e)))
  {
    hide DP.KeptOwn, DP.ViewOf, DP.OwnOnce, Handle;
    HandleKeepsView(c, w.db, m.data, turn.confidenceDiffers, turn.now, e);
  }

  /** Handling the oldest message, with any mishap. */
  lemma DeliverOneIsEffective(c: Crypto, w: World, turn: Turn, max: nat, e: string)
    requires WP.Safe(w.site) && Effective(w, e) && w.site.group.pending != []
    ensures var (w', outcome) := DeliverOne(c, w, w.site.group.pending[0], turn, max);
            && WP.Safe(w'.site) && Effective(w', e) && w'.site.stream == w.site.stream
            && (outcome == W.Finished ==> w'.site.group.pending == w.site.group.pending[1..])
  {
    hide WP.Safe, DP.KeptOwn, DP.ViewOf, DP.OwnOnce, DbAfter, FateFor, W.ProcessOne, CommittedOk, Effective;
    var m, s := w.site.group.pending[0], w.site;
    var fate := FateFor(c, w, m, turn, max);
    OldestIsInStream(s);
    WP.ProcessOneIsSafe(s, fate, max);
    CommitsOne(s, m, fate, max);
    KeptOfEffective(w, e);
    DbAfterKeepsView(c, w, m, turn, max, e);
    var w' := DeliverOne(c, w, m, turn, max).0;
    var before := World(w'.db, w'.site.(committed := s.committed));
    EffectiveStays(w, before, e);
    if w'.site.committed != s.committed {
      CommittedNow(w', e, s.group.start + |s.group.acked|, m.data);
    }
    MoreCommitted(before, w', e, m.seqId);
  }

  lemma KeptOfEffective(w: World, e: string)
    requires Effective(w, e)
    ensures DP.KeptOwn(w.db, e)
  {
  }

  lemma CommittedNow(w: World, e: string, j: nat, data: Envelope)
    requires j < |w.site.stream| && w.site.stream[j].data == data
    requires data.extraction == e ==> DP.OwnOnce(DP.ViewOf(w.db, e))
    ensures CommittedOk(w, e, w.site.stream[j].seqId)
  {
    hide DP.ViewOf, DP.OwnOnce;
  }

  lemma MoreCommitted(w: World, w': World, e: string, id: nat)
    requires Effective(w, e) && w'.db == w.db && w'.site.stream == w.site.stream
    requires w'.site.committed == w.site.committed || (w'.site.committed == w.site.committed + [id] && CommittedOk(w', e, id))
    ensures Effective(w', e)
  {
    hide DP.ViewOf, DP.OwnOnce, DP.KeptOwn;
    forall i | 0 <= i < |w'.site.committed| ensures CommittedOk(w', e, w'.site.committed[i]) {
      if i < |w.site.committed| {
        assert CommittedOk(w, e, w.site.committed[i]);
      }
    }
  }

  lemma OldestIsInStream(s: W.Site<Envelope>)
    requires WP.Safe(s) && s.group.pending != []
    ensures var k := s.group.start + |s.group.acked|;
            k < |s.stream| && s.stream[k] == EntryOf(s.group.pending[0])
  {
    hide Conserved, CountsFall, CountsMatch, WP.AllAccounted;
    WP.AckHead(s.stream, s.group);
  }

  // ----- one call, every history -----

  lemma {:induction false} BatchIsEffective(c: Crypto, w: World, batch: seq<Message<Envelope>>, turns: seq<Turn>, max: nat, e: string)
    requires WP.Safe(w.site) && Effective(w, e) && batch <= w.site.group.pending
    ensures var w' := DeliverBatch(c, w, batch, turns, max).0; WP.Safe(w'.site) && Effective(w', e)
    decreases |batch|
  {
    hide WP.Safe, Effective, DeliverOne;
    if batch != [] && turns != [] {
      DeliverOneIsEffective(c, w, turns[0], max, e);
      var (w', outcome) := DeliverOne(c, w, batch[0], turns[0], max);
      if outcome == W.Finished {
        BatchIsEffective(c, w', batch[1..], turns[1..], max, e);
      }
    }
  }

  ghost predicate FreshAlong(c: Crypto, w: World, count: nat, max: nat, events: seq<Event>)
    decreases |events|
  {
    events != [] ==>
      && (events[0].Published? ==> WP.Fresh(w.site, events[0].seqId))
      && FreshAlong(c, After(c, w, count, max, events[0]), count, max, events[1..])
  }

  lemma EventIsEffective(c: Crypto, w: World, count: nat, max: nat, event: Event, e: string)
    requires WP.Safe(w.site) && Effective(w, e)
    requires event.Published? ==> WP.Fresh(w.site, event.seqId)
    ensures var w' := After(c, w, count, max, event); WP.Safe(w'.site) && Effective(w', e)
  {
    match event
    case Published(m, id) =>
      WP.FreshIsUnacked(w.site, id);
      WP.PublishIsSafe(w.site, m, id);
      hide WP.Safe, DP.KeptOwn, CommittedOk, DP.ViewOf;
      EffectiveStays(w, After(c, w, count, max, event), e);
    case Called(turns) =>
      hide WP.Safe, DP.KeptOwn, CommittedOk, DP.ViewOf, DeliverBatch;
      WP.ConsumeIsSafe(w.site, count);
      var w1 := w.(site := W.Delivering(w.site, count));
      EffectiveStays(w, w1, e);
      BatchIsEffective(c, w1, W.Batch(w.site, count), turns, max, e);
    case Elsewhere(step) =>
      hide WP.Safe, DP.KeptOwn, CommittedOk, DP.ViewOf, DP.Apply;
      OwnOnceStays(c, w.db, step, e);
      EffectiveStays(w, After(c, w, count, max, event), e);
  }

  lemma {:induction false} HistoriesAreEffective(c: Crypto, w: World, count: nat, max: nat, events: seq<Event>, e: string)
    requires WP.Safe(w.site) && Effective(w, e)
    requires FreshAlong(c, w, count, max, events)
    ensures var w' := History(c, w, count, max, events); WP.Safe(w'.site) && Effective(w', e)
    decreases |events|
  {
    hide WP.Safe, Effective, After, WP.Fresh;
    if events != [] {
      EventIsEffective(c, w, count, max, events[0], e);
      HistoriesAreEffective(c, After(c, w, count, max, events[0]), count, max, events[1..], e);
    }
  }

  /**
   After any history of publications, redeliveries, failures, crashes and other writers, a
   message that left the queue has its extraction decided exactly once, or it is on the
   dead-letter queue with an audit note.
   */
  lemma AckedIsDecidedOrDeadLettered(c: Crypto, w: World, count: nat, max: nat, events: seq<Event>, j: nat)
    requires var end := History(c, w, count, max, events).site;
             end.group.start <= j < end.group.start + |end.group.acked| && j < |end.stream|
    requires var e := History(c, w, count, max, events).site.stream[j].data.extraction;
             Effective(w, e)
    requires WP.Safe(w.site) && FreshAlong(c, w, count, max, events)
    ensures var end := History(c, w, count, max, events);
            var entry := end.site.stream[j];
            || DP.OwnOnce(DP.ViewOf(end.db, entry.data.extraction))
            || (entry.data in end.site.dlq && exists n :: n in end.site.notes && n.messageId == entry.seqId)
  {
    var end := History(c, w, count, max, events);
    HistoriesAreEffective(c, w, count, max, events, end.site.stream[j].data.extraction);
    AckedNow(end, j);
  }

  /** Where histories start: an empty queue, and tables that say nothing about the extraction yet. */
  lemma EmptyStart(db: D.Db, e: string)
    requires DP.ViewOf(db, e) == DP.UNDECIDED
    ensures var w := World(db, W.Site([], NewGroup(0), [], [], [], [])); WP.Safe(w.site) && Effective(w, e)
  {
  }

  lemma AckedNow(w: World, j: nat)
    requires w.site.group.start <= j < w.site.group.start + |w.site.group.acked| && j < |w.site.stream|
    requires WP.Safe(w.site) && Effective(w, w.site.stream[j].data.extraction)
    ensures var entry := w.site.stream[j];
            || DP.OwnOnce(DP.ViewOf(w.db, entry.data.extraction))
            || (entry.data in w.site.dlq && exists n :: n in w.site.notes && n.messageId == entry.seqId)
  {
    hide DP.OwnOnce, DP.ViewOf, CountsFall, CountsMatch, DP.KeptOwn;
    var entry := w.site.stream[j];
    assert WP.Accounted(w.site, entry);
    if entry.seqId in w.site.committed {
      var i :| 0 <= i < |w.site.committed| && w.site.committed[i] == entry.seqId;
      assert CommittedOk(w, entry.data.extraction, w.site.committed[i]);
      var k :| 0 <= k < |w.site.stream| && w.site.stream[k].seqId == entry.seqId
        && (w.site.stream[k].data.extraction == entry.data.extraction ==> DP.OwnOnce(DP.ViewOf(w.db, entry.data.extraction)));
      assert k == j;
    }
  }
}
