/**
 How often a message's work is committed. A commit and its ack are two effects, and a worker
 that dies between them leaves the message to be handled again.
 */
module CommitProofs {
  import opened MessageQueue
  import opened MessageQueueProofs
  import opened WorkerRunner
  import opened WorkerRunnerProofs
  import opened DrainProofs
  import opened DeadLetterProofs

  ghost predicate AtMostOnce(ids: seq<nat>) {
    forall id :: multiset(ids)[id] <= 1
  }

  /**
   Nothing is committed twice, nothing unread is committed, and a pending message that may
   still be handled is not: any, when no worker dies between commit and ack (`dies` is
   false); else, with one delivery each, those of the first `k` that were just delivered first.
   */
  ghost predicate Uncommitted<D>(s: Site<D>, k: nat, dies: bool) {
    && AtMostOnce(s.committed)
    && (forall j :: 0 <= s.group.cursor <= j < |s.stream| ==> s.stream[j].seqId !in s.committed)
    && (forall i :: 0 <= i < |s.group.pending| ==> s.group.pending[i].deliveryCount >= 1)
    && (forall i :: 0 <= i < |s.group.pending| && (!dies || (i < k && s.group.pending[i].deliveryCount <= 1)) ==>
          s.group.pending[i].seqId !in s.committed)
  }

  predicate Surviving(fates: seq<Fate>) {
    forall i :: 0 <= i < |fates| ==> fates[i].handler != CrashesBeforeAck
  }

  // ----- one message -----

  /** Settling the oldest message moves the others up. */
  lemma SettleKeepsUncommitted<D>(s: Site<D>, k: nat, dies: bool)
    requires Safe(s) && s.group.pending != [] && Uncommitted(s, k, dies)
    ensures Uncommitted(Settle(s, s.group.pending[0].seqId), if k == 0 then 0 else k - 1, dies)
  {
    hide InOrder, GroupOk, AllAccounted, AtMostOnce;
    AckHead(s.stream, s.group);
    hide Acknowledged;
  }

  lemma CommittedOnceMore(ids: seq<nat>, id: nat)
    requires AtMostOnce(ids) && id !in ids
    ensures AtMostOnce(ids + [id])
  {
    assert multiset(ids + [id]) == multiset(ids) + multiset{id};
    assert id !in multiset(ids);
  }

  /** Committing the oldest message, which is then settled or left to a worker that died. */
  lemma CommitKeepsUncommitted<D>(s: Site<D>, k: nat, dies: bool)
    requires Safe(s) && s.group.pending != [] && Uncommitted(s, k, dies)
    requires s.group.pending[0].seqId !in s.committed
    ensures var s' := s.(committed := s.committed + [s.group.pending[0].seqId]);
            && Uncommitted(Settle(s', s.group.pending[0].seqId), if k == 0 then 0 else k - 1, dies)
            && (dies ==> Uncommitted(s', 0, dies))
  {
    HeadIdIsItsOwn(s);
    CommittedOnceMore(s.committed, s.group.pending[0].seqId);
    AckHead(s.stream, s.group);
    hide Safe, AtMostOnce, Acknowledged;
  }

  lemma FewerMayBeHandled<D>(s: Site<D>, k: nat, dies: bool)
    requires Uncommitted(s, k, dies)
    ensures Uncommitted(s, 0, dies)
  {
  }

  lemma RecordsKeepUncommitted<D>(s: Site<D>, s': Site<D>, k: nat, dies: bool)
    requires Uncommitted(s, k, dies)
    requires s'.stream == s.stream && s'.group == s.group && s'.committed == s.committed
    ensures Uncommitted(s', k, dies)
  {
  }

  lemma DeadLetterKeepsUncommitted<D>(s: Site<D>, why: ErrorClass, fate: DeadLetterFate, k: nat, dies: bool)
    requires Safe(s) && s.group.pending != [] && Uncommitted(s, k, dies)
    ensures var (s', outcome) := DeadLetter(s, s.group.pending[0], why, fate);
            Uncommitted(s', if outcome == Finished && k > 0 then k - 1 else 0, dies)
  {
    hide Safe, Uncommitted;
    var m := s.group.pending[0];
    var s1 := s.(dlq := s.dlq + [m.data]);
    var s2 := s1.(notes := s.notes + [Note(m.seqId, m.deliveryCount, why)]);
    RecordsKeepUncommitted(s, s1, k, dies);
    RecordsKeepUncommitted(s, s2, k, dies);
    FewerMayBeHandled(s1, k, dies);
    FewerMayBeHandled(s2, k, dies);
    RecordsOnly(s, s2);
    SettleKeepsUncommitted(s2, k, dies);
    hide Settle;
  }

  lemma HandleKeepsUncommitted<D>(s: Site<D>, fate: Fate, k: nat, max: nat, dies: bool)
    requires Safe(s) && s.group.pending != [] && k >= 1 && Uncommitted(s, k, dies)
    requires dies ==> max <= 1
    requires fate.handler == CrashesBeforeAck ==> dies
    ensures var (s', outcome) := ProcessOne(s, s.group.pending[0], fate, max);
            Uncommitted(s', if outcome == Finished then k - 1 else 0, dies)
  {
    var m := s.group.pending[0];
    assert m.deliveryCount <= max ==> m.seqId !in s.committed;
    hide Safe, Uncommitted, DeadLetter, Settle;
    var logged := s.(failed := s.failed + [m.seqId]);
    RecordsKeepUncommitted(s, logged, k, dies);
    RecordsOnly(s, logged);
    FewerMayBeHandled(s, k, dies);
    FewerMayBeHandled(logged, k, dies);
    if m.deliveryCount > max {
      DeadLetterKeepsUncommitted(s, MaxDeliveriesExceeded, fate.deadLetter, k, dies);
    } else if fate.handler == Raises {
      DeadLetterKeepsUncommitted(logged, HandlerError, fate.deadLetter, k, dies);
    } else {
      CommitKeepsUncommitted(s, k, dies);
    }
  }

  // ----- one call -----

  lemma {:induction false} BatchKeepsUncommitted<D>(s: Site<D>, batch: seq<Message<D>>, fates: seq<Fate>, max: nat, dies: bool)
    requires Safe(s) && batch <= s.group.pending && Uncommitted(s, |batch|, dies)
    requires (dies ==> max <= 1) && (dies || Surviving(fates))
    ensures Uncommitted(ProcessBatch(s, batch, fates, max).0, 0, dies)
    decreases |batch|
  {
    hide Safe, Uncommitted;
    FewerMayBeHandled(s, |batch|, dies);
    if batch != [] && fates != [] {
      HandleKeepsUncommitted(s, fates[0], |batch|, max, dies);
      ProcessOneIsSafe(s, fates[0], max);
      var (s', outcome) := ProcessOne(s, batch[0], fates[0], max);
      hide ProcessOne;
      if outcome == Finished {
        BatchKeepsUncommitted(s', batch[1..], fates[1..], max, dies);
      }
    }
  }

  /** A delivery hands out each unread message for the first time, and no other with a count of one. */
  lemma DeliveryKeepsUncommitted<D>(s: Site<D>, count: nat, dies: bool)
    requires Safe(s) && Uncommitted(s, 0, dies)
    ensures Uncommitted(Delivering(s, count), |Batch(s, count)|, dies)
  {
    hide InOrder, GroupOk, AllAccounted, AtMostOnce, Batch;
    if s.group.pending != [] {
      RedeliveredIds(s, count);
    } else {
      FirstIds(s, count);
    }
    hide Consumed;
  }

  lemma CallKeepsUncommitted<D>(s: Site<D>, count: nat, max: nat, fates: seq<Fate>, dies: bool)
    requires Safe(s) && Uncommitted(s, 0, dies) && (dies ==> max <= 1) && (dies || Surviving(fates))
    ensures Uncommitted(AfterCall(s, count, max, fates).0, 0, dies)
  {
    hide Safe, Uncommitted;
    DeliveryKeepsUncommitted(s, count, dies);
    ConsumeIsSafe(s, count);
    BatchKeepsUncommitted(Delivering(s, count), Batch(s, count), fates, max, dies);
  }

  // ----- every history -----

  lemma PublishKeepsUncommitted<D>(s: Site<D>, data: D, id: nat, dies: bool)
    requires Uncommitted(s, 0, dies) && LogsIssued(s) && Fresh(s, id)
    ensures Uncommitted(s.(stream := s.stream + [Entry(id, data)]), 0, dies)
  {
    hide AtMostOnce;
  }

  /** No worker dies between commit and ack. */
  predicate AllSurviving<D>(events: seq<Event<D>>) {
    forall i :: 0 <= i < |events| && events[i].Called? ==> Surviving(events[i].fates)
  }

  lemma {:induction false} HistoriesKeepUncommitted<D>(s: Site<D>, count: nat, max: nat, events: seq<Event<D>>, dies: bool)
    requires Safe(s) && LogsIssued(s) && Uncommitted(s, 0, dies) && FreshAlong(s, count, max, events)
    requires (dies ==> max <= 1) && (dies || AllSurviving(events))
    ensures Uncommitted(History(s, count, max, events), 0, dies)
    decreases |events|
  {
    hide Safe, Uncommitted, LogsIssued, AfterCall, Fresh;
    if events != [] {
      EventKeepsLogs(s, count, max, events[0]);
      match events[0] {
        case Published(data, id) => PublishKeepsUncommitted(s, data, id, dies);
        case Called(fates) => CallKeepsUncommitted(s, count, max, fates, dies);
      }
      HistoriesKeepUncommitted(After(s, count, max, events[0]), count, max, events[1..], dies);
    }
  }

  /** Whatever else crashes, stops or fails: without such a death, or with one delivery each, no message is committed twice. */
  lemma CommittedAtMostOnce<D>(s: Site<D>, count: nat, max: nat, events: seq<Event<D>>)
    requires Untouched(s) && FreshAlong(s, count, max, events)
    requires AllSurviving(events) || max <= 1
    ensures AtMostOnce(History(s, count, max, events).committed)
  {
    hide Safe, History, FreshAlong;
    assert LogsIssued(s) && Uncommitted(s, 0, true) && Uncommitted(s, 0, false);
    HistoriesKeepUncommitted(s, count, max, events, !AllSurviving(events));
  }

  // ----- and otherwise it is not so -----

  const DIES := Fate(CrashesBeforeAck, Completes)

  /** A death between commit and ack commits the handler's work again, wherever a message has a second delivery. */
  lemma CrashRepeatsCommit(count: nat, max: nat)
    requires count >= 1 && max >= 2
    ensures AfterCalls(One(0), count, max, [Repeat(DIES, count)] + [Repeat(WORKS, count)]).committed == [1, 1]
  {
    var dies, works := Repeat(DIES, count), Repeat(WORKS, count);
    AfterCallsSnoc(One(0), count, max, [dies], works);
    AfterCallsSnoc(One(0), count, max, [], dies);
    assert [] + [dies] == [dies];
    DiesAfterCommit(count, max);
    WorksAgain(count, max);
    NoCalls(One(0), count, max);
    hide AfterCall, AfterCalls, One;
  }

  /** One message, delivered k times and committed once. */
  function OneCommitted(k: nat): Site<string> {
    One(k).(committed := [1])
  }

  lemma DyingCommits(max: nat)
    requires max >= 1
    ensures ProcessOne(One(1), Message(1, "m", 1), DIES, max) == (OneCommitted(1), Crashed)
  {
    assert One(1).committed + [1] == [1];
    hide One;
  }

  lemma DiesAfterCommit(count: nat, max: nat)
    requires count >= 1 && max >= 1
    ensures AfterCall(One(0), count, max, Repeat(DIES, count)).0 == OneCommitted(1)
  {
    OneDelivered(0, count);
    DyingCommits(max);
    hide One, OneCommitted, Delivering, Batch, ProcessOne;
  }

  lemma WorksAgain(count: nat, max: nat)
    requires count >= 1 && max >= 2
    ensures AfterCall(OneCommitted(1), count, max, Repeat(WORKS, count)).0.committed == [1, 1]
  {
    OneDelivered(1, count);
    var s, m := OneCommitted(2), Message(1, "m", 2);
    assert Delivering(OneCommitted(1), count) == s && Batch(OneCommitted(1), count) == [m];
    var (s', outcome) := ProcessOne(s, m, WORKS, max);
    assert s'.committed == [1, 1] && outcome == Finished;
    hide One, Delivering, Batch, ProcessOne;
    var fates := Repeat(WORKS, count);
    assert [m][1..] == [];
    assert ProcessBatch(s, [m], fates, max) == ProcessBatch(s', [], fates[1..], max);
  }

  /** In every run each message is committed at most once. */
  ghost predicate CommitsOnce(count: nat, max: nat, dies: bool) {
    forall s: Site<string>, events: seq<Event<string>> ::
      Untouched(s) && FreshAlong(s, count, max, events) && (dies || AllSurviving(events)) ==>
        AtMostOnce(History(s, count, max, events).committed)
  }

  /**
   Exactly when each message is committed at most once, over every history of publications,
   calls, failures, stops and crashes: no worker dies between commit and ack, or a message has
   no second delivery.
   */
  lemma CommitsOnceIff(count: nat, max: nat, dies: bool)
    requires count >= 1
    ensures CommitsOnce(count, max, dies) <==> !dies || max <= 1
  {
    hide Untouched, AtMostOnce, AfterCalls, History, FreshAlong, AllSurviving;
    if !dies || max <= 1 {
      forall s: Site<string>, events: seq<Event<string>>
        | Untouched(s) && FreshAlong(s, count, max, events) && (dies || AllSurviving(events))
        ensures AtMostOnce(History(s, count, max, events).committed)
      {
        CommittedAtMostOnce(s, count, max, events);
      }
    } else {
      var calls := [Repeat(DIES, count)] + [Repeat(WORKS, count)];
      CrashRepeatsCommit(count, max);
      CallsAreAHistory(One(0), count, max, calls);
      OneIsUntouched();
      TwiceIsNotOnce();
    }
  }

  lemma TwiceIsNotOnce()
    ensures !AtMostOnce([1, 1])
  {
    assert multiset([1, 1])[1] == 2;
  }
}
