/**
 How often a handler failed before its message was dead-lettered. A delivery count also rises
 when the handler never ran; this says exactly when it does not.
 */
module DeadLetterProofs {
  import opened Wrappers
  import opened MessageQueue
  import opened MessageQueueProofs
  import opened WorkerRunner
  import opened WorkerRunnerProofs
  import opened DrainProofs

  /** How often the handler of a message raised. */
  function Fails(failed: seq<nat>, id: nat): nat {
    if failed == [] then 0
    else Fails(failed[..|failed| - 1], id) + if failed[|failed| - 1] == id then 1 else 0
  }

  lemma FailsSnoc(failed: seq<nat>, x: nat, id: nat)
    ensures Fails(failed + [x], id) == Fails(failed, id) + if x == id then 1 else 0
  {
    assert (failed + [x])[..|failed|] == failed;
  }

  lemma {:induction false} NoFailsOf(failed: seq<nat>, id: nat)
    requires id !in failed
    ensures Fails(failed, id) == 0
  {
    if failed != [] {
      NoFailsOf(failed[..|failed| - 1], id);
    }
  }

  /** Every dead-lettered message had its handler fail `max` times. */
  ghost predicate NotesFailed<D>(s: Site<D>, max: nat) {
    forall i :: 0 <= i < |s.notes| ==> Fails(s.failed, s.notes[i].messageId) == max
  }

  // ----- what the logs may hold -----

  ghost predicate Issued<D>(stream: seq<Entry<D>>, id: nat) {
    exists j :: 0 <= j < |stream| && stream[j].seqId == id
  }

  /** Only published messages are committed or fail. */
  ghost predicate LogsIssued<D>(s: Site<D>) {
    && (forall id :: id in s.failed ==> Issued(s.stream, id))
    && (forall id :: id in s.committed ==> Issued(s.stream, id))
  }

  lemma HeadIsIssued<D>(s: Site<D>)
    requires Safe(s) && s.group.pending != []
    ensures Issued(s.stream, s.group.pending[0].seqId)
  {
    hide InOrder, CountsFall, CountsMatch, AllAccounted;
    PendingWasRead(s.stream, s.group, 0);
    var k :| 0 <= k < |s.stream[s.group.start..s.group.cursor]|
             && s.stream[s.group.start..s.group.cursor][k] == EntryOf(s.group.pending[0]);
    assert s.stream[s.group.start + k].seqId == s.group.pending[0].seqId;
  }

  lemma {:induction false} BatchKeepsLogs<D>(s: Site<D>, batch: seq<Message<D>>, fates: seq<Fate>, max: nat)
    requires Safe(s) && batch <= s.group.pending && LogsIssued(s)
    ensures LogsIssued(ProcessBatch(s, batch, fates, max).0)
    decreases |batch|
  {
    hide Safe, Issued;
    if batch != [] && fates != [] {
      HeadIsIssued(s);
      ProcessOneIsSafe(s, fates[0], max);
      var (s', outcome) := ProcessOne(s, batch[0], fates[0], max);
      assert LogsIssued(s');
      hide ProcessOne, LogsIssued;
      if outcome == Finished {
        BatchKeepsLogs(s', batch[1..], fates[1..], max);
      }
    }
  }

  lemma EventKeepsLogs<D>(s: Site<D>, count: nat, max: nat, e: Event<D>)
    requires Safe(s) && LogsIssued(s) && (e.Published? ==> Fresh(s, e.seqId))
    ensures Safe(After(s, count, max, e)) && LogsIssued(After(s, count, max, e))
  {
    match e
    case Published(data, id) =>
      FreshIsUnacked(s, id);
      PublishIsSafe(s, data, id);
      hide Safe;
      forall x | Issued(s.stream, x) ensures Issued(s.stream + [Entry(id, data)], x) {
        var j :| 0 <= j < |s.stream| && s.stream[j].seqId == x;
        assert (s.stream + [Entry(id, data)])[j].seqId == x;
      }
    case Called(fates) =>
      hide Safe;
      ConsumeIsSafe(s, count);
      BatchKeepsLogs(Delivering(s, count), Batch(s, count), fates, max);
      CallIsSafe(s, count, max, fates);
  }

  // ----- deliveries that are failures -----

  /**
   Every delivery was a failure, up to the last one that runs the handler; except that the
   pending messages lo..hi have one delivery that was not handled yet.
   */
  ghost predicate Tallied<D>(s: Site<D>, lo: nat, hi: nat, max: nat) {
    && (forall i :: 0 <= i < |s.group.pending| ==>
          var m := s.group.pending[i];
          m.deliveryCount >= 1
          && Fails(s.failed, m.seqId) == Least(max, m.deliveryCount - if lo <= i < hi then 1 else 0))
    && NotesFailed(s, max)
    && (forall j :: 0 <= s.group.cursor <= j < |s.stream| ==> Fails(s.failed, s.stream[j].seqId) == 0)
  }

  /** Pending and unread messages have ids of their own. */
  lemma HeadIdIsItsOwn<D>(s: Site<D>)
    requires Safe(s) && s.group.pending != []
    ensures forall i :: 0 < i < |s.group.pending| ==> s.group.pending[i].seqId != s.group.pending[0].seqId
    ensures forall j :: s.group.cursor <= j < |s.stream| ==> s.stream[j].seqId != s.group.pending[0].seqId
  {
    hide InOrder, CountsFall, CountsMatch, AllAccounted;
    PendingIdsIncrease(s.stream, s.group);
    PendingWasRead(s.stream, s.group, 0);
  }

  lemma LogKeepsTally<D>(s: Site<D>, k: nat, max: nat)
    requires Safe(s) && Tallied(s, 0, k, max) && 1 <= k <= |s.group.pending| && s.group.pending[0].deliveryCount <= max
    ensures Tallied(s.(failed := s.failed + [s.group.pending[0].seqId]), 1, k, max)
  {
    HeadIdIsItsOwn(s);
    hide Safe, Fails;
    var id := s.group.pending[0].seqId;
    forall x: nat ensures Fails(s.failed + [id], x) == Fails(s.failed, x) + if id == x then 1 else 0 {
      FailsSnoc(s.failed, id, x);
    }
  }

  /** Once the oldest message may go, settling it moves the others up. */
  lemma SettleKeepsTally<D>(s: Site<D>, lo: nat, k: nat, max: nat)
    requires Safe(s) && Tallied(s, lo, k, max) && lo <= 1 <= k <= |s.group.pending|
    ensures Tallied(Settle(s, s.group.pending[0].seqId), 0, k - 1, max)
  {
    hide InOrder, GroupOk, AllAccounted, Fails;
    AckHead(s.stream, s.group);
    hide Acknowledged;
  }

  /** Dead-lettering the oldest message once its handler has failed `max` times. */
  lemma DeadLetterKeepsTally<D>(s: Site<D>, why: ErrorClass, fate: DeadLetterFate, k: nat, max: nat)
    requires Safe(s) && Tallied(s, 1, k, max) && 1 <= k <= |s.group.pending| && s.group.pending[0].deliveryCount >= max
    ensures var (s', outcome) := DeadLetter(s, s.group.pending[0], why, fate);
            if outcome == Finished then Tallied(s', 0, k - 1, max) else Tallied(s', 1, k, max)
    ensures DeadLetter(s, s.group.pending[0], why, fate).1 != Finished ==> fate != Completes
  {
    hide Safe, Fails;
    var m := s.group.pending[0];
    var s1 := s.(dlq := s.dlq + [m.data]);
    var s2 := s1.(notes := s.notes + [Note(m.seqId, m.deliveryCount, why)]);
    assert NotesFailed(s2, max);
    assert Tallied(s1, 1, k, max) && Tallied(s2, 1, k, max);
    RecordsOnly(s, s2);
    SettleKeepsTally(s2, 1, k, max);
    hide Settle;
  }

  /** The oldest message, when its handler runs and returns or raises. */
  lemma HandleKeepsTally<D>(s: Site<D>, fate: Fate, k: nat, max: nat)
    requires Safe(s) && Tallied(s, 0, k, max) && 1 <= k <= |s.group.pending| && fate.handler in {Returns, Raises}
    ensures var (s', outcome) := ProcessOne(s, s.group.pending[0], fate, max);
            if outcome == Finished then Tallied(s', 0, k - 1, max) else Tallied(s', 1, k, max)
    ensures ProcessOne(s, s.group.pending[0], fate, max).1 != Finished ==>
              fate.deadLetter != Completes || s.group.pending[0].deliveryCount < max
  {
    hide Safe, Fails, DeadLetter;
    var m := s.group.pending[0];
    var logged := s.(failed := s.failed + [m.seqId]);
    if m.deliveryCount > max {
      assert Tallied(s, 1, k, max);
      DeadLetterKeepsTally(s, MaxDeliveriesExceeded, fate.deadLetter, k, max);
    } else if fate.handler == Raises {
      LogKeepsTally(s, k, max);
      RecordsOnly(s, logged);
      if m.deliveryCount == max {
        DeadLetterKeepsTally(logged, HandlerError, fate.deadLetter, k, max);
      }
    } else {
      var s1 := s.(committed := s.committed + [m.seqId]);
      RecordsOnly(s, s1);
      assert Tallied(s1, 0, k, max);
      SettleKeepsTally(s1, 0, k, max);
      hide Settle;
    }
  }

  /** No message is delivered without being handled: the batch has one, or nothing ends it early. */
  predicate AllHandled(n: nat, fates: seq<Fate>, max: nat) {
    && |fates| >= n
    && (forall i :: 0 <= i < |fates| ==> fates[i].handler in {Returns, Raises})
    && (n <= 1 || (max == 1 && forall i :: 0 <= i < |fates| ==> fates[i].deadLetter == Completes))
  }

  lemma {:induction false} BatchKeepsTally<D>(s: Site<D>, batch: seq<Message<D>>, fates: seq<Fate>, max: nat)
    requires Safe(s) && batch <= s.group.pending && Tallied(s, 0, |batch|, max) && AllHandled(|batch|, fates, max)
    ensures Tallied(ProcessBatch(s, batch, fates, max).0, 0, 0, max)
    decreases |batch|
  {
    hide Safe, Fails;
    if batch != [] {
      HandleKeepsTally(s, fates[0], |batch|, max);
      ProcessOneIsSafe(s, fates[0], max);
      var (s', outcome) := ProcessOne(s, batch[0], fates[0], max);
      hide ProcessOne;
      if outcome == Finished {
        BatchKeepsTally(s', batch[1..], fates[1..], max);
      } else {
        assert |batch| == 1;
        NoneAwaiting(s', 1, max);
      }
    }
  }

  lemma NoneAwaiting<D>(s: Site<D>, lo: nat, max: nat)
    ensures Tallied(s, lo, lo, max) == Tallied(s, 0, 0, max)
  {
  }

  /** A delivery adds one unhandled delivery to each message it hands out. */
  lemma DeliveryKeepsTally<D>(s: Site<D>, count: nat, max: nat)
    requires Safe(s) && Tallied(s, 0, 0, max)
    ensures Tallied(Delivering(s, count), 0, |Batch(s, count)|, max)
  {
    hide InOrder, GroupOk, AllAccounted, Fails, Batch;
    if s.group.pending != [] {
      RedeliveredIds(s, count);
    } else {
      FirstIds(s, count);
    }
    hide Consumed;
  }

  // ----- what may happen to a run -----

  /** What else than a handler's error may end a call: a dying worker, a stop request, dying while dead-lettering. */
  datatype Mishaps = Mishaps(crashes: bool, stops: bool, deadLetterCrashes: bool)

  predicate Allowed(fates: seq<Fate>, count: nat, may: Mishaps) {
    && (may.stops || |fates| >= count)
    && forall i :: 0 <= i < |fates| ==>
         (may.crashes || fates[i].handler in {Returns, Raises}) && (may.deadLetterCrashes || fates[i].deadLetter == Completes)
  }

  predicate AllAllowed<D>(events: seq<Event<D>>, count: nat, may: Mishaps) {
    forall i :: 0 <= i < |events| && events[i].Called? ==> Allowed(events[i].fates, count, may)
  }

  /** When every delivery of a message is handled. */
  predicate EveryDeliveryHandled(count: nat, max: nat, may: Mishaps) {
    !may.crashes && !may.stops && (count == 1 || (max == 1 && !may.deadLetterCrashes))
  }

  lemma CallKeepsTally<D>(s: Site<D>, count: nat, max: nat, may: Mishaps, fates: seq<Fate>)
    requires Safe(s) && Tallied(s, 0, 0, max) && EveryDeliveryHandled(count, max, may) && Allowed(fates, count, may)
    ensures Tallied(AfterCall(s, count, max, fates).0, 0, 0, max)
  {
    hide Safe, Tallied;
    DeliveryKeepsTally(s, count, max);
    ConsumeIsSafe(s, count);
    BatchIsShort(s, count);
    BatchKeepsTally(Delivering(s, count), Batch(s, count), fates, max);
  }

  lemma PublishKeepsTally<D>(s: Site<D>, data: D, id: nat, max: nat)
    requires Tallied(s, 0, 0, max) && LogsIssued(s) && Fresh(s, id)
    ensures Tallied(s.(stream := s.stream + [Entry(id, data)]), 0, 0, max)
  {
    NoFailsOf(s.failed, id);
    hide Fails;
  }

  lemma {:induction false} HistoriesKeepTally<D>(s: Site<D>, count: nat, max: nat, may: Mishaps, events: seq<Event<D>>)
    requires Safe(s) && LogsIssued(s) && Tallied(s, 0, 0, max) && FreshAlong(s, count, max, events)
    requires EveryDeliveryHandled(count, max, may) && AllAllowed(events, count, may)
    ensures Tallied(History(s, count, max, events), 0, 0, max)
    decreases |events|
  {
    hide Safe, Tallied, LogsIssued, AfterCall, Fresh;
    if events != [] {
      EventKeepsLogs(s, count, max, events[0]);
      match events[0] {
        case Published(data, id) => PublishKeepsTally(s, data, id, max);
        case Called(fates) => CallKeepsTally(s, count, max, may, fates);
      }
      HistoriesKeepTally(After(s, count, max, events[0]), count, max, may, events[1..]);
    }
  }

  /**
   Then, over every history of publications and calls, a message is dead-lettered only after
   its handler has failed `max` times.
   */
  lemma DeadLettersFailed<D>(s: Site<D>, count: nat, max: nat, may: Mishaps, events: seq<Event<D>>)
    requires Untouched(s) && FreshAlong(s, count, max, events)
    requires EveryDeliveryHandled(count, max, may) && AllAllowed(events, count, may)
    ensures NotesFailed(History(s, count, max, events), max)
  {
    hide Safe;
    assert Tallied(s, 0, 0, max) && LogsIssued(s);
    HistoriesKeepTally(s, count, max, may, events);
  }

  // ----- and otherwise it is not so -----

  function Repeat<T>(x: T, n: nat): (r: seq<T>)
    ensures |r| == n
  {
    seq(n, _ => x)
  }

  lemma {:induction false} AfterCallsSnoc<D>(s: Site<D>, count: nat, max: nat, calls: seq<seq<Fate>>, last: seq<Fate>)
    ensures AfterCalls(s, count, max, calls + [last]) == AfterCall(AfterCalls(s, count, max, calls), count, max, last).0
    decreases |calls|
  {
    hide AfterCall;
    if calls == [] {
      assert [last][1..] == [] && [] + [last] == [last];
      assert AfterCalls(AfterCall(s, count, max, last).0, count, max, []) == AfterCall(s, count, max, last).0;
    } else {
      assert (calls + [last])[1..] == calls[1..] + [last];
      AfterCallsSnoc(AfterCall(s, count, max, calls[0]).0, count, max, calls[1..], last);
    }
  }

  /** One message, delivered k times. */
  function One(k: nat): Site<string> {
    Site([Entry(1, "m")], if k == 0 then NewGroup(0) else Group(0, 1, [Message(1, "m", k)], map[1 := k], []), [], [], [], [])
  }

  lemma OneDelivered(k: nat, count: nat)
    requires count >= 1
    ensures Delivering(One(k), count) == One(k + 1) && Batch(One(k), count) == [Message(1, "m", k + 1)]
  {
    var s := One(k);
    var es := NextEntries(s.stream, s.group, count);
    assert es == [Entry(1, "m")] && es[..0] == [];
    assert Delivered(s.group.counts, es) == [Message(1, "m", k + 1)];
    assert Tally(s.group.counts, es) == map[1 := k + 1];
  }

  lemma OneWasted(k: nat, count: nat, max: nat, fates: seq<Fate>)
    requires count >= 1 && k < max && (fates == [] || fates[0].handler == CrashesBeforeCommit)
    ensures AfterCall(One(k), count, max, fates).0 == One(k + 1)
  {
    OneDelivered(k, count);
    hide One, Delivering, Batch, DeadLetter;
  }

  /** Deliveries that crashes and stops use up. */
  lemma {:induction false} Wasted(count: nat, max: nat, fates: seq<Fate>, k: nat)
    requires count >= 1 && k <= max && (fates == [] || fates[0].handler == CrashesBeforeCommit)
    ensures AfterCalls(One(0), count, max, Repeat(fates, k)) == One(k)
  {
    if k > 0 {
      hide One, AfterCall, AfterCalls;
      Wasted(count, max, fates, k - 1);
      assert Repeat(fates, k) == Repeat(fates, k - 1) + [fates];
      AfterCallsSnoc(One(0), count, max, Repeat(fates, k - 1), fates);
      OneWasted(k - 1, count, max, fates);
    }
  }

  const WORKS := Fate(Returns, Completes)

  lemma WastedIsDeadLettered(count: nat, max: nat, fates: seq<Fate>)
    requires count >= 1 && (fates == [] || fates[0].handler == CrashesBeforeCommit)
    ensures var s := AfterCalls(One(0), count, max, Repeat(fates, max) + [Repeat(WORKS, count)]);
            s.notes == [Note(1, max + 1, MaxDeliveriesExceeded)] && s.failed == []
  {
    hide ProcessBatch, AfterCalls, Delivering, Batch;
    Wasted(count, max, fates, max);
    AfterCallsSnoc(One(0), count, max, Repeat(fates, max), Repeat(WORKS, count));
    OneDelivered(max, count);
    PastTheLast(max, Repeat(WORKS, count));
  }

  /** Past its last delivery a message is dead-lettered unseen. */
  lemma PastTheLast(max: nat, fates: seq<Fate>)
    requires |fates| >= 1 && fates[0].deadLetter == Completes
    ensures var s := ProcessBatch(One(max + 1), [Message(1, "m", max + 1)], fates, max).0;
            s.notes == [Note(1, max + 1, MaxDeliveriesExceeded)] && s.failed == []
  {
    var s, m := One(max + 1), Message(1, "m", max + 1);
    var (s', outcome) := ProcessOne(s, m, fates[0], max);
    assert outcome == Finished && s'.notes == [Note(1, max + 1, MaxDeliveriesExceeded)] && s'.failed == [];
    assert [m][1..] == [];
    assert ProcessBatch(s, [m], fates, max) == ProcessBatch(s', [], fates[1..], max);
  }

  /** Two messages, each delivered k times, with a list of failures and of letters. */
  function Two(k: nat, failed: seq<nat>, dlq: seq<string>): Site<string> {
    Site([Entry(1, "a"), Entry(2, "b")],
         if k == 0 then NewGroup(0) else Group(0, 2, [Message(1, "a", k), Message(2, "b", k)], map[1 := k, 2 := k], []),
         [], dlq, [], failed)
  }

  lemma TwoDelivered(k: nat, failed: seq<nat>, dlq: seq<string>, count: nat)
    requires count >= 2
    ensures Delivering(Two(k, failed, dlq), count) == Two(k + 1, failed, dlq)
    ensures Batch(Two(k, failed, dlq), count) == [Message(1, "a", k + 1), Message(2, "b", k + 1)]
  {
    var s := Two(k, failed, dlq);
    var es := NextEntries(s.stream, s.group, count);
    assert es == [Entry(1, "a"), Entry(2, "b")];
    assert es[..1] == [Entry(1, "a")] && [Entry(1, "a")][..0] == [];
    var one := [Entry(1, "a")];
    assert Tally(s.group.counts, one)[1] == k + 1 && Delivered(s.group.counts, one) == [Message(1, "a", k + 1)];
    assert Delivered(s.group.counts, es) == [Message(1, "a", k + 1), Message(2, "b", k + 1)];
    assert Tally(s.group.counts, es) == map[1 := k + 1, 2 := k + 1];
  }

  const FAILS := Fate(Raises, Completes)

  /** The same once the first message is dead-lettered. */
  function SecondLeft(k: nat, failed: seq<nat>, dlq: seq<string>, note: Note): Site<string>
    requires k >= 1
  {
    Two(k, failed, dlq).(group := Group(0, 2, [Message(2, "b", k)], map[1 := k, 2 := k], [1]), notes := [note])
  }

  lemma FirstDeadLettered(k: nat, failed: seq<nat>, dlq: seq<string>, max: nat)
    requires k >= 1 && k >= max
    ensures var why := if k > max then MaxDeliveriesExceeded else HandlerError;
            ProcessOne(Two(k, failed, dlq), Message(1, "a", k), FAILS, max)
              == (SecondLeft(k, if k > max then failed else failed + [1], dlq + ["a"], Note(1, k, why)), Finished)
  {
    var m1, m2 := Message(1, "a", k), Message(2, "b", k);
    WithoutHead([m1, m2]);
    assert [m1, m2][1..] == [m2];
    assert IsPending([m1, m2], 1) by {
      assert [m1, m2][0].seqId == 1;
    }
    var note := Note(1, k, if k > max then MaxDeliveriesExceeded else HandlerError);
    assert [] + [note] == [note] && [] + [1] == [1];
    var s := Two(k, failed, dlq);
    assert Acknowledged(s.group, 1) == Group(0, 2, [m2], map[1 := k, 2 := k], [1]);
    hide Acknowledged, Without;
  }

  lemma SecondDeadLettered(k: nat, failed: seq<nat>, dlq: seq<string>, note: Note, max: nat)
    requires k >= 1 && k >= max
    ensures var (end, outcome) := ProcessOne(SecondLeft(k, failed, dlq, note), Message(2, "b", k), FAILS, max);
            && outcome == Finished && |end.notes| == 2 && end.notes[1].messageId == 2
            && end.failed == if k > max then failed else failed + [2]
  {
  }

  /** With the first message dead-lettered, the second one follows in the same call. */
  lemma SecondFollows(k: nat, failed: seq<nat>, dlq: seq<string>, fates: seq<Fate>, max: nat)
    requires k >= 1 && k >= max && |fates| >= 2 && fates[0] == fates[1] == FAILS
    ensures var end := ProcessBatch(Two(k, failed, dlq), [Message(1, "a", k), Message(2, "b", k)], fates, max).0;
            && |end.notes| == 2 && end.notes[1].messageId == 2
            && end.failed == if k > max then failed else failed + [1] + [2]
  {
    hide ProcessOne, Two, SecondLeft;
    var s, m1, m2 := Two(k, failed, dlq), Message(1, "a", k), Message(2, "b", k);
    FirstDeadLettered(k, failed, dlq, max);
    var note := Note(1, k, if k > max then MaxDeliveriesExceeded else HandlerError);
    var logged := if k > max then failed else failed + [1];
    SecondDeadLettered(k, logged, dlq + ["a"], note, max);
    var s1 := SecondLeft(k, logged, dlq + ["a"], note);
    var s2 := ProcessOne(s1, m2, FAILS, max).0;
    assert [m1, m2][1..] == [m2] && [m2][1..] == [];
    assert ProcessBatch(s, [m1, m2], fates, max) == ProcessBatch(s1, [m2], fates[1..], max);
    assert ProcessBatch(s1, [m2], fates[1..], max) == ProcessBatch(s2, [], fates[1..][1..], max);
  }

  lemma FirstRetried(k: nat, failed: seq<nat>, dlq: seq<string>, fates: seq<Fate>, max: nat)
    requires k < max && |fates| >= 1 && fates[0] == FAILS
    ensures ProcessBatch(Two(k, failed, dlq), [Message(1, "a", k), Message(2, "b", k)], fates, max).0
            == Two(k, failed + [1], dlq)
  {
    assert ProcessOne(Two(k, failed, dlq), Message(1, "a", k), FAILS, max) == (Two(k, failed + [1], dlq), Raised);
  }

  /** As long as the first message is retried, the second one's deliveries go with it. */
  lemma {:induction false} HeadRetried(count: nat, max: nat, k: nat)
    requires count >= 2 && k < max
    ensures AfterCalls(Two(0, [], []), count, max, Repeat(Repeat(FAILS, count), k)) == Two(k, Repeat<nat>(1, k), [])
  {
    hide Two, ProcessBatch, Delivering, Batch;
    var fates := Repeat(FAILS, count);
    if k > 0 {
      HeadRetried(count, max, k - 1);
      assert Repeat(fates, k) == Repeat(fates, k - 1) + [fates];
      AfterCallsSnoc(Two(0, [], []), count, max, Repeat(fates, k - 1), fates);
      TwoDelivered(k - 1, Repeat<nat>(1, k - 1), [], count);
      FirstRetried(k, Repeat<nat>(1, k - 1), [], fates, max);
      var before := Two(k - 1, Repeat<nat>(1, k - 1), []);
      assert AfterCall(before, count, max, fates).0 == Two(k, Repeat<nat>(1, k - 1) + [1], []);
      assert Repeat<nat>(1, k) == Repeat<nat>(1, k - 1) + [1];
    } else {
      assert Repeat<nat>(1, 0) == [];
    }
  }

  /** Then it is dead-lettered after one failure. */
  lemma FollowerFailsOnce(count: nat, max: nat)
    requires count >= 2 && max >= 2
    ensures !NotesFailed(AfterCalls(Two(0, [], []), count, max, Repeat(Repeat(FAILS, count), max)), max)
  {
    hide Two, ProcessBatch, Delivering, Batch, AfterCalls, Fails;
    var fates := Repeat(FAILS, count);
    var failed := Repeat<nat>(1, max - 1);
    HeadRetried(count, max, max - 1);
    assert Repeat(fates, max) == Repeat(fates, max - 1) + [fates];
    AfterCallsSnoc(Two(0, [], []), count, max, Repeat(fates, max - 1), fates);
    TwoDelivered(max - 1, failed, [], count);
    SecondFollows(max, failed, [], fates, max);
    NoFailsOf(failed + [1], 2);
    FailsSnoc(failed + [1], 2, 2);
    var end := AfterCalls(Two(0, [], []), count, max, Repeat(fates, max));
    assert end.notes[1].messageId == 2 && Fails(end.failed, 2) == 1;
  }

  lemma NoCalls<D>(s: Site<D>, count: nat, max: nat)
    ensures AfterCalls(s, count, max, []) == s
  {
  }

  lemma CallWithTwo(k: nat, failed: seq<nat>, dlq: seq<string>, count: nat, fates: seq<Fate>, max: nat)
    requires count >= 2
    ensures AfterCall(Two(k, failed, dlq), count, max, fates).0
            == ProcessBatch(Two(k + 1, failed, dlq), [Message(1, "a", k + 1), Message(2, "b", k + 1)], fates, max).0
  {
    TwoDelivered(k, failed, dlq, count);
    hide Two, Delivering, Batch, ProcessBatch;
  }

  lemma DiesInDeadLetter(count: nat)
    requires count >= 2
    ensures AfterCall(Two(0, [], []), count, 1, Repeat(Fate(Raises, CrashesAfterPublish), count)).0 == Two(1, [1], ["a"])
  {
    TwoDelivered(0, [], [], count);
    var fate, m := Fate(Raises, CrashesAfterPublish), Message(1, "a", 1);
    assert [] + [1] == [1] && [] + ["a"] == ["a"];
    assert ProcessOne(Two(1, [], []), m, fate, 1) == (Two(1, [1], ["a"]), Crashed);
    hide Two, Delivering, Batch, ProcessOne;
  }

  /** With one delivery each, a crash while the first is dead-lettered uses up the second one's. */
  lemma FollowerNeverRuns(count: nat)
    requires count >= 2
    ensures var calls := [Repeat(Fate(Raises, CrashesAfterPublish), count)] + [Repeat(FAILS, count)];
            !NotesFailed(AfterCalls(Two(0, [], []), count, 1, calls), 1)
  {
    var dies, fails := Repeat(Fate(Raises, CrashesAfterPublish), count), Repeat(FAILS, count);
    var start := Two(0, [], []);
    AfterCallsSnoc(start, count, 1, [dies], fails);
    AfterCallsSnoc(start, count, 1, [], dies);
    assert [] + [dies] == [dies];
    DiesInDeadLetter(count);
    hide Two, AfterCall, AfterCalls, Fails;
    CallWithTwo(1, [1], ["a"], count, fails, 1);
    SecondFollows(2, [1], ["a"], fails, 1);
    NoFailsOf([1], 2);
    assert AfterCalls(start, count, 1, [dies]) == Two(1, [1], ["a"]) by {
      NoCalls(start, count, 1);
    }
    var end := AfterCalls(start, count, 1, [dies] + [fails]);
    assert end.notes[1].messageId == 2 && Fails(end.failed, 2) == 0;
  }

  lemma OneIsUntouched()
    ensures Untouched(One(0))
  {
  }

  lemma TwoIsUntouched()
    ensures Untouched(Two(0, [], []))
  {
  }

  /** In every run a dead-lettered message has had `max` handler failures. */
  ghost predicate FailsFirst(count: nat, max: nat, may: Mishaps) {
    forall s: Site<string>, events: seq<Event<string>> ::
      Untouched(s) && FreshAlong(s, count, max, events) && AllAllowed(events, count, may) ==>
        NotesFailed(History(s, count, max, events), max)
  }

  function Calls<D>(calls: seq<seq<Fate>>): seq<Event<D>> {
    seq(|calls|, i requires 0 <= i < |calls| => Called(calls[i]))
  }

  lemma {:induction false} CallsAreAHistory<D>(s: Site<D>, count: nat, max: nat, calls: seq<seq<Fate>>)
    ensures FreshAlong(s, count, max, Calls<D>(calls))
    ensures History(s, count, max, Calls(calls)) == AfterCalls(s, count, max, calls)
    decreases |calls|
  {
    hide AfterCall, Fresh;
    if calls != [] {
      assert Calls<D>(calls)[1..] == Calls(calls[1..]);
      CallsAreAHistory(AfterCall(s, count, max, calls[0]).0, count, max, calls[1..]);
    }
  }

  lemma RefutedBy(s: Site<string>, calls: seq<seq<Fate>>, count: nat, max: nat, may: Mishaps)
    requires Untouched(s) && (forall i :: 0 <= i < |calls| ==> Allowed(calls[i], count, may))
    requires !NotesFailed(AfterCalls(s, count, max, calls), max)
    ensures !FailsFirst(count, max, may)
  {
    CallsAreAHistory(s, count, max, calls);
    hide Untouched, FreshAlong, History, AfterCalls, Allowed, NotesFailed;
    assert AllAllowed(Calls<string>(calls), count, may);
  }

  /**
   Exactly when a message is dead-lettered only after `max` handler failures: no worker dies in
   a handler, none is stopped within a batch, and a call that ends early has nothing left in
   its batch, because batches hold one message or because nothing but a dying worker ends it.
   */
  lemma FailsFirstIff(count: nat, max: nat, may: Mishaps)
    requires count >= 1 && max >= 1
    ensures FailsFirst(count, max, may) <==> EveryDeliveryHandled(count, max, may)
  {
    hide Untouched, NotesFailed, AfterCalls, History, FreshAlong, Fails;
    if EveryDeliveryHandled(count, max, may) {
      forall s: Site<string>, events: seq<Event<string>>
        | Untouched(s) && FreshAlong(s, count, max, events) && AllAllowed(events, count, may)
        ensures NotesFailed(History(s, count, max, events), max)
      {
        DeadLettersFailed(s, count, max, may, events);
      }
    } else if may.crashes || may.stops {
      var fates := if may.stops then [] else Repeat(Fate(CrashesBeforeCommit, Completes), count);
      WastedIsRefutation(count, max, fates);
      OneIsUntouched();
      RefutedBy(One(0), Repeat(fates, max) + [Repeat(WORKS, count)], count, max, may);
    } else if max >= 2 {
      FollowerFailsOnce(count, max);
      TwoIsUntouched();
      RefutedBy(Two(0, [], []), Repeat(Repeat(FAILS, count), max), count, max, may);
    } else {
      FollowerNeverRuns(count);
      TwoIsUntouched();
      RefutedBy(Two(0, [], []), [Repeat(Fate(Raises, CrashesAfterPublish), count)] + [Repeat(FAILS, count)], count, max, may);
    }
  }

  lemma WastedIsRefutation(count: nat, max: nat, fates: seq<Fate>)
    requires count >= 1 && max >= 1 && (fates == [] || fates[0].handler == CrashesBeforeCommit)
    ensures !NotesFailed(AfterCalls(One(0), count, max, Repeat(fates, max) + [Repeat(WORKS, count)]), max)
  {
    WastedIsDeadLettered(count, max, fates);
    hide AfterCalls;
    var s := AfterCalls(One(0), count, max, Repeat(fates, max) + [Repeat(WORKS, count)]);
    assert s.notes[0].messageId == 1 && Fails(s.failed, 1) == 0;
  }
}
