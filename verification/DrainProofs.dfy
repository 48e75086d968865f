/** How fast the worker loop drains a backlog, and what it then has done with each message. */
module DrainProofs {
  import opened Wrappers
  import opened MessageQueue
  import opened MessageQueueProofs
  import opened WorkerRunner
  import opened WorkerRunnerProofs

  /** No crash and no stop: the handler returns or raises, and dead-lettering completes. */
  predicate Clean(fates: seq<Fate>, count: nat) {
    && |fates| >= count
    && forall i :: 0 <= i < |fates| ==> fates[i].handler in {Returns, Raises} && fates[i].deadLetter == Completes
  }

  predicate AllClean(calls: seq<seq<Fate>>, count: nat) {
    forall i :: 0 <= i < |calls| ==> Clean(calls[i], count)
  }

  // ----- the bound -----

  function Unfinished<D>(s: Site<D>): int {
    |s.stream| - s.group.start - |s.group.acked|
  }

  function HeadCount<D>(s: Site<D>): nat {
    if s.group.pending == [] then 0 else s.group.pending[0].deliveryCount
  }

  /**
   Calls still needed at worst: each unfinished message may be retried until its last
   delivery, of which the oldest has used up some.
   */
  function Remaining<D>(s: Site<D>, max: nat): int {
    Unfinished(s) * max - if HeadCount(s) < max then HeadCount(s) else max - 1
  }

  /** A batch finishes a message, or its oldest message may be retried. */
  lemma {:induction false} CleanBatchMoves<D>(s: Site<D>, batch: seq<Message<D>>, fates: seq<Fate>, max: nat)
    requires Safe(s) && batch <= s.group.pending && Clean(fates, |batch|)
    ensures var (s', outcome) := ProcessBatch(s, batch, fates, max);
            && Safe(s') && s'.stream == s.stream && s'.group.start == s.group.start
            && |s'.group.acked| >= |s.group.acked|
            && (|s'.group.acked| == |s.group.acked| ==>
                  s'.group == s.group && (batch != [] ==> batch[0].deliveryCount < max))
    decreases |batch|
  {
    hide Safe;
    if batch != [] {
      ProcessOneIsSafe(s, fates[0], max);
      ProcessOneKeepsStart(s, batch[0], fates[0], max);
      var (s', outcome) := ProcessOne(s, batch[0], fates[0], max);
      if outcome == Finished {
        CleanBatchMoves(s', batch[1..], fates[1..], max);
      }
    }
  }

  lemma ProcessOneKeepsStart<D>(s: Site<D>, m: Message<D>, fate: Fate, max: nat)
    ensures ProcessOne(s, m, fate, max).0.group.start == s.group.start
  {
  }

  /** With work left a call hands out the oldest message, and counts that delivery. */
  lemma HeadIsDelivered<D>(s: Site<D>, count: nat)
    requires Safe(s) && count >= 1 && Unfinished(s) > 0
    ensures var s', batch := Delivering(s, count), Batch(s, count);
            && batch != [] && batch <= s'.group.pending
            && batch[0].deliveryCount == HeadCount(s') == HeadCount(s) + 1
  {
    hide Conserved, CountsFall, CountsMatch;
    ConsumeInOrder(s.stream, s.group, count);
    if s.group.pending != [] {
      RedeliveryKeepsGroup(s.stream, s.group, count);
    } else {
      FirstDeliveries(s.stream, s.group, count);
      assert |Entries(s.group.pending)| == 0;
    }
  }

  lemma UnfinishedIsNatural<D>(s: Site<D>)
    requires Safe(s)
    ensures Unfinished(s) >= 0
    ensures Unfinished(s) == 0 ==> s.group.pending == []
  {
    hide GroupOk, AllAccounted;
    assert |Entries(s.group.pending)| == s.group.cursor - s.group.start - |s.group.acked|;
  }

  lemma FewerAreCheaper(u': int, u: int, max: int)
    requires u' < u && max >= 0
    ensures u' * max <= u * max - max
  {
    var d := u - u';
    assert u * max == u' * max + d * max;
    assert d * max == max + (d - 1) * max;
    NonNegative(d - 1, max);
  }

  lemma NonNegative(a: int, b: int)
    requires a >= 0 && b >= 0
    ensures a * b >= 0
  {
  }

  /** One call either finishes a message or uses up one delivery of the oldest one. */
  lemma CleanCallProgresses<D>(s: Site<D>, count: nat, max: nat, fates: seq<Fate>)
    requires Safe(s) && Clean(fates, count) && count >= 1 && max >= 1
    ensures var s' := AfterCall(s, count, max, fates).0;
            && Safe(s') && 0 <= Unfinished(s') <= Unfinished(s)
            && (Unfinished(s) > 0 ==> Remaining(s', max) < Remaining(s, max))
  {
    hide Safe;
    var s1, batch := Delivering(s, count), Batch(s, count);
    ConsumeIsSafe(s, count);
    BatchIsShort(s, count);
    CleanBatchMoves(s1, batch, fates, max);
    var s' := ProcessBatch(s1, batch, fates, max).0;
    UnfinishedIsNatural(s');
    if Unfinished(s) > 0 {
      HeadIsDelivered(s, count);
      if |s'.group.acked| > |s.group.acked| {
        FewerAreCheaper(Unfinished(s'), Unfinished(s), max);
      }
    }
  }

  /**
   The drain bound, from any site a history can leave: crashed, stopped, with deliveries used
   up. Once the crashes, stops and publications end, as many calls as there are deliveries left
   finish every message, however the handler fails.
   */
  lemma {:induction false} CallsDrain<D>(s: Site<D>, count: nat, max: nat, calls: seq<seq<Fate>>)
    requires Safe(s) && count >= 1 && max >= 1 && AllClean(calls, count)
    requires |calls| >= Remaining(s, max)
    ensures Safe(AfterCalls(s, count, max, calls))
    ensures Unfinished(AfterCalls(s, count, max, calls)) == 0
    decreases |calls|
  {
    hide Safe;
    UnfinishedIsNatural(s);
    if calls == [] {
      if Unfinished(s) > 0 {
        FewerAreCheaper(0, Unfinished(s), max);
      }
    } else {
      var s' := AfterCall(s, count, max, calls[0]).0;
      CleanCallProgresses(s, count, max, calls[0]);
      if Unfinished(s) == 0 {
        UnfinishedIsNatural(s');
      }
      CallsDrain(s', count, max, calls[1..]);
    }
  }

  lemma FinishedAll<D>(s: Site<D>)
    requires Safe(s) && Unfinished(s) == 0
    ensures s.group.acked == Ids(s.stream[s.group.start..])
  {
    hide GroupOk, AllAccounted;
    assert s.stream[s.group.start..s.group.start + |s.group.acked|] == s.stream[s.group.start..];
  }

  /**
   Crashes happen, then stop: after any history, enough calls finish every message of the
   stream, in publication order, and each is committed or on the dead-letter queue with a note.
   */
  lemma AnyHistoryDrains<D>(s: Site<D>, count: nat, max: nat, events: seq<Event<D>>, calls: seq<seq<Fate>>)
    requires Safe(s) && FreshAlong(s, count, max, events)
    requires count >= 1 && max >= 1 && AllClean(calls, count)
    requires |calls| >= Remaining(History(s, count, max, events), max)
    ensures var end := AfterCalls(History(s, count, max, events), count, max, calls);
            && end.group.start <= |end.stream| && end.group.acked == Ids(end.stream[end.group.start..])
            && forall j :: end.group.start <= j < |end.stream| ==> Accounted(end, end.stream[j])
  {
    hide History, AfterCalls, InOrder, GroupOk, Accounted;
    HistoriesAreSafe(s, count, max, events);
    CallsDrain(History(s, count, max, events), count, max, calls);
    var end := AfterCalls(History(s, count, max, events), count, max, calls);
    StartIsWithin(end);
    FinishedAll(end);
    assert AllAccounted(end);
  }

  lemma StartIsWithin<D>(s: Site<D>)
    requires Safe(s)
    ensures s.group.start <= |s.stream|
  {
  }

  // ----- what a run without crashes and stops has done -----

  ghost predicate CountsBelow<D>(ms: seq<Message<D>>, max: nat) {
    forall i :: 0 <= i < |ms| ==> ms[i].deliveryCount < max
  }

  function NoteIds(notes: seq<Note>): (r: seq<nat>)
    ensures |r| == |notes|
  {
    seq(|notes|, i requires 0 <= i < |notes| => notes[i].messageId)
  }

  /**
   Every finished message was finished once: committed, or dead-lettered when its handler
   failed at the delivery that counts `max`.
   */
  ghost predicate Exact<D>(s: Site<D>, max: nat) {
    && multiset(s.committed) + multiset(NoteIds(s.notes)) == multiset(s.group.acked)
    && |s.dlq| == |s.notes|
    && forall n :: n in s.notes ==> n.errorClass == HandlerError && n.deliveryCount == max
  }

  ghost predicate Steady<D>(s: Site<D>, max: nat) {
    Safe(s) && CountsBelow(s.group.pending, max) && Exact(s, max)
  }

  lemma SettledHead<D>(s: Site<D>)
    requires Safe(s) && s.group.pending != []
    ensures Settle(s, s.group.pending[0].seqId)
            == s.(group := s.group.(pending := s.group.pending[1..], acked := s.group.acked + [s.group.pending[0].seqId]))
  {
    hide InOrder, GroupOk, AllAccounted;
    AckHead(s.stream, s.group);
  }

  lemma CommitIsExact<D>(s: Site<D>, id: nat, g: Group<D>, max: nat)
    requires Exact(s, max) && g.acked == s.group.acked + [id]
    ensures Exact(s.(committed := s.committed + [id], group := g), max)
  {
    hide NoteIds;
  }

  lemma LetterIsExact<D>(s: Site<D>, m: Message<D>, failed: seq<nat>, g: Group<D>, max: nat)
    requires Exact(s, max) && g.acked == s.group.acked + [m.seqId] && m.deliveryCount == max
    ensures Exact(s.(failed := failed, dlq := s.dlq + [m.data],
                     notes := s.notes + [Note(m.seqId, m.deliveryCount, HandlerError)], group := g), max)
  {
    NoteIdsSnoc(s.notes, Note(m.seqId, m.deliveryCount, HandlerError));
    hide NoteIds;
  }

  lemma NoteIdsSnoc(notes: seq<Note>, note: Note)
    ensures NoteIds(notes + [note]) == NoteIds(notes) + [note.messageId]
  {
  }

  lemma HandledIsExact<D>(s: Site<D>, fate: Fate, max: nat)
    requires Safe(s) && Exact(s, max) && s.group.pending != [] && s.group.pending[0].deliveryCount <= max
    requires fate.handler in {Returns, Raises} && fate.deadLetter == Completes
    ensures var (s', outcome) := ProcessOne(s, s.group.pending[0], fate, max);
            && Exact(s', max)
            && (outcome == Finished || (outcome == Raised && s'.group == s.group && s.group.pending[0].deliveryCount < max))
  {
    var m := s.group.pending[0];
    SettledHead(s);
    if fate.handler == Raises && m.deliveryCount < max {
      assert Exact(s.(failed := s.failed + [m.seqId]), max);
    }
    hide Safe, Acknowledged, Exact;
    var g := Acknowledged(s.group, m.seqId);
    if fate.handler == Returns {
      CommitIsExact(s, m.seqId, g, max);
    } else if m.deliveryCount == max {
      LetterIsExact(s, m, s.failed + [m.seqId], g, max);
    }
  }

  /** Counts fall along the list, so where the oldest message may be retried, so may the others. */
  lemma {:induction false} CleanBatch<D>(s: Site<D>, batch: seq<Message<D>>, fates: seq<Fate>, max: nat)
    requires Safe(s) && Exact(s, max) && batch <= s.group.pending && Clean(fates, |batch|)
    requires forall i :: 0 <= i < |batch| ==> s.group.pending[i].deliveryCount <= max
    requires CountsBelow(s.group.pending[|batch|..], max)
    ensures var (s', outcome) := ProcessBatch(s, batch, fates, max);
            && Steady(s', max) && s'.stream == s.stream && s'.group.start == s.group.start
            && outcome in {Finished, Raised}
            && |s'.group.acked| >= |s.group.acked|
            && (|s'.group.acked| == |s.group.acked| ==> s'.group == s.group)
            && (outcome == Finished ==> |s'.group.acked| == |s.group.acked| + |batch|)
    decreases |batch|
  {
    hide Safe, Exact;
    if batch == [] {
      assert s.group.pending[0..] == s.group.pending;
    } else {
      ProcessOneIsSafe(s, fates[0], max);
      HandledIsExact(s, fates[0], max);
      var (s', outcome) := ProcessOne(s, batch[0], fates[0], max);
      if outcome == Finished {
        assert s'.group.pending[|batch| - 1..] == s.group.pending[|batch|..];
        CleanBatch(s', batch[1..], fates[1..], max);
      } else {
        HeadBoundsAll(s, max);
      }
    }
  }

  lemma HeadBoundsAll<D>(s: Site<D>, max: nat)
    requires Safe(s) && s.group.pending != [] && s.group.pending[0].deliveryCount < max
    ensures CountsBelow(s.group.pending, max)
  {
  }

  lemma RedeliveredIds<D>(s: Site<D>, count: nat)
    requires GroupOk(s.stream, s.group) && s.group.pending != []
    ensures var g := Delivering(s, count).group;
            && |g.pending| == |s.group.pending| && g.cursor == s.group.cursor
            && (forall i :: 0 <= i < |g.pending| ==>
                  && g.pending[i].seqId == s.group.pending[i].seqId
                  && g.pending[i].deliveryCount == s.group.pending[i].deliveryCount + if i < |Batch(s, count)| then 1 else 0)
            && |Batch(s, count)| == Least(count, |g.pending|)
  {
    hide Conserved, CountsFall, CountsMatch;
    RedeliveryKeepsGroup(s.stream, s.group, count);
    var g := Delivering(s, count).group;
    forall i | 0 <= i < |s.group.pending| ensures g.pending[i].seqId == s.group.pending[i].seqId {
      assert EntryOf(g.pending[i]) == Entries(g.pending)[i] == Entries(s.group.pending)[i];
    }
  }

  lemma FirstIds<D>(s: Site<D>, count: nat)
    requires GroupOk(s.stream, s.group) && s.group.pending == []
    ensures var g := Delivering(s, count).group;
            && s.group.cursor <= g.cursor <= |s.stream| && |g.pending| == |Batch(s, count)| == g.cursor - s.group.cursor
            && (forall i :: 0 <= i < |g.pending| ==>
                  g.pending[i].seqId == s.stream[s.group.cursor + i].seqId && g.pending[i].deliveryCount == 1)
  {
    hide CountsFall, CountsMatch;
    FirstDeliveries(s.stream, s.group, count);
    var g := Delivering(s, count).group;
    forall i | 0 <= i < |g.pending| ensures g.pending[i].seqId == s.stream[s.group.cursor + i].seqId {
      assert EntryOf(g.pending[i]) == Entries(g.pending)[i] == s.stream[s.group.cursor..g.cursor][i];
    }
  }

  lemma DeliveryCounts<D>(s: Site<D>, count: nat, max: nat)
    requires Safe(s) && CountsBelow(s.group.pending, max) && max >= 1
    ensures var s', batch := Delivering(s, count), Batch(s, count);
            && |batch| <= |s'.group.pending| && |batch| <= count
            && (forall i :: 0 <= i < |batch| ==> s'.group.pending[i].deliveryCount <= max)
            && CountsBelow(s'.group.pending[|batch|..], max)
            && (count >= 1 && Unfinished(s) > 0 ==>
                  && batch != []
                  && s'.group.pending[0].deliveryCount ==
                       (if s.group.pending == [] then 0 else s.group.pending[0].deliveryCount) + 1)
  {
    hide GroupOk, InOrder, AllAccounted, Delivering, Batch;
    if s.group.pending != [] {
      RedeliveredIds(s, count);
    } else {
      FirstIds(s, count);
      BatchIsShort(s, count);
    }
    if count >= 1 && Unfinished(s) > 0 {
      HeadIsDelivered(s, count);
    }
  }

  lemma CleanCallIsExact<D>(s: Site<D>, count: nat, max: nat, fates: seq<Fate>)
    requires Steady(s, max) && Clean(fates, count) && max >= 1
    ensures Steady(AfterCall(s, count, max, fates).0, max)
  {
    hide Safe, Exact;
    ConsumeIsSafe(s, count);
    DeliveryCounts(s, count, max);
    ExactIgnoresDelivery(s, count, max);
    CleanBatch(Delivering(s, count), Batch(s, count), fates, max);
  }

  lemma ExactIgnoresDelivery<D>(s: Site<D>, count: nat, max: nat)
    requires Exact(s, max)
    ensures Exact(Delivering(s, count), max)
  {
  }

  lemma PublishKeepsSteady<D>(s: Site<D>, data: D, id: nat, max: nat)
    requires Steady(s, max) && Fresh(s, id)
    ensures Steady(s.(stream := s.stream + [Entry(id, data)]), max)
  {
    FreshIsUnacked(s, id);
    PublishIsSafe(s, data, id);
    hide Safe, Fresh;
  }

  predicate CleanEvents<D>(events: seq<Event<D>>, count: nat) {
    forall i :: 0 <= i < |events| && events[i].Called? ==> Clean(events[i].fates, count)
  }

  /** Without crashes and stops every message is finished once, whenever messages are published. */
  lemma {:induction false} CleanHistoriesAreExact<D>(s: Site<D>, count: nat, max: nat, events: seq<Event<D>>)
    requires Steady(s, max) && max >= 1 && FreshAlong(s, count, max, events) && CleanEvents(events, count)
    ensures Steady(History(s, count, max, events), max)
    decreases |events|
  {
    hide Steady, AfterCall, Fresh, Clean;
    if events != [] {
      match events[0] {
        case Published(data, id) => PublishKeepsSteady(s, data, id, max);
        case Called(fates) => CleanCallIsExact(s, count, max, fates);
      }
      CleanHistoriesAreExact(After(s, count, max, events[0]), count, max, events[1..]);
    }
  }

  lemma {:induction false} CleanCallsAreExact<D>(s: Site<D>, count: nat, max: nat, calls: seq<seq<Fate>>)
    requires Steady(s, max) && max >= 1 && AllClean(calls, count)
    ensures Steady(AfterCalls(s, count, max, calls), max)
    decreases |calls|
  {
    hide Steady;
    if calls != [] {
      CleanCallIsExact(s, count, max, calls[0]);
      CleanCallsAreExact(AfterCall(s, count, max, calls[0]).0, count, max, calls[1..]);
    }
  }

  /** Nothing was delivered yet. */
  ghost predicate Untouched<D>(s: Site<D>) {
    Safe(s) && s.group.pending == [] && s.group.acked == s.committed == s.failed == [] && s.notes == [] && s.dlq == []
  }

  /**
   From there, after any history without crashes and stops: n unfinished messages need at most
   n * max calls, and then each message published was finished exactly once, in order.
   */
  lemma BacklogDrains<D>(s: Site<D>, count: nat, max: nat, events: seq<Event<D>>, calls: seq<seq<Fate>>)
    requires Untouched(s) && count >= 1 && max >= 1 && AllClean(calls, count)
    requires FreshAlong(s, count, max, events) && CleanEvents(events, count)
    requires |calls| >= Unfinished(History(s, count, max, events)) * max
    ensures var before := History(s, count, max, events);
            var end := AfterCalls(before, count, max, calls);
            && end.stream == before.stream && end.group.start == before.group.start <= |end.stream|
            && Exact(end, max) && end.group.acked == Ids(end.stream[end.group.start..])
  {
    hide InOrder, GroupOk, AllAccounted, History, FreshAlong, AfterCalls, AllClean, CleanEvents;
    CleanHistoriesAreExact(s, count, max, events);
    var before := History(s, count, max, events);
    CallsDrain(before, count, max, calls);
    CleanCallsAreExact(before, count, max, calls);
    CallsKeepStream(before, count, max, calls);
    StartIsWithin(before);
    FinishedAll(AfterCalls(before, count, max, calls));
  }

  lemma {:induction false} BatchKeepsStream<D>(s: Site<D>, batch: seq<Message<D>>, fates: seq<Fate>, max: nat)
    ensures var s' := ProcessBatch(s, batch, fates, max).0;
            s'.stream == s.stream && s'.group.start == s.group.start
    decreases |batch|
  {
    if batch != [] && fates != [] {
      var (s', outcome) := ProcessOne(s, batch[0], fates[0], max);
      if outcome == Finished {
        BatchKeepsStream(s', batch[1..], fates[1..], max);
      }
    }
  }

  lemma {:induction false} CallsKeepStream<D>(s: Site<D>, count: nat, max: nat, calls: seq<seq<Fate>>)
    ensures var s' := AfterCalls(s, count, max, calls);
            s'.stream == s.stream && s'.group.start == s.group.start
    decreases |calls|
  {
    if calls != [] {
      BatchKeepsStream(Delivering(s, count), Batch(s, count), calls[0], max);
      CallsKeepStream(AfterCall(s, count, max, calls[0]).0, count, max, calls[1..]);
    }
  }
}
