/** What the worker loop guarantees, however the handler fails and wherever the process dies. */
module WorkerRunnerProofs {
  import opened MessageQueue
  import opened MessageQueueProofs
  import opened WorkerRunner

  function Ids<D>(es: seq<Entry<D>>): (r: seq<nat>)
    ensures |r| == |es|
  {
    seq(|es|, i requires 0 <= i < |es| => es[i].seqId)
  }

  /** Messages are finished in publication order: the acked ones, then the pending ones, then the unread. */
  ghost predicate InOrder<D>(stream: seq<Entry<D>>, g: Group<D>) {
    && g.start + |g.acked| <= g.cursor <= |stream|
    && g.acked == Ids(stream[g.start..g.start + |g.acked|])
    && Entries(g.pending) == stream[g.start + |g.acked|..g.cursor]
  }

  /** A message that is gone from the queue was committed, or is on the dead-letter queue with a note. */
  ghost predicate Accounted<D>(s: Site<D>, e: Entry<D>) {
    || e.seqId in s.committed
    || (e.data in s.dlq && exists n :: n in s.notes && n.messageId == e.seqId)
  }

  ghost predicate AllAccounted<D>(s: Site<D>) {
    forall j :: s.group.start <= j < s.group.start + |s.group.acked| && j < |s.stream| ==> Accounted(s, s.stream[j])
  }

  ghost predicate Safe<D>(s: Site<D>) {
    InOrder(s.stream, s.group) && GroupOk(s.stream, s.group) && AllAccounted(s)
  }

  /** Everything one message leaves behind, for every way its handler and its dead-lettering can end. */
  lemma EndingsAre<D>(s: Site<D>, m: Message<D>, fate: Fate, max: nat)
    ensures var (s', outcome) := ProcessOne(s, m, fate, max);
            var late := m.deliveryCount > max;
            var dead := late || (fate.handler == Raises && m.deliveryCount == max);
            var settled := if dead then fate.deadLetter == Completes else fate.handler == Returns;
            && s'.stream == s.stream
            && s'.committed == s.committed + (if !late && fate.handler in {Returns, CrashesBeforeAck} then [m.seqId] else [])
            && s'.failed == s.failed + (if !late && fate.handler == Raises then [m.seqId] else [])
            && s'.dlq == s.dlq + (if dead then [m.data] else [])
            && s'.notes == s.notes + (if dead && fate.deadLetter != CrashesAfterPublish then
                                        [Note(m.seqId, m.deliveryCount, if late then MaxDeliveriesExceeded else HandlerError)]
                                      else [])
            && s'.group == (if settled then Acknowledged(s.group, m.seqId) else s.group)
            && outcome == if settled then Finished else if !dead && fate.handler == Raises then Raised else Crashed
  {
    hide Acknowledged;
    assert s.committed + [] == s.committed && s.failed + [] == s.failed && s.dlq + [] == s.dlq && s.notes + [] == s.notes;
  }

  // ----- one message -----

  /** Acknowledging the oldest pending message takes it off the front. */
  lemma AckHead<D>(stream: seq<Entry<D>>, g: Group<D>)
    requires InOrder(stream, g) && GroupOk(stream, g) && g.pending != []
    ensures var g' := Acknowledged(g, g.pending[0].seqId);
            && g' == g.(pending := g.pending[1..], acked := g.acked + [g.pending[0].seqId])
            && InOrder(stream, g') && GroupOk(stream, g')
            && g.start + |g.acked| < |stream| && stream[g.start + |g.acked|] == EntryOf(g.pending[0])
  {
    hide Conserved, CountsFall, CountsMatch, InOrder;
    AckKeepsGroup(stream, g, 0);
    PendingIdsIncrease(stream, g);
    WithoutHead(g.pending);
    FinishHead(stream, g);
  }

  /** In publication order the oldest pending entry comes right after the finished ones. */
  lemma FinishHead<D>(stream: seq<Entry<D>>, g: Group<D>)
    requires InOrder(stream, g) && g.pending != []
    ensures InOrder(stream, g.(pending := g.pending[1..], acked := g.acked + [g.pending[0].seqId]))
    ensures g.start + |g.acked| < |stream| && stream[g.start + |g.acked|] == EntryOf(g.pending[0])
  {
    var k, rest := g.start + |g.acked|, g.pending[1..];
    assert |Entries(g.pending)| == |stream[k..g.cursor]|;
    assert stream[k..g.cursor][0] == stream[k] == Entries(g.pending)[0];
    assert Entries(rest) == Entries(g.pending)[1..];
    assert stream[k..g.cursor][1..] == stream[k + 1..g.cursor];
    IdsSnoc(stream[g.start..k], stream[k]);
    assert stream[g.start..k + 1] == stream[g.start..k] + [stream[k]];
    hide Ids, Entries;
  }

  lemma IdsSnoc<D>(es: seq<Entry<D>>, e: Entry<D>)
    ensures Ids(es + [e]) == Ids(es) + [e.seqId]
  {
  }

  lemma {:induction false} WithoutAbsent<D>(ms: seq<Message<D>>, id: nat)
    requires forall i :: 0 <= i < |ms| ==> ms[i].seqId != id
    ensures Without(ms, id) == ms
  {
    if ms != [] {
      WithoutAbsent(ms[..|ms| - 1], id);
    }
  }

  lemma {:induction false} WithoutHead<D>(ms: seq<Message<D>>)
    requires ms != [] && forall i, j :: 0 <= i < j < |ms| ==> ms[i].seqId < ms[j].seqId
    ensures Without(ms, ms[0].seqId) == ms[1..]
  {
    var n := |ms| - 1;
    if n == 0 {
      assert ms[..0] == [];
    } else {
      WithoutHead(ms[..n]);
    }
  }

  lemma AccountedGrows<D>(s: Site<D>, s': Site<D>, e: Entry<D>)
    requires Accounted(s, e)
    requires s.committed <= s'.committed && s.dlq <= s'.dlq && s.notes <= s'.notes
    ensures Accounted(s', e)
  {
    if n :| n in s.notes && n.messageId == e.seqId {
      assert n in s'.notes;
    }
  }

  /** Leaving more records behind keeps everything accounted for. */
  lemma RecordsOnly<D>(s: Site<D>, s': Site<D>)
    requires Safe(s) && s'.stream == s.stream && s'.group == s.group
    requires s.committed <= s'.committed && s.dlq <= s'.dlq && s.notes <= s'.notes
    ensures Safe(s')
  {
    hide InOrder, GroupOk, Accounted;
    assert AllAccounted(s);
    forall j | s.group.start <= j < s.group.start + |s.group.acked| && j < |s.stream| ensures Accounted(s', s.stream[j]) {
      AccountedGrows(s, s', s.stream[j]);
    }
  }

  lemma AckAccounted<D>(s: Site<D>)
    requires Safe(s) && s.group.pending != [] && Accounted(s, EntryOf(s.group.pending[0]))
    ensures Safe(Settle(s, s.group.pending[0].seqId))
    ensures Settle(s, s.group.pending[0].seqId).group.pending == s.group.pending[1..]
    ensures Settle(s, s.group.pending[0].seqId).group.acked == s.group.acked + [s.group.pending[0].seqId]
  {
    hide InOrder, GroupOk, Accounted;
    AckHead(s.stream, s.group);
    var s', k := Settle(s, s.group.pending[0].seqId), s.group.start + |s.group.acked|;
    forall j | s.group.start <= j < k + 1 && j < |s.stream| ensures Accounted(s', s.stream[j]) {
      assert Accounted(s, s.stream[j]);
      AccountedGrows(s, s', s.stream[j]);
    }
  }

  lemma DeadLetterIsSafe<D>(s: Site<D>, why: ErrorClass, fate: DeadLetterFate)
    requires Safe(s) && s.group.pending != []
    ensures var (s', outcome) := DeadLetter(s, s.group.pending[0], why, fate);
            && Safe(s') && s'.stream == s.stream
            && (outcome == Finished ==>
                  && s'.group.pending == s.group.pending[1..]
                  && s'.group.acked == s.group.acked + [s.group.pending[0].seqId])
            && (outcome != Finished ==> s'.group == s.group)
  {
    hide Safe;
    var m := s.group.pending[0];
    var s2 := s.(dlq := s.dlq + [m.data]);
    var s3 := s2.(notes := s.notes + [Note(m.seqId, m.deliveryCount, why)]);
    RecordsOnly(s, s2);
    RecordsOnly(s, s3);
    assert Note(m.seqId, m.deliveryCount, why) in s3.notes;
    AckAccounted(s3);
  }

  /** Handling the oldest message, with any fate: it is settled, or it stays the oldest. */
  lemma ProcessOneIsSafe<D>(s: Site<D>, fate: Fate, max: nat)
    requires Safe(s) && s.group.pending != []
    ensures var (s', outcome) := ProcessOne(s, s.group.pending[0], fate, max);
            && Safe(s') && s'.stream == s.stream
            && (outcome == Finished ==>
                  && s'.group.pending == s.group.pending[1..]
                  && s'.group.acked == s.group.acked + [s.group.pending[0].seqId])
            && (outcome != Finished ==> s'.group == s.group)
  {
    hide Safe;
    var m := s.group.pending[0];
    var s1 := s.(committed := s.committed + [m.seqId]);
    var logged := s.(failed := s.failed + [m.seqId]);
    RecordsOnly(s, s1);
    RecordsOnly(s, logged);
    AckAccounted(s1);
    if m.deliveryCount > max {
      DeadLetterIsSafe(s, MaxDeliveriesExceeded, fate.deadLetter);
    } else {
      DeadLetterIsSafe(logged, HandlerError, fate.deadLetter);
    }
  }

  // ----- one call -----

  lemma {:induction false} BatchIsSafe<D>(s: Site<D>, batch: seq<Message<D>>, fates: seq<Fate>, max: nat)
    requires Safe(s) && batch <= s.group.pending
    ensures Safe(ProcessBatch(s, batch, fates, max).0)
    decreases |batch|
  {
    hide Safe;
    if batch != [] && fates != [] {
      ProcessOneIsSafe(s, fates[0], max);
      var (s', outcome) := ProcessOne(s, batch[0], fates[0], max);
      if outcome == Finished {
        BatchIsSafe(s', batch[1..], fates[1..], max);
      }
    }
  }

  /** What a call counts as processed is what it acknowledged. */
  lemma {:induction false} FinishedAreAcked<D>(s: Site<D>, batch: seq<Message<D>>, fates: seq<Fate>, max: nat)
    requires Safe(s) && batch <= s.group.pending
    ensures |ProcessBatch(s, batch, fates, max).0.group.acked| == |s.group.acked| + FinishedOf(s, batch, fates, max)
    decreases |batch|
  {
    hide Safe;
    if batch != [] && fates != [] {
      ProcessOneIsSafe(s, fates[0], max);
      var (s', outcome) := ProcessOne(s, batch[0], fates[0], max);
      if outcome == Finished {
        FinishedAreAcked(s', batch[1..], fates[1..], max);
      }
    }
  }

  /** A delivery moves nothing out of order, and hands out the front of the pending list. */
  lemma ConsumeInOrder<D>(stream: seq<Entry<D>>, g: Group<D>, count: nat)
    requires InOrder(stream, g) && GroupOk(stream, g)
    ensures InOrder(stream, Consumed(stream, g, count)) && GroupOk(stream, Consumed(stream, g, count))
    ensures Delivered(g.counts, NextEntries(stream, g, count)) <= Consumed(stream, g, count).pending
  {
    hide Conserved, CountsFall, CountsMatch, Consumed, NextEntries, Delivered, Tally, Ids;
    if g.pending != [] {
      RedeliveryKeepsGroup(stream, g, count);
      ConsumedAgain(stream, g, count);
    } else {
      ReadingOnKeepsGroup(stream, g, count);
      FirstDeliveries(stream, g, count);
      ConsumedAnew(stream, g, count);
      NothingLeft(stream, g);
    }
    hide Entries, Slice;
  }

  /** With nothing pending, everything read is finished. */
  lemma NothingLeft<D>(stream: seq<Entry<D>>, g: Group<D>)
    requires InOrder(stream, g) && g.pending == []
    ensures g.start + |g.acked| == g.cursor
  {
    hide Ids;
    assert |Entries(g.pending)| == 0;
  }

  lemma ConsumeIsSafe<D>(s: Site<D>, count: nat)
    requires Safe(s)
    ensures Safe(Delivering(s, count)) && Batch(s, count) <= Delivering(s, count).group.pending
  {
    hide InOrder, GroupOk, Accounted;
    ConsumeInOrder(s.stream, s.group, count);
    var s' := Delivering(s, count);
    forall j | s.group.start <= j < s.group.start + |s.group.acked| && j < |s.stream| ensures Accounted(s', s.stream[j]) {
      assert Accounted(s, s.stream[j]);
      AccountedGrows(s, s', s.stream[j]);
    }
  }

  lemma CallIsSafe<D>(s: Site<D>, count: nat, max: nat, fates: seq<Fate>)
    requires Safe(s)
    ensures Safe(AfterCall(s, count, max, fates).0)
  {
    hide Safe;
    ConsumeIsSafe(s, count);
    BatchIsSafe(Delivering(s, count), Batch(s, count), fates, max);
  }

  lemma PublishIsSafe<D>(s: Site<D>, data: D, id: nat)
    requires Safe(s)
    requires forall i :: 0 <= i < |s.stream| ==> s.stream[i].seqId < id
    requires id !in s.group.acked && Count(s.group.counts, id) == 0
    ensures Safe(s.(stream := s.stream + [Entry(id, data)]))
  {
    hide GroupOk, InOrder, Accounted;
    var s' := s.(stream := s.stream + [Entry(id, data)]);
    PublishKeepsGroup(s.stream, s.group, Entry(id, data));
    PublishInOrder(s.stream, s.group, Entry(id, data));
    forall j | s.group.start <= j < s.group.start + |s.group.acked| && j < |s'.stream| ensures Accounted(s', s'.stream[j]) {
      assert Accounted(s, s.stream[j]);
      AccountedGrows(s, s', s.stream[j]);
    }
  }

  lemma PublishInOrder<D>(stream: seq<Entry<D>>, g: Group<D>, e: Entry<D>)
    requires InOrder(stream, g)
    ensures InOrder(stream + [e], g) && g.start + |g.acked| <= |stream|
  {
    var k := g.start + |g.acked|;
    assert (stream + [e])[g.start..k] == stream[g.start..k];
    assert (stream + [e])[k..g.cursor] == stream[k..g.cursor];
  }

  // ----- every history -----

  /** An id the broker has not handed out before. */
  ghost predicate Fresh<D>(s: Site<D>, id: nat) {
    (forall i :: 0 <= i < |s.stream| ==> s.stream[i].seqId < id) && Count(s.group.counts, id) == 0
  }

  ghost predicate FreshAlong<D>(s: Site<D>, count: nat, max: nat, events: seq<Event<D>>)
    decreases |events|
  {
    events != [] ==>
      && (events[0].Published? ==> Fresh(s, events[0].seqId))
      && FreshAlong(After(s, count, max, events[0]), count, max, events[1..])
  }

  /** The broker's next id is fresh. */
  lemma NextIdIsFresh<D>(s: Site<D>, nextSeq: nat)
    requires Kept(s.stream, s.group, nextSeq)
    ensures Fresh(s, nextSeq + 1)
  {
  }

  lemma FreshIsUnacked<D>(s: Site<D>, id: nat)
    requires InOrder(s.stream, s.group) && Fresh(s, id)
    ensures id !in s.group.acked
  {
    forall i | 0 <= i < |s.group.acked| ensures s.group.acked[i] < id {
      assert s.stream[s.group.start..s.group.start + |s.group.acked|][i] == s.stream[s.group.start + i];
    }
  }

  /**
   Over every history of publications, calls, failures, stops and crashes: messages finish in
   publication order, nothing is lost, and what left the queue is accounted for.
   */
  lemma {:induction false} HistoriesAreSafe<D>(s: Site<D>, count: nat, max: nat, events: seq<Event<D>>)
    requires Safe(s) && FreshAlong(s, count, max, events)
    ensures Safe(History(s, count, max, events))
    decreases |events|
  {
    if events != [] {
      match events[0]
      case Published(data, id) =>
        FreshIsUnacked(s, id);
        PublishIsSafe(s, data, id);
        HistoriesAreSafe(After(s, count, max, events[0]), count, max, events[1..]);
      case Called(fates) =>
        CallIsSafe(s, count, max, fates);
        HistoriesAreSafe(After(s, count, max, events[0]), count, max, events[1..]);
    }
  }

  /** What `Safe` says of the message at position `j` of the stream. */
  lemma EveryMessageHasAPlace<D>(s: Site<D>, j: nat)
    requires Safe(s) && s.group.start <= j < |s.stream|
    ensures var finished := s.group.start + |s.group.acked|;
            if j < finished then s.group.acked[j - s.group.start] == s.stream[j].seqId && Accounted(s, s.stream[j])
            else if j < s.group.cursor then
              j - finished < |s.group.pending| && EntryOf(s.group.pending[j - finished]) == s.stream[j]
            else s.stream[j].seqId !in s.group.acked
  {
    hide CountsFall, CountsMatch;
    var finished := s.group.start + |s.group.acked|;
    if j < finished {
      assert s.stream[s.group.start..finished][j - s.group.start] == s.stream[j];
    } else if j < s.group.cursor {
      assert Entries(s.group.pending)[j - finished] == s.stream[j];
    }
  }
}
