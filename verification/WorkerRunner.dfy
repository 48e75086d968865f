/**
 The worker loop (services/backend/src/backend/workers/runner.py): consume, handle, commit,
 ack; dead-letter what keeps failing. What the handler does, and where the process dies, is
 not under the runner's control: it is the list of fates, one for each message the runner
 starts on. A list that ends early is a stop request.
 */
module WorkerRunner {
  import opened MessageQueue

  datatype HandlerFate = Returns | Raises | CrashesBeforeCommit | CrashesBeforeAck

  datatype DeadLetterFate = Completes | CrashesAfterPublish | CrashesAfterAudit

  datatype Fate = Fate(handler: HandlerFate, deadLetter: DeadLetterFate)

  datatype ErrorClass = MaxDeliveriesExceeded | HandlerError

  /** The `record_dead_lettered` audit entry. */
  datatype Note = Note(messageId: nat, deliveryCount: nat, errorClass: ErrorClass)

  datatype Outcome = Finished | Raised | Crashed | Stopped

  /**
   All the runner touches: its group of its queue, the handler's committed transactions (by
   message id), the dead-letter stream, the audit notes, and the failures it logged (by
   message id), one for each time a handler raised.
   */
  datatype Site<D> = Site(
    stream: seq<Entry<D>>, group: Group<D>, committed: seq<nat>, dlq: seq<D>, notes: seq<Note>, failed: seq<nat>)

  function Settle<D>(s: Site<D>, id: nat): Site<D> {
    s.(group := Acknowledged(s.group, id))
  }

  function DeadLetter<D>(s: Site<D>, m: Message<D>, why: ErrorClass, fate: DeadLetterFate): (Site<D>, Outcome) {
    var published := s.(dlq := s.dlq + [m.data]);
    if fate == CrashesAfterPublish then (published, Crashed)
    else
      var audited := published.(notes := s.notes + [Note(m.seqId, m.deliveryCount, why)]);
      if fate == CrashesAfterAudit then (audited, Crashed) else (Settle(audited, m.seqId), Finished)
  }

  function ProcessOne<D>(s: Site<D>, m: Message<D>, fate: Fate, max: nat): (Site<D>, Outcome) {
    if m.deliveryCount > max then DeadLetter(s, m, MaxDeliveriesExceeded, fate.deadLetter)
    else
      match fate.handler
      case Returns => (Settle(s.(committed := s.committed + [m.seqId]), m.seqId), Finished)
      case Raises =>
        var logged := s.(failed := s.failed + [m.seqId]);
        if m.deliveryCount >= max then DeadLetter(logged, m, HandlerError, fate.deadLetter) else (logged, Raised)
      case CrashesBeforeCommit => (s, Crashed)
      case CrashesBeforeAck => (s.(committed := s.committed + [m.seqId]), Crashed)
  }

  function ProcessBatch<D>(s: Site<D>, batch: seq<Message<D>>, fates: seq<Fate>, max: nat): (Site<D>, Outcome)
    decreases |batch|
  {
    if batch == [] then (s, Finished)
    else if fates == [] then (s, Stopped)
    else
      var (s', outcome) := ProcessOne(s, batch[0], fates[0], max);
      if outcome == Finished then ProcessBatch(s', batch[1..], fates[1..], max) else (s', outcome)
  }

  /** How many messages of the batch were finished. */
  function FinishedOf<D>(s: Site<D>, batch: seq<Message<D>>, fates: seq<Fate>, max: nat): nat
    decreases |batch|
  {
    if batch == [] || fates == [] then 0
    else
      var (s', outcome) := ProcessOne(s, batch[0], fates[0], max);
      if outcome == Finished then 1 + FinishedOf(s', batch[1..], fates[1..], max) else 0
  }

  function Batch<D>(s: Site<D>, count: nat): seq<Message<D>> {
    Delivered(s.group.counts, NextEntries(s.stream, s.group, count))
  }

  lemma BatchIsShort<D>(s: Site<D>, count: nat)
    ensures |Batch(s, count)| <= count
  {
  }

  function Delivering<D>(s: Site<D>, count: nat): Site<D> {
    s.(group := Consumed(s.stream, s.group, count))
  }

  function AfterCall<D>(s: Site<D>, count: nat, max: nat, fates: seq<Fate>): (Site<D>, Outcome) {
    ProcessBatch(Delivering(s, count), Batch(s, count), fates, max)
  }

  /** `run_loop`: one call after another, whatever each of them raised. */
  function AfterCalls<D>(s: Site<D>, count: nat, max: nat, calls: seq<seq<Fate>>): Site<D>
    decreases |calls|
  {
    if calls == [] then s else AfterCalls(AfterCall(s, count, max, calls[0]).0, count, max, calls[1..])
  }

  datatype Event<D> = Published(data: D, seqId: nat) | Called(fates: seq<Fate>)

  /** What happens at the site over time: publishers publish, the runner is called, dies, is restarted. */
  function After<D>(s: Site<D>, count: nat, max: nat, e: Event<D>): Site<D> {
    match e
    case Published(data, id) => s.(stream := s.stream + [Entry(id, data)])
    case Called(fates) => AfterCall(s, count, max, fates).0
  }

  function History<D>(s: Site<D>, count: nat, max: nat, events: seq<Event<D>>): Site<D>
    decreases |events|
  {
    if events == [] then s else History(After(s, count, max, events[0]), count, max, events[1..])
  }

  // ----- the runner itself -----

  /** What the runner and its handler leave behind: committed transactions, audit notes, logged failures. */
  class Records {
    var committed: seq<nat>
    var notes: seq<Note>
    var failed: seq<nat>

    constructor ()
      ensures committed == [] && notes == [] && failed == []
    {
      committed, notes, failed := [], [], [];
    }
  }

  class Runner<D> {
    const queue: InMemoryQueue<D>
    const records: Records
    const key: GroupKey
    const maxDeliveries: nat
    const batchCount: nat

    constructor (queue: InMemoryQueue<D>, records: Records, key: GroupKey, maxDeliveries: nat, batchCount: nat)
      ensures this.queue == queue && this.records == records && this.key == key
      ensures this.maxDeliveries == maxDeliveries && this.batchCount == batchCount
    {
      this.queue, this.records, this.key := queue, records, key;
      this.maxDeliveries, this.batchCount := maxDeliveries, batchCount;
    }

    function DlqName(): string {
      key.queue + ".DLQ"
    }

    function Letters(): seq<D>
      reads queue
    {
      var stream := StreamIn(queue.streams, DlqName());
      seq(|stream|, i requires 0 <= i < |stream| => stream[i].data)
    }

    function View(): Site<D>
      reads queue, records
    {
      Site(StreamIn(queue.streams, key.queue), GroupIn(queue.groups, key), records.committed, Letters(), records.notes,
           records.failed)
    }

    method AckMessage(id: nat)
      requires key in queue.groups
      modifies queue
      ensures View() == Settle(old(View()), id) && key in queue.groups && queue.streams == old(queue.streams)
    {
      queue.Ack(key, id);
    }

    method SendToDlq(m: Message<D>, why: ErrorClass, fate: DeadLetterFate) returns (outcome: Outcome)
      requires key in queue.groups
      modifies queue, records
      ensures (View(), outcome) == DeadLetter(old(View()), m, why, fate) && key in queue.groups
      ensures var letters, before := StreamIn(queue.streams, key.queue + ".DLQ"), old(StreamIn(queue.streams, key.queue + ".DLQ"));
              |letters| == |before| + 1 && letters[..|before|] == before && letters[|before|].data == m.data
    {
      var id := queue.Publish(DlqName(), m.data);
      assert |DlqName()| == |key.queue| + 4;
      assert Letters() == old(Letters()) + [m.data];
      assert StreamIn(queue.streams, DlqName()) == old(StreamIn(queue.streams, DlqName())) + [Entry(id, m.data)];
      if fate == CrashesAfterPublish {
        return Crashed;
      }
      records.notes := records.notes + [Note(m.seqId, m.deliveryCount, why)];
      if fate == CrashesAfterAudit {
        return Crashed;
      }
      AckMessage(m.seqId);
      outcome := Finished;
    }

    /** The body of the loop over the batch; an exception that escapes is `Raised`. */
    method Handle(m: Message<D>, fate: Fate) returns (outcome: Outcome)
      requires key in queue.groups
      modifies queue, records
      ensures (View(), outcome) == ProcessOne(old(View()), m, fate, maxDeliveries) && key in queue.groups
    {
      if m.deliveryCount > maxDeliveries {
        outcome := SendToDlq(m, MaxDeliveriesExceeded, fate.deadLetter);
        return;
      }
      if fate.handler == CrashesBeforeCommit {
        return Crashed;
      }
      if fate.handler == Raises {
        records.failed := records.failed + [m.seqId];
        if m.deliveryCount >= maxDeliveries {
          outcome := SendToDlq(m, HandlerError, fate.deadLetter);
        } else {
          outcome := Raised;
        }
        return;
      }
      records.committed := records.committed + [m.seqId];
      if fate.handler == CrashesBeforeAck {
        return Crashed;
      }
      AckMessage(m.seqId);
      outcome := Finished;
    }

    /** `run_once`. `processed` counts the messages acked. */
    method RunOnce(fates: seq<Fate>) returns (processed: nat, outcome: Outcome)
      modifies queue, records
      ensures (View(), outcome) == AfterCall(old(View()), batchCount, maxDeliveries, fates)
      ensures processed <= batchCount && (outcome == Finished ==> processed == |Batch(old(View()), batchCount)|)
      ensures processed == FinishedOf(Delivering(old(View()), batchCount), Batch(old(View()), batchCount), fates, maxDeliveries)
    {
      hide ProcessOne, Consumed, NextEntries, Delivered;
      BatchIsShort(View(), batchCount);
      var messages := queue.Consume(key, batchCount);
      ghost var start := View();
      assert messages == Batch(old(View()), batchCount);
      processed, outcome := 0, Finished;
      while processed < |messages|
        invariant processed <= |messages| && key in queue.groups && outcome == Finished
        invariant processed <= |fates|
        invariant ProcessBatch(View(), messages[processed..], fates[processed..], maxDeliveries)
               == ProcessBatch(start, messages, fates, maxDeliveries)
        invariant processed + FinishedOf(View(), messages[processed..], fates[processed..], maxDeliveries)
               == FinishedOf(start, messages, fates, maxDeliveries)
      {
        if processed == |fates| {
          return processed, Stopped;
        }
        outcome := Handle(messages[processed], fates[processed]);
        if outcome != Finished {
          return;
        }
        processed := processed + 1;
      }
    }

    /**
     `run_loop`: an exception in one call does not end the loop. A call after one that
     crashed or stopped is made by the worker started in its place.
     */
    method Loop(calls: seq<seq<Fate>>)
      modifies queue, records
      ensures View() == AfterCalls(old(View()), batchCount, maxDeliveries, calls)
    {
      var iterations := 0;
      while iterations < |calls|
        invariant iterations <= |calls|
        invariant AfterCalls(View(), batchCount, maxDeliveries, calls[iterations..])
               == AfterCalls(old(View()), batchCount, maxDeliveries, calls)
      {
        var n, outcome := RunOnce(calls[iterations]);
        iterations := iterations + 1;
      }
    }
  }
}
