/**
 The transactional outbox and its relays (libs/outbox/src/landoutbox/writer.py, relay.py).
 A row's status carries the row lock that `FOR UPDATE SKIP LOCKED` holds through the batch,
 and, inside the transaction that holds it, whether the row was already published. `lost`
 counts the publications whose relay died before it could commit the mark.
 */
module OutboxRelay {
  import opened Wrappers
  import MessageQueue

  datatype Status = Free | Locked(relay: nat, sent: bool) | Dispatched

  datatype Row<D> = Row(queue: string, envelope: D, createdAt: int, status: Status, attempts: nat, lost: nat)

  datatype Publication<D> = Publication(row: nat, queue: string, envelope: D)

  /** The table, what reached the broker, and the rows of transactions still open. */
  datatype Outbox<D> = Outbox(rows: seq<Row<D>>, published: seq<Publication<D>>, open: map<nat, seq<Row<D>>>)

  // ----- what a relay does -----

  /** The oldest row of one status. */
  function Oldest<D>(rows: seq<Row<D>>, status: Status): (r: Option<nat>)
    ensures r.Some? ==> r.value < |rows| && rows[r.value].status == status
    ensures r.None? ==> forall i :: 0 <= i < |rows| ==> rows[i].status != status
    ensures r.Some? ==> forall i :: 0 <= i < |rows| && rows[i].status == status ==> rows[r.value].createdAt <= rows[i].createdAt
  {
    if rows == [] then None
    else
      var n := |rows| - 1;
      var earlier := Oldest(rows[..n], status);
      if rows[n].status == status && (earlier.None? || rows[n].createdAt < rows[earlier.value].createdAt) then Some(n)
      else earlier
  }

  function SetStatus<D>(rows: seq<Row<D>>, i: nat, status: Status): seq<Row<D>>
    requires i < |rows|
  {
    rows[i := rows[i].(status := status)]
  }

  /** `SELECT ... WHERE NOT dispatched ORDER BY created_at LIMIT size FOR UPDATE SKIP LOCKED`. */
  function LockBatch<D>(rows: seq<Row<D>>, relay: nat, size: nat): (r: seq<Row<D>>)
    ensures |r| == |rows|
    decreases size
  {
    var next := Oldest(rows, Free);
    if size == 0 || next.None? then rows
    else LockBatch(SetStatus(rows, next.value, Locked(relay, false)), relay, size - 1)
  }

  /** Publish the oldest row of the batch that is not published yet. */
  function PublishNext<D>(o: Outbox<D>, relay: nat): Outbox<D> {
    var next := Oldest(o.rows, Locked(relay, false));
    if next.None? then o
    else
      var row := o.rows[next.value];
      o.(rows := SetStatus(o.rows, next.value, Locked(relay, true)),
         published := o.published + [Publication(next.value, row.queue, row.envelope)])
  }

  /** The commit at the end of the batch marks and releases every row of it. */
  function Mark<D>(row: Row<D>, relay: nat): Row<D> {
    if row.status.Locked? && row.status.relay == relay then row.(status := Dispatched, attempts := row.attempts + 1) else row
  }

  function MarkAll<D>(rows: seq<Row<D>>, relay: nat): (r: seq<Row<D>>)
    ensures |r| == |rows|
  {
    seq(|rows|, i requires 0 <= i < |rows| => Mark(rows[i], relay))
  }

  /** A relay that dies rolls its transaction back: its rows are free again, its publications stay. */
  function Release<D>(row: Row<D>, relay: nat): Row<D> {
    if row.status.Locked? && row.status.relay == relay then
      row.(status := Free, lost := row.lost + if row.status.sent then 1 else 0)
    else row
  }

  function ReleaseAll<D>(rows: seq<Row<D>>, relay: nat): (r: seq<Row<D>>)
    ensures |r| == |rows|
  {
    seq(|rows|, i requires 0 <= i < |rows| => Release(rows[i], relay))
  }

  // ----- any number of relays and writers -----

  datatype Step<D> =
    | Stage(txn: nat, queue: string, envelope: D, createdAt: int)   // `write()`
    | CommitWriter(txn: nat)
    | AbortWriter(txn: nat)
    | Begin(relay: nat, size: nat)
    | Publish(relay: nat)
    | CommitRelay(relay: nat)
    | Crash(relay: nat)

  function Apply<D>(o: Outbox<D>, step: Step<D>): Outbox<D> {
    match step
    case Stage(t, queue, envelope, at) =>
      var staged := if t in o.open then o.open[t] else [];
      o.(open := o.open[t := staged + [Row(queue, envelope, at, Free, 0, 0)]])
    case CommitWriter(t) =>
      if t in o.open then o.(rows := o.rows + o.open[t], open := o.open - {t}) else o
    case AbortWriter(t) => o.(open := o.open - {t})
    case Begin(r, size) => o.(rows := LockBatch(o.rows, r, size))
    case Publish(r) => PublishNext(o, r)
    case CommitRelay(r) =>
      if Oldest(o.rows, Locked(r, false)).Some? then o else o.(rows := MarkAll(o.rows, r))
    case Crash(r) => o.(rows := ReleaseAll(o.rows, r))
  }

  function Run<D>(o: Outbox<D>, steps: seq<Step<D>>): Outbox<D>
    decreases |steps|
  {
    if steps == [] then o else Run(Apply(o, steps[0]), steps[1..])
  }

  /** How often a row was published. */
  function Times<D>(published: seq<Publication<D>>, row: nat): nat {
    if published == [] then 0
    else Times(published[..|published| - 1], row) + if published[|published| - 1].row == row then 1 else 0
  }

  predicate IsSent(s: Status) {
    s.Dispatched? || (s.Locked? && s.sent)
  }

  /** A row was published once for the mark it has or is about to get, and once for each crash in between. */
  ghost predicate RowOk<D>(o: Outbox<D>, i: nat)
    requires i < |o.rows|
  {
    && Times(o.published, i) == o.rows[i].lost + (if IsSent(o.rows[i].status) then 1 else 0)
    && o.rows[i].attempts == if o.rows[i].status.Dispatched? then 1 else 0
  }

  /** Only committed rows are published, each to its own queue with its own envelope. */
  ghost predicate PublicationsOk<D>(o: Outbox<D>) {
    forall p :: p in o.published ==>
      p.row < |o.rows| && p.queue == o.rows[p.row].queue && p.envelope == o.rows[p.row].envelope
  }

  ghost predicate StagedOk<D>(o: Outbox<D>) {
    forall t, i :: t in o.open && 0 <= i < |o.open[t]| ==>
      o.open[t][i].status == Free && o.open[t][i].attempts == o.open[t][i].lost == 0
  }

  ghost predicate Ok<D>(o: Outbox<D>) {
    && PublicationsOk(o) && StagedOk(o)
    && forall i :: 0 <= i < |o.rows| ==> RowOk(o, i)
  }

  // ----- proofs -----

  /** Locking changes statuses from free to locked and nothing else. */
  lemma {:induction false} LockingOnlyLocks<D>(rows: seq<Row<D>>, relay: nat, size: nat, i: nat)
    requires i < |rows|
    ensures var row, row' := rows[i], LockBatch(rows, relay, size)[i];
            row' == row || (row.status == Free && row' == row.(status := Locked(relay, false)))
    decreases size
  {
    var next := Oldest(rows, Free);
    if size > 0 && next.Some? {
      LockingOnlyLocks(SetStatus(rows, next.value, Locked(relay, false)), relay, size - 1, i);
    }
  }

  lemma TimesSnoc<D>(published: seq<Publication<D>>, p: Publication<D>, i: nat)
    ensures Times(published + [p], i) == Times(published, i) + if p.row == i then 1 else 0
  {
    assert (published + [p])[..|published|] == published;
  }

  lemma {:induction false} NeverPublished<D>(published: seq<Publication<D>>, i: nat)
    requires forall p :: p in published ==> p.row != i
    ensures Times(published, i) == 0
  {
    if published != [] {
      NeverPublished(published[..|published| - 1], i);
    }
  }

  lemma PublishKeepsRow<D>(o: Outbox<D>, relay: nat, i: nat)
    requires i < |o.rows| && RowOk(o, i)
    ensures RowOk(PublishNext(o, relay), i)
    ensures PublishNext(o, relay).rows[i] == o.rows[i].(status := PublishNext(o, relay).rows[i].status)
  {
    var next := Oldest(o.rows, Locked(relay, false));
    if next.Some? {
      var row := o.rows[next.value];
      TimesSnoc(o.published, Publication(next.value, row.queue, row.envelope), i);
    }
  }

  lemma StepKeepsRow<D>(o: Outbox<D>, step: Step<D>, i: nat)
    requires Ok(o) && i < |Apply(o, step).rows|
    ensures RowOk(Apply(o, step), i)
    ensures i < |o.rows| ==>
              var row, row' := o.rows[i], Apply(o, step).rows[i];
              && row'.queue == row.queue && row'.envelope == row.envelope
              && row'.lost >= row.lost && (row'.lost > row.lost ==> step.Crash?)
              && (row.status.Dispatched? ==> row' == row)
  {
    hide PublicationsOk, StagedOk;
    if i < |o.rows| {
      assert RowOk(o, i);
    }
    match step
    case Begin(r, size) => LockingOnlyLocks(o.rows, r, size, i);
    case Publish(r) => PublishKeepsRow(o, r, i);
    case CommitWriter(t) =>
      if i >= |o.rows| {
        NewRowIsOk(o, t, i);
      } else {
        assert Apply(o, step).rows[i] == o.rows[i] && Apply(o, step).published == o.published;
      }
    case _ =>
  }

  // ----- what each step does to the rows -----

  /** The rows a relay takes are the oldest: no row that stays free is older than one that was taken. */
  lemma {:induction false} OldestAreTaken<D>(rows: seq<Row<D>>, relay: nat, size: nat, i: nat, j: nat)
    requires i < |rows| && j < |rows| && rows[i].status == rows[j].status == Free
    requires LockBatch(rows, relay, size)[i].status != Free && LockBatch(rows, relay, size)[j].status == Free
    ensures rows[i].createdAt <= rows[j].createdAt
    decreases size
  {
    var next := Oldest(rows, Free);
    if size > 0 && next.Some? {
      var rows' := SetStatus(rows, next.value, Locked(relay, false));
      if next.value == j {
        LockingOnlyLocks(rows', relay, size - 1, j);
      } else if next.value != i {
        OldestAreTaken(rows', relay, size - 1, i, j);
      }
    }
  }

  /** A publication is of the relay's oldest row not yet sent, to that row's queue, with its envelope. */
  lemma PublishWrites<D>(o: Outbox<D>, relay: nat)
    ensures var o' := PublishNext(o, relay);
            if forall i :: 0 <= i < |o.rows| ==> o.rows[i].status != Locked(relay, false) then o' == o
            else exists i :: 0 <= i < |o.rows| && o.rows[i].status == Locked(relay, false)
                   && (forall j :: 0 <= j < |o.rows| && o.rows[j].status == Locked(relay, false) ==>
                         o.rows[i].createdAt <= o.rows[j].createdAt)
                   && o' == o.(rows := o.rows[i := o.rows[i].(status := Locked(relay, true))],
                               published := o.published + [Publication(i, o.rows[i].queue, o.rows[i].envelope)])
  {
    hide Oldest;
  }

  /** A relay that dies frees its rows and no others; what it published of them stays published, and is lost to the mark. */
  lemma CrashWrites<D>(o: Outbox<D>, relay: nat)
    ensures var o' := Apply(o, Crash(relay));
            && o' == o.(rows := o'.rows) && |o'.rows| == |o.rows|
            && forall i :: 0 <= i < |o.rows| ==>
                 o'.rows[i] == match o.rows[i].status
                               case Locked(r, sent) =>
                                 if r == relay then
                                   o.rows[i].(status := Free, lost := if sent then o.rows[i].lost + 1 else o.rows[i].lost)
                                 else o.rows[i]
                               case _ => o.rows[i]
  {
  }

  /** A relay commits when it has published its whole batch; then exactly its rows are dispatched. */
  lemma CommitWrites<D>(o: Outbox<D>, relay: nat)
    ensures var o' := Apply(o, CommitRelay(relay));
            && o' == o.(rows := o'.rows) && |o'.rows| == |o.rows|
            && ((exists i :: 0 <= i < |o.rows| && o.rows[i].status == Locked(relay, false)) ==> o' == o)
            && ((forall i :: 0 <= i < |o.rows| ==> o.rows[i].status != Locked(relay, false)) ==>
                  forall i :: 0 <= i < |o.rows| ==>
                    o'.rows[i] == if o.rows[i].status == Locked(relay, true) then
                                    o.rows[i].(status := Dispatched, attempts := o.rows[i].attempts + 1)
                                  else o.rows[i])
  {
    hide Oldest;
    assert forall i :: 0 <= i < |o.rows| && o.rows[i].status.Locked? ==>
             o.rows[i].status == Locked(o.rows[i].status.relay, true) || o.rows[i].status == Locked(o.rows[i].status.relay, false);
  }

  /** What a writer stages becomes rows when it commits, in its order, and nothing when it aborts. */
  lemma WriterWrites<D>(o: Outbox<D>, t: nat, queue: string, envelope: D, at: int)
    ensures var staged := Apply(o, Stage(t, queue, envelope, at));
            && staged.rows == o.rows && staged.published == o.published
            && (forall u :: u in staged.open <==> u in o.open || u == t)
            && (forall u :: u in o.open && u != t ==> staged.open[u] == o.open[u])
            && staged.open[t] == (if t in o.open then o.open[t] else []) + [Row(queue, envelope, at, Free, 0, 0)]
    ensures var committed := Apply(o, CommitWriter(t));
            && committed.rows == (if t in o.open then o.rows + o.open[t] else o.rows)
            && committed.published == o.published && committed.open == o.open - {t}
    ensures Apply(o, AbortWriter(t)) == Outbox(o.rows, o.published, o.open - {t})
  {
    assert t !in o.open ==> o.open - {t} == o.open;
  }

  lemma NewRowIsOk<D>(o: Outbox<D>, t: nat, i: nat)
    requires Ok(o) && t in o.open && |o.rows| <= i < |o.rows| + |o.open[t]|
    ensures RowOk(Apply(o, CommitWriter(t)), i)
  {
    NeverPublished(o.published, i);
    assert Apply(o, CommitWriter(t)).rows[i] == o.open[t][i - |o.rows|];
  }

  lemma StepKeepsOk<D>(o: Outbox<D>, step: Step<D>)
    requires Ok(o)
    ensures Ok(Apply(o, step)) && |Apply(o, step).rows| >= |o.rows|
  {
    hide RowOk;
    var o' := Apply(o, step);
    forall i | 0 <= i < |o'.rows|
      ensures RowOk(o', i)
      ensures i < |o.rows| ==> o'.rows[i].queue == o.rows[i].queue && o'.rows[i].envelope == o.rows[i].envelope
    {
      StepKeepsRow(o, step, i);
    }
    assert StagedOk(o');
  }

  /**
   Over every run of writers and interleaved relays, with crashes anywhere: only committed
   rows are published, each to its own queue with its own envelope; a dispatched row was
   published, exactly once more than relays died after publishing it; and a row once
   dispatched never changes again.
   */
  lemma {:induction false} RunsPublishRows<D>(o: Outbox<D>, steps: seq<Step<D>>)
    requires Ok(o)
    ensures Ok(Run(o, steps)) && |Run(o, steps).rows| >= |o.rows|
    decreases |steps|
  {
    hide Ok, Apply;
    if steps != [] {
      StepKeepsOk(o, steps[0]);
      RunsPublishRows(Apply(o, steps[0]), steps[1..]);
    }
  }

  /** No row carries a lost publication. */
  ghost predicate NothingLost<D>(o: Outbox<D>) {
    && (forall i :: 0 <= i < |o.rows| ==> o.rows[i].lost == 0)
  }

  lemma StepLosesNothing<D>(o: Outbox<D>, step: Step<D>)
    requires Ok(o) && NothingLost(o) && !step.Crash?
    ensures NothingLost(Apply(o, step))
  {
    hide RowOk;
    var o' := Apply(o, step);
    forall i | 0 <= i < |o'.rows| ensures o'.rows[i].lost == 0 {
      if i < |o.rows| {
        StepKeepsRow(o, step, i);
      } else {
        assert o'.rows[i] == o.open[step.txn][i - |o.rows|];
      }
    }
  }

  /** Without crashes every row is published exactly once when it is dispatched, and not before it is sent. */
  lemma {:induction false} NoCrashExactlyOnce<D>(o: Outbox<D>, steps: seq<Step<D>>, i: nat)
    requires Ok(o) && NothingLost(o) && forall k :: 0 <= k < |steps| ==> !steps[k].Crash?
    requires i < |Run(o, steps).rows|
    ensures Times(Run(o, steps).published, i) == if IsSent(Run(o, steps).rows[i].status) then 1 else 0
    decreases |steps|
  {
    hide Apply;
    if steps == [] {
      assert RowOk(o, i);
    } else {
      StepKeepsOk(o, steps[0]);
      StepLosesNothing(o, steps[0]);
      NoCrashExactlyOnce(Apply(o, steps[0]), steps[1..], i);
    }
  }

  // ----- one drain -----

  function CountOf<D>(rows: seq<Row<D>>, status: Status): nat {
    if rows == [] then 0
    else CountOf(rows[..|rows| - 1], status) + if rows[|rows| - 1].status == status then 1 else 0
  }

  function Undispatched<D>(rows: seq<Row<D>>): int {
    |rows| - CountOf(rows, Dispatched)
  }

  lemma {:induction false} CountAfterSet<D>(rows: seq<Row<D>>, i: nat, status: Status, x: Status)
    requires i < |rows|
    ensures CountOf(SetStatus(rows, i, status), x) ==
            CountOf(rows, x) - (if rows[i].status == x then 1 else 0) + (if status == x then 1 else 0)
  {
    var n := |rows| - 1;
    if i == n {
      assert SetStatus(rows, i, status)[..n] == rows[..n];
    } else {
      assert SetStatus(rows, i, status)[..n] == SetStatus(rows[..n], i, status);
      CountAfterSet(rows[..n], i, status, x);
    }
  }

  lemma {:induction false} CountPositive<D>(rows: seq<Row<D>>, status: Status)
    ensures CountOf(rows, status) > 0 <==> Oldest(rows, status).Some?
  {
    if rows != [] {
      CountPositive(rows[..|rows| - 1], status);
    }
  }

  /** The batch takes as many free rows as its size allows. */
  lemma {:induction false} LockBatchCounts<D>(rows: seq<Row<D>>, relay: nat, size: nat)
    ensures var rows', n := LockBatch(rows, relay, size), Least(size, CountOf(rows, Free));
            && CountOf(rows', Locked(relay, false)) == CountOf(rows, Locked(relay, false)) + n
            && CountOf(rows', Locked(relay, true)) == CountOf(rows, Locked(relay, true))
            && CountOf(rows', Dispatched) == CountOf(rows, Dispatched)
    decreases size
  {
    CountPositive(rows, Free);
    var next := Oldest(rows, Free);
    if size > 0 && next.Some? {
      CountAfterSet(rows, next.value, Locked(relay, false), Free);
      CountAfterSet(rows, next.value, Locked(relay, false), Locked(relay, false));
      CountAfterSet(rows, next.value, Locked(relay, false), Locked(relay, true));
      CountAfterSet(rows, next.value, Locked(relay, false), Dispatched);
      LockBatchCounts(SetStatus(rows, next.value, Locked(relay, false)), relay, size - 1);
    }
  }

  lemma {:induction false} MarkAllCounts<D>(rows: seq<Row<D>>, relay: nat)
    ensures CountOf(MarkAll(rows, relay), Dispatched) ==
            CountOf(rows, Dispatched) + CountOf(rows, Locked(relay, false)) + CountOf(rows, Locked(relay, true))
  {
    if rows != [] {
      MarkAllCounts(rows[..|rows| - 1], relay);
      assert MarkAll(rows, relay)[..|rows| - 1] == MarkAll(rows[..|rows| - 1], relay);
    }
  }

  /** The broker after a list of publications. */
  function Deliver<D>(b: MessageQueue.Broker<D>, ps: seq<Publication<D>>): MessageQueue.Broker<D> {
    if ps == [] then b
    else
      var last := ps[|ps| - 1];
      MessageQueue.Step(Deliver(b, ps[..|ps| - 1]), MessageQueue.Op.Publish(last.queue, last.envelope))
  }

  function Publishes<D>(relay: nat, n: nat): seq<Step<D>> {
    seq(n, _ => Publish(relay))
  }

  /** One drain that runs to its end: the batch is taken, published row by row, and marked. */
  function Drained<D>(o: Outbox<D>, relay: nat, size: nat): Outbox<D> {
    Apply(Run(Apply(o, Begin(relay, size)), Publishes(relay, Least(size, CountOf(o.rows, Free)))), CommitRelay(relay))
  }

  /** Publishing one row: what it adds, and how the statuses move. */
  lemma PublishNextCounts<D>(o: Outbox<D>, relay: nat)
    requires CountOf(o.rows, Locked(relay, false)) > 0
    ensures var o', next := PublishNext(o, relay), Oldest(o.rows, Locked(relay, false));
            && next.Some? && |o'.rows| == |o.rows|
            && o'.published == o.published + [Publication(next.value, o.rows[next.value].queue, o.rows[next.value].envelope)]
            && CountOf(o'.rows, Locked(relay, false)) == CountOf(o.rows, Locked(relay, false)) - 1
            && CountOf(o'.rows, Locked(relay, true)) == CountOf(o.rows, Locked(relay, true)) + 1
            && CountOf(o'.rows, Dispatched) == CountOf(o.rows, Dispatched)
  {
    CountPositive(o.rows, Locked(relay, false));
    var i := Oldest(o.rows, Locked(relay, false)).value;
    CountAfterSet(o.rows, i, Locked(relay, true), Locked(relay, false));
    CountAfterSet(o.rows, i, Locked(relay, true), Locked(relay, true));
    CountAfterSet(o.rows, i, Locked(relay, true), Dispatched);
    hide CountOf;
  }

  lemma DeliverSnoc<D>(b: MessageQueue.Broker<D>, ps: seq<Publication<D>>, p: Publication<D>)
    ensures Deliver(b, ps + [p]) == MessageQueue.Step(Deliver(b, ps), MessageQueue.Op.Publish(p.queue, p.envelope))
  {
    assert (ps + [p])[..|ps|] == ps;
  }

  class OutboxTable<D> {
    var o: Outbox<D>
  }

  class Relay<D> {
    const id: nat
    const table: OutboxTable<D>
    const queue: MessageQueue.InMemoryQueue<D>

    constructor (id: nat, table: OutboxTable<D>, queue: MessageQueue.InMemoryQueue<D>)
      ensures this.id == id && this.table == table && this.queue == queue
    {
      this.id, this.table, this.queue := id, table, queue;
    }

    /**
     `drain_once`, in one piece: a `Begin`, one `Publish` for each row of the batch and a
     `CommitRelay`; what it published is what the broker received, in order; and the
     undispatched rows become fewer by exactly the number it returns.
     */
    method DrainOnce(batchSize: nat) returns (dispatched: nat)
      requires CountOf(table.o.rows, Locked(id, false)) == CountOf(table.o.rows, Locked(id, true)) == 0
      modifies table, queue
      ensures dispatched == Least(batchSize, CountOf(old(table.o).rows, Free))
      ensures Undispatched(table.o.rows) == Undispatched(old(table.o).rows) - dispatched
      ensures table.o == Drained(old(table.o), id, batchSize)
      ensures old(table.o).published <= table.o.published
      ensures |table.o.published| == |old(table.o).published| + dispatched
      ensures queue.Value() == Deliver(old(queue.Value()), table.o.published[|old(table.o).published|..])
    {
      hide CountOf, LockBatch, MarkAll, Run, PublishNext, Deliver, MessageQueue.Step;
      assert Publishes<D>(id, 0) == [];
      RunNothing(Apply(table.o, Begin(id, batchSize)));
      LockBatchCounts(table.o.rows, id, batchSize);
      table.o := table.o.(rows := LockBatch(table.o.rows, id, batchSize));
      ghost var begun := table.o;
      assert begun.published[|begun.published|..] == [];
      NothingDelivered(queue.Value());
      var next := Oldest(table.o.rows, Locked(id, false));
      dispatched := 0;
      while next.Some?
        invariant next == Oldest(table.o.rows, Locked(id, false))
        invariant table.o == Run(begun, Publishes(id, dispatched))
        invariant begun.published <= table.o.published && |table.o.published| == |begun.published| + dispatched
        invariant queue.Value() == Deliver(old(queue.Value()), table.o.published[|begun.published|..])
        invariant CountOf(table.o.rows, Locked(id, false)) + dispatched == CountOf(begun.rows, Locked(id, false))
        invariant CountOf(table.o.rows, Locked(id, true)) == dispatched
        invariant CountOf(table.o.rows, Dispatched) == CountOf(begun.rows, Dispatched)
        invariant |table.o.rows| == |begun.rows|
        decreases CountOf(table.o.rows, Locked(id, false))
      {
        var row := table.o.rows[next.value];
        ghost var before := table.o.published[|begun.published|..];
        ghost var p := Publication(next.value, row.queue, row.envelope);
        CountPositive(table.o.rows, Locked(id, false));
        PublishNextCounts(table.o, id);
        RunOneMore(begun, id, dispatched);
        DeliverSnoc(old(queue.Value()), before, p);
        var seqId := queue.Publish(row.queue, row.envelope);
        table.o := PublishNext(table.o, id);
        assert table.o.published[|begun.published|..] == before + [p];
        dispatched := dispatched + 1;
        next := Oldest(table.o.rows, Locked(id, false));
      }
      CountPositive(table.o.rows, Locked(id, false));
      MarkAllCounts(table.o.rows, id);
      table.o := table.o.(rows := MarkAll(table.o.rows, id));
    }
  }

  lemma NothingDelivered<D>(b: MessageQueue.Broker<D>)
    ensures Deliver(b, []) == b
  {
  }

  lemma RunNothing<D>(o: Outbox<D>)
    ensures Run(o, []) == o
  {
  }

  lemma {:induction false} RunSnoc<D>(o: Outbox<D>, steps: seq<Step<D>>, step: Step<D>)
    ensures Run(o, steps + [step]) == Apply(Run(o, steps), step)
    decreases |steps|
  {
    hide Apply;
    if steps == [] {
      assert [step][1..] == [];
      assert Run(Apply(o, step), []) == Apply(o, step);
      assert steps + [step] == [step];
    } else {
      assert (steps + [step])[1..] == steps[1..] + [step];
      RunSnoc(Apply(o, steps[0]), steps[1..], step);
    }
  }

  lemma RunOneMore<D>(o: Outbox<D>, relay: nat, n: nat)
    ensures Run(o, Publishes(relay, n + 1)) == PublishNext(Run(o, Publishes(relay, n)), relay)
  {
    assert Publishes<D>(relay, n + 1) == Publishes(relay, n) + [Publish(relay)];
    RunSnoc(o, Publishes(relay, n), Publish(relay));
  }

  // ----- enough drains -----

  function Drains<D>(o: Outbox<D>, relay: nat, sizes: seq<nat>): Outbox<D>
    decreases |sizes|
  {
    if sizes == [] then o else Drains(Drained(o, relay, sizes[0]), relay, sizes[1..])
  }

  /** Nobody but this relay holds a row. */
  ghost predicate OnlyHeldBy<D>(rows: seq<Row<D>>, relay: nat) {
    forall i :: 0 <= i < |rows| ==> rows[i].status in {Free, Dispatched, Locked(relay, false), Locked(relay, true)}
  }

  ghost predicate NothingHeld<D>(rows: seq<Row<D>>) {
    forall i :: 0 <= i < |rows| ==> rows[i].status in {Free, Dispatched}
  }

  lemma {:induction false} CountsAddUp<D>(rows: seq<Row<D>>, relay: nat)
    requires OnlyHeldBy(rows, relay)
    ensures CountOf(rows, Free) + CountOf(rows, Dispatched)
            + CountOf(rows, Locked(relay, false)) + CountOf(rows, Locked(relay, true)) == |rows|
  {
    if rows != [] {
      assert OnlyHeldBy(rows[..|rows| - 1], relay);
      CountsAddUp(rows[..|rows| - 1], relay);
    }
  }

  lemma {:induction false} LockBatchHolds<D>(rows: seq<Row<D>>, relay: nat, size: nat)
    requires OnlyHeldBy(rows, relay)
    ensures OnlyHeldBy(LockBatch(rows, relay, size), relay)
    decreases size
  {
    var next := Oldest(rows, Free);
    if size > 0 && next.Some? {
      LockBatchHolds(SetStatus(rows, next.value, Locked(relay, false)), relay, size - 1);
    }
  }

  /** Publishing takes one held row after the other, and frees or dispatches none. */
  lemma {:induction false} PublishesCounts<D>(o: Outbox<D>, relay: nat, n: nat)
    requires OnlyHeldBy(o.rows, relay) && n <= CountOf(o.rows, Locked(relay, false))
    ensures var o' := Run(o, Publishes(relay, n));
            && OnlyHeldBy(o'.rows, relay) && |o'.rows| == |o.rows|
            && CountOf(o'.rows, Locked(relay, false)) == CountOf(o.rows, Locked(relay, false)) - n
            && CountOf(o'.rows, Locked(relay, true)) == CountOf(o.rows, Locked(relay, true)) + n
            && CountOf(o'.rows, Dispatched) == CountOf(o.rows, Dispatched)
  {
    hide CountOf, Run;
    if n == 0 {
      assert Publishes<D>(relay, 0) == [];
      RunNothing(o);
    } else {
      PublishesCounts(o, relay, n - 1);
      RunOneMore(o, relay, n - 1);
      PublishNextCounts(Run(o, Publishes(relay, n - 1)), relay);
      PublishNextHolds(Run(o, Publishes(relay, n - 1)), relay);
      hide PublishNext;
    }
  }

  lemma PublishNextHolds<D>(o: Outbox<D>, relay: nat)
    requires OnlyHeldBy(o.rows, relay)
    ensures OnlyHeldBy(PublishNext(o, relay).rows, relay)
  {
  }

  lemma CommitReleases<D>(o: Outbox<D>, relay: nat)
    requires OnlyHeldBy(o.rows, relay) && CountOf(o.rows, Locked(relay, false)) == 0
    ensures var o' := Apply(o, CommitRelay(relay));
            NothingHeld(o'.rows) && |o'.rows| == |o.rows|
            && CountOf(o'.rows, Dispatched) == CountOf(o.rows, Dispatched) + CountOf(o.rows, Locked(relay, true))
  {
    CountPositive(o.rows, Locked(relay, false));
    MarkAllCounts(o.rows, relay);
    hide CountOf;
  }

  lemma {:induction false} NobodyHolds<D>(rows: seq<Row<D>>, relay: nat)
    requires NothingHeld(rows)
    ensures CountOf(rows, Locked(relay, false)) == CountOf(rows, Locked(relay, true)) == 0
  {
    if rows != [] {
      assert NothingHeld(rows[..|rows| - 1]);
      NobodyHolds(rows[..|rows| - 1], relay);
    }
  }

  /** One drain dispatches as many rows as its batch allows, and holds none afterwards. */
  lemma DrainedCounts<D>(o: Outbox<D>, relay: nat, size: nat)
    requires NothingHeld(o.rows)
    ensures var o', n := Drained(o, relay, size), Least(size, CountOf(o.rows, Free));
            NothingHeld(o'.rows) && |o'.rows| == |o.rows| && CountOf(o'.rows, Free) == CountOf(o.rows, Free) - n
  {
    hide CountOf, Run, LockBatch, MarkAll;
    var n := Least(size, CountOf(o.rows, Free));
    NobodyHolds(o.rows, relay);
    CountsAddUp(o.rows, relay);
    LockBatchCounts(o.rows, relay, size);
    LockBatchHolds(o.rows, relay, size);
    PublishesCounts(Apply(o, Begin(relay, size)), relay, n);
    var sent := Run(Apply(o, Begin(relay, size)), Publishes(relay, n));
    CommitReleases(sent, relay);
    NobodyHolds(Apply(sent, CommitRelay(relay)).rows, relay);
    CountsAddUp(Apply(sent, CommitRelay(relay)).rows, relay);
  }

  lemma DrainedKeepsOk<D>(o: Outbox<D>, relay: nat, size: nat)
    requires Ok(o)
    ensures Ok(Drained(o, relay, size)) && (NothingLost(o) ==> NothingLost(Drained(o, relay, size)))
  {
    hide Apply, Run, Ok, NothingLost;
    var n := Least(size, CountOf(o.rows, Free));
    var begun := Apply(o, Begin(relay, size));
    StepKeepsOk(o, Begin(relay, size));
    RunsPublishRows(begun, Publishes(relay, n));
    StepKeepsOk(Run(begun, Publishes(relay, n)), CommitRelay(relay));
    if NothingLost(o) {
      StepLosesNothing(o, Begin(relay, size));
      RunsLoseNothing(begun, Publishes(relay, n));
      StepLosesNothing(Run(begun, Publishes(relay, n)), CommitRelay(relay));
    }
  }

  lemma {:induction false} RunsLoseNothing<D>(o: Outbox<D>, steps: seq<Step<D>>)
    requires Ok(o) && NothingLost(o) && forall k :: 0 <= k < |steps| ==> !steps[k].Crash?
    ensures NothingLost(Run(o, steps))
    decreases |steps|
  {
    hide Apply, Ok, NothingLost;
    if steps != [] {
      StepKeepsOk(o, steps[0]);
      StepLosesNothing(o, steps[0]);
      RunsLoseNothing(Apply(o, steps[0]), steps[1..]);
    }
  }

  lemma {:induction false} DrainsCount<D>(o: Outbox<D>, relay: nat, sizes: seq<nat>)
    requires Ok(o) && NothingHeld(o.rows) && forall k :: 0 <= k < |sizes| ==> sizes[k] >= 1
    requires |sizes| >= CountOf(o.rows, Free)
    ensures var end := Drains(o, relay, sizes);
            && Ok(end) && NothingHeld(end.rows) && |end.rows| == |o.rows| && CountOf(end.rows, Free) == 0
            && (NothingLost(o) ==> NothingLost(end))
    decreases |sizes|
  {
    hide Ok, NothingHeld, NothingLost, Drained, CountOf;
    if sizes != [] {
      DrainedCounts(o, relay, sizes[0]);
      DrainedKeepsOk(o, relay, sizes[0]);
      DrainsCount(Drained(o, relay, sizes[0]), relay, sizes[1..]);
    }
  }

  /**
   Without new rows, as many drains as there are undispatched rows, each of at least one row,
   dispatch every row, whatever crashed before them. Each row was then published once for its
   mark and once for each relay that died holding it published: exactly once when none did.
   */
  lemma DrainsDispatchAll<D>(o: Outbox<D>, relay: nat, sizes: seq<nat>, i: nat)
    requires Ok(o) && NothingHeld(o.rows) && forall k :: 0 <= k < |sizes| ==> sizes[k] >= 1
    requires |sizes| >= CountOf(o.rows, Free) && i < |o.rows|
    ensures var end := Drains(o, relay, sizes);
            && i < |end.rows| && end.rows[i].status == Dispatched && Times(end.published, i) == end.rows[i].lost + 1
            && (NothingLost(o) ==> Times(end.published, i) == 1)
  {
    DrainsCount(o, relay, sizes);
    var end := Drains(o, relay, sizes);
    CountPositive(end.rows, Free);
    hide Drains, CountOf;
    assert RowOk(end, i);
    assert end.rows[i].status in {Free, Dispatched};
  }
}
