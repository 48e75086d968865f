/**
 The in-memory broker (libs/queue/src/landqueue/testing.py): one stream per queue name, and
 per (queue, group) a cursor, the insertion-ordered table of unacked messages and the table
 of delivery counts. The source keeps these in three dictionaries with the same keys; here
 they are one record. Its fields `start` (what the group skipped when it was created) and
 `acked` (the ids it has acknowledged, in order) are history that no operation reads.
 */
module MessageQueue {

  datatype Entry<D> = Entry(seqId: nat, data: D)

  datatype Message<D> = Message(seqId: nat, data: D, deliveryCount: nat)

  datatype Group<D> = Group(start: nat, cursor: nat, pending: seq<Message<D>>, counts: map<nat, nat>, acked: seq<nat>)

  datatype GroupKey = GroupKey(queue: string, group: string)

  // ----- the operations on one group -----

  /** Python's `xs[lo:lo + n]`. */
  function Slice<T>(xs: seq<T>, lo: nat, n: nat): seq<T> {
    if |xs| <= lo then [] else if |xs| <= lo + n then xs[lo..] else xs[lo..lo + n]
  }

  function EntryOf<D>(m: Message<D>): Entry<D> {
    Entry(m.seqId, m.data)
  }

  function Entries<D>(ms: seq<Message<D>>): (r: seq<Entry<D>>)
    ensures |r| == |ms|
  {
    seq(|ms|, i requires 0 <= i < |ms| => EntryOf(ms[i]))
  }

  function Count(counts: map<nat, nat>, id: nat): nat {
    if id in counts then counts[id] else 0
  }

  /** The count table after a delivery of `es`. */
  function Tally<D>(counts: map<nat, nat>, es: seq<Entry<D>>): map<nat, nat> {
    if es == [] then counts
    else
      var n := |es| - 1;
      var before := Tally(counts, es[..n]);
      before[es[n].seqId := Count(before, es[n].seqId) + 1]
  }

  /** The messages handed out by a delivery of `es`, each with its new count. */
  function Delivered<D>(counts: map<nat, nat>, es: seq<Entry<D>>): (r: seq<Message<D>>)
    ensures |r| == |es|
  {
    if es == [] then []
    else
      var n := |es| - 1;
      Delivered(counts, es[..n]) + [Message(es[n].seqId, es[n].data, Count(Tally(counts, es[..n]), es[n].seqId) + 1)]
  }

  /** What `consume` delivers: the oldest unacked entries if there are any, else unread ones. */
  function NextEntries<D>(stream: seq<Entry<D>>, g: Group<D>, count: nat): seq<Entry<D>> {
    if g.pending != [] then Entries(Slice(g.pending, 0, count)) else Slice(stream, g.cursor, count)
  }

  function Consumed<D>(stream: seq<Entry<D>>, g: Group<D>, count: nat): Group<D> {
    var es := NextEntries(stream, g, count);
    var batch := Delivered(g.counts, es);
    if g.pending != [] then g.(pending := batch + g.pending[|batch|..], counts := Tally(g.counts, es))
    else g.(cursor := g.cursor + |es|, pending := batch, counts := Tally(g.counts, es))
  }

  function Without<D>(ms: seq<Message<D>>, id: nat): seq<Message<D>> {
    if ms == [] then []
    else
      var n := |ms| - 1;
      if ms[n].seqId == id then Without(ms[..n], id) else Without(ms[..n], id) + [ms[n]]
  }

  predicate IsPending<D>(ms: seq<Message<D>>, id: nat) {
    exists i :: 0 <= i < |ms| && ms[i].seqId == id
  }

  /** `ack`: a no-op for an id that is not pending. */
  function Acknowledged<D>(g: Group<D>, id: nat): Group<D> {
    if IsPending(g.pending, id) then g.(pending := Without(g.pending, id), acked := g.acked + [id]) else g
  }

  // ----- the broker -----

  datatype Broker<D> = Broker(streams: map<string, seq<Entry<D>>>, nextSeq: nat, groups: map<GroupKey, Group<D>>)

  datatype Op<D> =
    | Publish(queue: string, data: D)
    | EnsureGroup(key: GroupKey, fromStart: bool)
    | Consume(key: GroupKey, count: nat)
    | Ack(key: GroupKey, id: nat)

  function StreamIn<D>(streams: map<string, seq<Entry<D>>>, queue: string): seq<Entry<D>> {
    if queue in streams then streams[queue] else []
  }

  function NewGroup<D>(n: nat): Group<D> {
    Group(n, n, [], map[], [])
  }

  /** A group that does not exist yet reads from the beginning when first consumed. */
  function GroupIn<D>(groups: map<GroupKey, Group<D>>, key: GroupKey): Group<D> {
    if key in groups then groups[key] else NewGroup(0)
  }

  function Step<D>(b: Broker<D>, op: Op<D>): Broker<D> {
    match op
    case Publish(q, data) =>
      b.(streams := b.streams[q := StreamIn(b.streams, q) + [Entry(b.nextSeq + 1, data)]], nextSeq := b.nextSeq + 1)
    case EnsureGroup(key, fromStart) =>
      if key in b.groups then b
      else b.(groups := b.groups[key := NewGroup(if fromStart then 0 else |StreamIn(b.streams, key.queue)|)])
    case Consume(key, count) =>
      b.(groups := b.groups[key := Consumed(StreamIn(b.streams, key.queue), GroupIn(b.groups, key), count)])
    case Ack(key, id) =>
      if key in b.groups then b.(groups := b.groups[key := Acknowledged(b.groups[key], id)]) else b
  }

  /** One more entry delivered. */
  lemma NextDelivery<D>(counts: map<nat, nat>, es: seq<Entry<D>>, i: nat)
    requires i < |es|
    ensures var table, n := Tally(counts, es[..i]), Count(Tally(counts, es[..i]), es[i].seqId) + 1;
            && Tally(counts, es[..i + 1]) == table[es[i].seqId := n]
            && Delivered(counts, es[..i + 1]) == Delivered(counts, es[..i]) + [Message(es[i].seqId, es[i].data, n)]
  {
    assert es[..i + 1][..i] == es[..i];
  }

  /** The redelivery loop after `i` messages. */
  ghost predicate Redelivered<D>(pending: seq<Message<D>>, counts: map<nat, nat>, i: nat,
                           messages: seq<Message<D>>, pending': seq<Message<D>>, table: map<nat, nat>) {
    && i <= |pending| && |messages| == i
    && messages == Delivered(counts, Entries(pending)[..i]) && table == Tally(counts, Entries(pending)[..i])
    && pending' == messages + pending[i..]
  }

  lemma RedeliverNext<D>(pending: seq<Message<D>>, counts: map<nat, nat>, i: nat,
                         messages: seq<Message<D>>, pending': seq<Message<D>>, table: map<nat, nat>)
    requires i < |pending| == |pending'| && Redelivered(pending, counts, i, messages, pending', table)
    ensures var m, n := pending[i], Count(table, pending[i].seqId) + 1;
            var updated := Message(m.seqId, m.data, n);
            Redelivered(pending, counts, i + 1, messages + [updated], pending'[i := updated], table[m.seqId := n])
  {
    NextDelivery(counts, Entries(pending), i);
    hide Delivered, Tally;
    assert Entries(pending)[i] == EntryOf(pending[i]);
    Replace(messages, pending, i, Message(pending[i].seqId, pending[i].data, Count(table, pending[i].seqId) + 1));
  }

  lemma Replace<T>(done: seq<T>, all: seq<T>, i: nat, x: T)
    requires i < |all| && |done| == i
    ensures (done + all[i..])[i := x] == done + [x] + all[i + 1..]
  {
  }

  lemma NoneRedelivered<D>(pending: seq<Message<D>>, counts: map<nat, nat>)
    ensures Redelivered(pending, counts, 0, [], pending, counts)
  {
  }

  lemma RedeliverAll<D>(pending: seq<Message<D>>, counts: map<nat, nat>, count: nat,
                        messages: seq<Message<D>>, pending': seq<Message<D>>, table: map<nat, nat>)
    requires Redelivered(pending, counts, |Slice(pending, 0, count)|, messages, pending', table)
    ensures var es := Entries(Slice(pending, 0, count));
            && messages == Delivered(counts, es) && table == Tally(counts, es)
            && |messages| <= |pending| && pending' == messages + pending[|messages|..]
  {
    hide Delivered, Tally;
    var batch := Slice(pending, 0, count);
    assert Entries(pending)[..|batch|] == Entries(batch);
  }

  /** A delivery while messages are unacked. */
  lemma ConsumedAgain<D>(stream: seq<Entry<D>>, g: Group<D>, count: nat)
    requires g.pending != []
    ensures var es := Entries(Slice(g.pending, 0, count));
            && NextEntries(stream, g, count) == es && |es| <= |g.pending|
            && |es| == (if count < |g.pending| then count else |g.pending|)
            && Consumed(stream, g, count)
                 == g.(pending := Delivered(g.counts, es) + g.pending[|es|..], counts := Tally(g.counts, es))
  {
    hide Delivered, Tally;
  }

  /** A delivery of unread entries. */
  lemma ConsumedAnew<D>(stream: seq<Entry<D>>, g: Group<D>, count: nat)
    requires g.pending == []
    ensures var es := Slice(stream, g.cursor, count);
            && NextEntries(stream, g, count) == es
            && Consumed(stream, g, count)
                 == g.(cursor := g.cursor + |es|, pending := Delivered(g.counts, es), counts := Tally(g.counts, es))
  {
    hide Delivered, Tally;
  }

  /** A group that is created on the way changes nothing else. */
  lemma ConsumeFromGroup<D>(b: Broker<D>, key: GroupKey, count: nat)
    ensures var b', g, stream := Step(b, Op.EnsureGroup(key, true)), GroupIn(b.groups, key), StreamIn(b.streams, key.queue);
            && key in b'.groups && b'.groups[key] == g && b'.streams == b.streams && b'.nextSeq == b.nextSeq
            && Step(b, Op.Consume(key, count)) == b'.(groups := b'.groups[key := Consumed(stream, g, count)])
  {
    hide Consumed;
  }

  class InMemoryQueue<D> {
    var streams: map<string, seq<Entry<D>>>
    var nextSeq: nat
    var groups: map<GroupKey, Group<D>>

    constructor ()
      ensures Value() == Broker(map[], 0, map[])
    {
      streams, nextSeq, groups := map[], 0, map[];
    }

    function Value(): Broker<D>
      reads this
    {
      Broker(streams, nextSeq, groups)
    }

    method Publish(queue: string, data: D) returns (id: nat)
      modifies this
      ensures Value() == Step(old(Value()), Op.Publish(queue, data)) && id == nextSeq
    {
      nextSeq := nextSeq + 1;
      id := nextSeq;
      streams := streams[queue := StreamIn(streams, queue) + [Entry(id, data)]];
    }

    /** Idempotent. `fromStart` is `start == "0"`; otherwise the present backlog is skipped. */
    method EnsureGroup(key: GroupKey, fromStart: bool)
      modifies this
      ensures Value() == Step(old(Value()), Op.EnsureGroup(key, fromStart))
    {
      if key in groups {
        return;
      }
      groups := groups[key := NewGroup(if fromStart then 0 else |StreamIn(streams, key.queue)|)];
    }

    method Consume(key: GroupKey, count: nat) returns (messages: seq<Message<D>>)
      modifies this
      ensures Value() == Step(old(Value()), Op.Consume(key, count))
      ensures var g := GroupIn(old(groups), key);
              messages == Delivered(g.counts, NextEntries(StreamIn(old(streams), key.queue), g, count))
    {
      hide Consumed, NextEntries, Delivered, Tally, Slice;
      EnsureGroup(key, true);
      var g, stream := groups[key], StreamIn(streams, key.queue);
      ConsumeFromGroup(old(Value()), key, count);
      if g.pending != [] {
        ConsumedAgain(stream, g, count);
        var pending, table;
        messages, pending, table := Redeliver(g.pending, g.counts, count);
        groups := groups[key := g.(pending := pending, counts := table)];
      } else {
        ConsumedAnew(stream, g, count);
        var batch, table := Slice(stream, g.cursor, count), g.counts;
        messages, table := ReadOn(batch, table);
        groups := groups[key := g.(cursor := g.cursor + |batch|, pending := messages, counts := table)];
      }
    }

    /** The loop over the first pending messages: count, store the updated message, hand it out. */
    static method Redeliver(pending: seq<Message<D>>, counts: map<nat, nat>, count: nat)
      returns (messages: seq<Message<D>>, pending': seq<Message<D>>, table: map<nat, nat>)
      ensures var es := Entries(Slice(pending, 0, count));
              && messages == Delivered(counts, es) && table == Tally(counts, es)
              && pending' == messages + pending[|messages|..]
    {
      hide Delivered, Tally, Entries;
      messages, pending', table := [], pending, counts;
      var batch := Slice(pending, 0, count);
      NoneRedelivered(pending, counts);
      for i := 0 to |batch|
        invariant |pending'| == |pending| && Redelivered(pending, counts, i, messages, pending', table)
      {
        hide Redelivered;
        var m := batch[i];
        RedeliverNext(pending, counts, i, messages, pending', table);
        var n: nat := Count(table, m.seqId) + 1;
        table := table[m.seqId := n];
        var updated := Message(m.seqId, m.data, n);
        pending' := pending'[i := updated];
        messages := messages + [updated];
      }
      RedeliverAll(pending, counts, count, messages, pending', table);
    }

    /** The loop over the unread entries. */
    static method ReadOn(batch: seq<Entry<D>>, counts: map<nat, nat>)
      returns (messages: seq<Message<D>>, table: map<nat, nat>)
      ensures messages == Delivered(counts, batch) && table == Tally(counts, batch)
    {
      messages, table := [], counts;
      for i := 0 to |batch|
        invariant messages == Delivered(counts, batch[..i]) && table == Tally(counts, batch[..i])
      {
        NextDelivery(counts, batch, i);
        hide Delivered, Tally;
        var n: nat := Count(table, batch[i].seqId) + 1;
        table := table[batch[i].seqId := n];
        messages := messages + [Message(batch[i].seqId, batch[i].data, n)];
      }
      assert batch[..|batch|] == batch;
    }

    method Ack(key: GroupKey, id: nat)
      modifies this
      ensures Value() == Step(old(Value()), Op.Ack(key, id))
    {
      if key in groups {
        groups := groups[key := Acknowledged(groups[key], id)];
      }
    }

    method PendingCount(key: GroupKey) returns (n: nat)
      ensures n == |GroupIn(groups, key).pending|
    {
      n := if key in groups then |groups[key].pending| else 0;
    }
  }
}
