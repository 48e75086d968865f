/** What the broker's operations keep, for every queue, every group and every run. */
module MessageQueueProofs {
  import opened MessageQueue

  /** The entries not acknowledged yet, in stream order. */
  function Unacked<D>(es: seq<Entry<D>>, acked: seq<nat>): seq<Entry<D>> {
    if es == [] then []
    else
      var n := |es| - 1;
      Unacked(es[..n], acked) + if es[n].seqId in acked then [] else [es[n]]
  }

  ghost predicate IdsIncrease<D>(es: seq<Entry<D>>) {
    forall i, j :: 0 <= i < j < |es| ==> es[i].seqId < es[j].seqId
  }

  /**
   Conservation: what the group has read past its starting point is exactly what is pending,
   in stream order and with the published data, plus what was acknowledged, each once.
   */
  ghost predicate Conserved<D>(stream: seq<Entry<D>>, g: Group<D>) {
    && g.start <= g.cursor <= |stream|
    && IdsIncrease(stream)
    && Entries(g.pending) == Unacked(stream[g.start..g.cursor], g.acked)
    && |g.pending| + |g.acked| == g.cursor - g.start
    && (forall i :: g.cursor <= i < |stream| ==> stream[i].seqId !in g.acked)
  }

  /** Counts never rise along the pending list. */
  ghost predicate CountsFall<D>(ms: seq<Message<D>>) {
    && (forall i :: 0 <= i < |ms| ==> ms[i].deliveryCount >= 1)
    && (forall i, j :: 0 <= i < j < |ms| ==> ms[i].deliveryCount >= ms[j].deliveryCount)
  }

  /** The count table agrees with the messages; what was never delivered has no count. */
  ghost predicate CountsMatch<D>(stream: seq<Entry<D>>, g: Group<D>) {
    && (forall i :: 0 <= i < |g.pending| ==> Count(g.counts, g.pending[i].seqId) == g.pending[i].deliveryCount)
    && (forall i :: g.cursor <= i < |stream| ==> Count(g.counts, stream[i].seqId) == 0)
  }

  ghost predicate GroupOk<D>(stream: seq<Entry<D>>, g: Group<D>) {
    Conserved(stream, g) && CountsFall(g.pending) && CountsMatch(stream, g)
  }

  // ----- the unacknowledged part of a stream -----

  lemma {:induction false} UnackedConcat<D>(a: seq<Entry<D>>, b: seq<Entry<D>>, acked: seq<nat>)
    ensures Unacked(a + b, acked) == Unacked(a, acked) + Unacked(b, acked)
  {
    if b == [] {
      assert a + b == a;
    } else {
      var n := |b| - 1;
      assert (a + b)[..|a + b| - 1] == a + b[..n];
      UnackedConcat(a, b[..n], acked);
    }
  }

  lemma {:induction false} UnackedOfNew<D>(es: seq<Entry<D>>, acked: seq<nat>)
    requires forall i :: 0 <= i < |es| ==> es[i].seqId !in acked
    ensures Unacked(es, acked) == es
  {
    if es != [] {
      UnackedOfNew(es[..|es| - 1], acked);
    }
  }

  lemma {:induction false} UnackedMembers<D>(es: seq<Entry<D>>, acked: seq<nat>, e: Entry<D>)
    ensures e in Unacked(es, acked) <==> e in es && e.seqId !in acked
  {
    if es != [] {
      UnackedMembers(es[..|es| - 1], acked, e);
    }
  }

  lemma {:induction false} UnackedIncreases<D>(es: seq<Entry<D>>, acked: seq<nat>)
    requires IdsIncrease(es)
    ensures IdsIncrease(Unacked(es, acked))
  {
    if es != [] {
      var n := |es| - 1;
      var rest := Unacked(es[..n], acked);
      UnackedIncreases(es[..n], acked);
      forall i | 0 <= i < |rest| ensures rest[i].seqId < es[n].seqId {
        UnackedMembers(es[..n], acked, rest[i]);
      }
    }
  }

  lemma {:induction false} AckDropsFromUnacked<D>(es: seq<Entry<D>>, acked: seq<nat>, ms: seq<Message<D>>, id: nat)
    requires Entries(ms) == Unacked(es, acked)
    ensures Entries(Without(ms, id)) == Unacked(es, acked + [id])
  {
    if es != [] {
      var n := |es| - 1;
      if es[n].seqId in acked {
        AckDropsFromUnacked(es[..n], acked, ms, id);
      } else {
        assert |Entries(ms)| == |Unacked(es[..n], acked)| + 1;
        var m := |ms| - 1;
        assert Entries(ms)[..m] == Entries(ms[..m]);
        assert Entries(ms)[m] == es[n];
        AckDropsFromUnacked(es[..n], acked, ms[..m], id);
      }
    }
  }

  lemma {:induction false} WithoutMembers<D>(ms: seq<Message<D>>, id: nat, m: Message<D>)
    ensures m in Without(ms, id) <==> m in ms && m.seqId != id
  {
    if ms != [] {
      WithoutMembers(ms[..|ms| - 1], id, m);
    }
  }

  lemma {:induction false} WithoutKeepsCounts<D>(ms: seq<Message<D>>, id: nat)
    requires CountsFall(ms)
    ensures CountsFall(Without(ms, id))
  {
    if ms != [] {
      var n := |ms| - 1;
      var rest := Without(ms[..n], id);
      WithoutKeepsCounts(ms[..n], id);
      forall i | 0 <= i < |rest| ensures rest[i].deliveryCount >= ms[n].deliveryCount {
        WithoutMembers(ms[..n], id, rest[i]);
      }
    }
  }

  lemma PendingIdsIncrease<D>(stream: seq<Entry<D>>, g: Group<D>)
    requires Conserved(stream, g)
    ensures forall i, j :: 0 <= i < j < |g.pending| ==> g.pending[i].seqId < g.pending[j].seqId
    ensures IdsIncrease(Entries(g.pending))
  {
    UnackedIncreases(stream[g.start..g.cursor], g.acked);
    assert forall i :: 0 <= i < |g.pending| ==> Entries(g.pending)[i].seqId == g.pending[i].seqId;
  }

  lemma {:induction false} WithoutDropsOne<D>(ms: seq<Message<D>>, id: nat)
    requires forall i, j :: 0 <= i < j < |ms| ==> ms[i].seqId < ms[j].seqId
    ensures |Without(ms, id)| == |ms| - if IsPending(ms, id) then 1 else 0
  {
    if ms != [] {
      var n := |ms| - 1;
      WithoutDropsOne(ms[..n], id);
      assert IsPending(ms, id) <==> IsPending(ms[..n], id) || ms[n].seqId == id by {
        if IsPending(ms[..n], id) {
          var i :| 0 <= i < n && ms[..n][i].seqId == id;
          assert ms[i].seqId == id;
        }
      }
    }
  }

  /** A pending message is a published entry the group has read and not acknowledged. */
  lemma PendingWasRead<D>(stream: seq<Entry<D>>, g: Group<D>, i: nat)
    requires Conserved(stream, g) && i < |g.pending|
    ensures EntryOf(g.pending[i]) in stream[g.start..g.cursor] && g.pending[i].seqId !in g.acked
    ensures forall j :: g.cursor <= j < |stream| ==> g.pending[i].seqId < stream[j].seqId
  {
    var read := stream[g.start..g.cursor];
    assert Entries(g.pending)[i] == EntryOf(g.pending[i]);
    UnackedMembers(read, g.acked, EntryOf(g.pending[i]));
    var k :| 0 <= k < |read| && read[k] == EntryOf(g.pending[i]);
    assert stream[g.start + k] == EntryOf(g.pending[i]);
  }

  /** Nothing read is lost, altered, or both pending and acknowledged. */
  lemma ReadIsPendingOrAcked<D>(stream: seq<Entry<D>>, g: Group<D>, i: nat)
    requires Conserved(stream, g) && g.start <= i < g.cursor
    ensures stream[i].seqId in g.acked <==> !IsPending(g.pending, stream[i].seqId)
    ensures stream[i].seqId !in g.acked ==> stream[i] in Entries(g.pending)
  {
    var read := stream[g.start..g.cursor];
    assert read[i - g.start] == stream[i];
    UnackedMembers(read, g.acked, stream[i]);
    if stream[i].seqId !in g.acked {
      var k :| 0 <= k < |Entries(g.pending)| && Entries(g.pending)[k] == stream[i];
      assert g.pending[k].seqId == stream[i].seqId;
    } else if IsPending(g.pending, stream[i].seqId) {
      var k :| 0 <= k < |g.pending| && g.pending[k].seqId == stream[i].seqId;
      PendingWasRead(stream, g, k);
    }
  }

  // ----- counting -----

  lemma {:induction false} TallyElsewhere<D>(counts: map<nat, nat>, es: seq<Entry<D>>, id: nat)
    requires forall i :: 0 <= i < |es| ==> es[i].seqId != id
    ensures Count(Tally(counts, es), id) == Count(counts, id)
  {
    if es != [] {
      TallyElsewhere(counts, es[..|es| - 1], id);
    }
  }

  lemma {:induction false} DeliveredAt<D>(counts: map<nat, nat>, es: seq<Entry<D>>, i: nat)
    requires IdsIncrease(es) && i < |es|
    ensures EntryOf(Delivered(counts, es)[i]) == es[i]
    ensures Delivered(counts, es)[i].deliveryCount == Count(counts, es[i].seqId) + 1 == Count(Tally(counts, es), es[i].seqId)
  {
    var n := |es| - 1;
    if i < n {
      DeliveredAt(counts, es[..n], i);
    } else {
      TallyElsewhere(counts, es[..n], es[n].seqId);
    }
  }

  // ----- each operation on one group -----

  lemma AckKeepsGroup<D>(stream: seq<Entry<D>>, g: Group<D>, i: nat)
    requires GroupOk(stream, g) && i < |g.pending|
    ensures GroupOk(stream, Acknowledged(g, g.pending[i].seqId))
  {
    var id := g.pending[i].seqId;
    var rest := Without(g.pending, id);
    AckDropsFromUnacked(stream[g.start..g.cursor], g.acked, g.pending, id);
    WithoutKeepsCounts(g.pending, id);
    PendingIdsIncrease(stream, g);
    WithoutDropsOne(g.pending, id);
    PendingWasRead(stream, g, i);
    forall k | 0 <= k < |rest| ensures Count(g.counts, rest[k].seqId) == rest[k].deliveryCount {
      WithoutMembers(g.pending, id, rest[k]);
    }
  }

  lemma PublishKeepsGroup<D>(stream: seq<Entry<D>>, g: Group<D>, e: Entry<D>)
    requires GroupOk(stream, g)
    requires forall i :: 0 <= i < |stream| ==> stream[i].seqId < e.seqId
    requires e.seqId !in g.acked && Count(g.counts, e.seqId) == 0
    ensures GroupOk(stream + [e], g)
  {
    assert (stream + [e])[g.start..g.cursor] == stream[g.start..g.cursor];
  }

  /** A message handed out again is the same but for its count. */
  lemma RedeliveredAt<D>(stream: seq<Entry<D>>, g: Group<D>, count: nat, i: nat)
    requires GroupOk(stream, g) && i < |g.pending|
    ensures var g' := Consumed(stream, g, count);
            && |g'.pending| == |g.pending| && EntryOf(g'.pending[i]) == EntryOf(g.pending[i])
            && g'.pending[i].deliveryCount == g.pending[i].deliveryCount + (if i < count then 1 else 0)
            && Count(g'.counts, g.pending[i].seqId) == g'.pending[i].deliveryCount
  {
    ConsumedAgain(stream, g, count);
    var es := Entries(Slice(g.pending, 0, count));
    PendingIdsIncrease(stream, g);
    hide Conserved, CountsFall, Consumed, Delivered, Tally;
    if i < |es| {
      assert es[i] == EntryOf(g.pending[i]);
      DeliveredAt(g.counts, es, i);
    } else {
      TallyElsewhere(g.counts, es, g.pending[i].seqId);
    }
  }

  lemma UnreadUncounted<D>(stream: seq<Entry<D>>, g: Group<D>, count: nat, j: nat)
    requires GroupOk(stream, g) && g.pending != [] && g.cursor <= j < |stream|
    ensures Count(Consumed(stream, g, count).counts, stream[j].seqId) == 0
  {
    ConsumedAgain(stream, g, count);
    var es := Entries(Slice(g.pending, 0, count));
    hide CountsFall, Consumed, Delivered, Tally, Conserved;
    forall i | 0 <= i < |es| ensures es[i].seqId != stream[j].seqId {
      PendingWasRead(stream, g, i);
    }
    TallyElsewhere(g.counts, es, stream[j].seqId);
  }

  lemma SameEntriesConserve<D>(stream: seq<Entry<D>>, g: Group<D>, g': Group<D>)
    requires Conserved(stream, g) && Entries(g'.pending) == Entries(g.pending)
    requires g'.start == g.start && g'.cursor == g.cursor && g'.acked == g.acked
    ensures Conserved(stream, g')
  {
    hide Unacked, IdsIncrease;
    assert |Entries(g'.pending)| == |g'.pending|;
  }

  lemma RedeliveryKeepsGroup<D>(stream: seq<Entry<D>>, g: Group<D>, count: nat)
    requires GroupOk(stream, g) && g.pending != []
    ensures var g' := Consumed(stream, g, count);
            && GroupOk(stream, g') && Entries(g'.pending) == Entries(g.pending)
            && |g'.pending| == |g.pending|
            && forall i :: 0 <= i < |g.pending| ==>
                 g'.pending[i].deliveryCount == g.pending[i].deliveryCount + (if i < count then 1 else 0)
  {
    var g' := Consumed(stream, g, count);
    ConsumedAgain(stream, g, count);
    hide Consumed, Conserved, Count, Delivered, Tally, NextEntries;
    RedeliveredAt(stream, g, count, 0);
    forall i | 0 <= i < |g.pending|
      ensures EntryOf(g'.pending[i]) == EntryOf(g.pending[i])
      ensures g'.pending[i].deliveryCount == g.pending[i].deliveryCount + (if i < count then 1 else 0)
      ensures Count(g'.counts, g'.pending[i].seqId) == g'.pending[i].deliveryCount
    {
      RedeliveredAt(stream, g, count, i);
    }
    assert Entries(g'.pending) == Entries(g.pending);
    SameEntriesConserve(stream, g, g');
    forall j | g.cursor <= j < |stream| ensures Count(g'.counts, stream[j].seqId) == 0 {
      UnreadUncounted(stream, g, count, j);
    }
    assert CountsFall(g'.pending);
    assert CountsMatch(stream, g');
  }

  lemma ReadEntriesUnacked<D>(stream: seq<Entry<D>>, g: Group<D>, k: nat)
    requires Conserved(stream, g) && g.pending == [] && g.cursor <= k <= |stream|
    ensures Unacked(stream[g.start..k], g.acked) == stream[g.cursor..k]
  {
    hide IdsIncrease;
    var read, next := stream[g.start..g.cursor], stream[g.cursor..k];
    assert stream[g.start..k] == read + next;
    UnackedConcat(read, next, g.acked);
    UnackedOfNew(next, g.acked);
    hide Unacked;
    assert Unacked(read, g.acked) == Entries(g.pending) == [];
  }

  lemma ReadingOnConserves<D>(stream: seq<Entry<D>>, g: Group<D>, batch: seq<Message<D>>)
    requires Conserved(stream, g) && g.pending == [] && g.cursor + |batch| <= |stream|
    requires Entries(batch) == stream[g.cursor..g.cursor + |batch|]
    ensures Conserved(stream, g.(cursor := g.cursor + |batch|, pending := batch))
  {
    ReadEntriesUnacked(stream, g, g.cursor + |batch|);
    hide IdsIncrease, Unacked, Entries;
  }

  lemma ReadSlice<D>(stream: seq<Entry<D>>, cursor: nat, count: nat)
    requires cursor <= |stream|
    ensures var es := Slice(stream, cursor, count);
            cursor + |es| <= |stream| && es == stream[cursor..cursor + |es|]
  {
  }

  lemma FirstReadAt<D>(stream: seq<Entry<D>>, g: Group<D>, es: seq<Entry<D>>, i: nat)
    requires GroupOk(stream, g) && i < |es| && g.cursor + |es| <= |stream| && es == stream[g.cursor..g.cursor + |es|]
    ensures EntryOf(Delivered(g.counts, es)[i]) == es[i]
    ensures Delivered(g.counts, es)[i].deliveryCount == 1 == Count(Tally(g.counts, es), es[i].seqId)
    ensures Delivered(g.counts, es)[i].seqId == es[i].seqId
  {
    hide CountsFall, Unacked, Delivered, Tally;
    assert es[i] == stream[g.cursor + i];
    DeliveredAt(g.counts, es, i);
  }

  lemma StillUnread<D>(stream: seq<Entry<D>>, g: Group<D>, es: seq<Entry<D>>, j: nat)
    requires GroupOk(stream, g) && g.cursor + |es| <= j < |stream| && es == stream[g.cursor..g.cursor + |es|]
    ensures Count(Tally(g.counts, es), stream[j].seqId) == 0
  {
    hide CountsFall, Unacked, Delivered, Tally;
    TallyElsewhere(g.counts, es, stream[j].seqId);
  }

  lemma FirstDeliveries<D>(stream: seq<Entry<D>>, g: Group<D>, count: nat)
    requires GroupOk(stream, g) && g.pending == []
    ensures var es, g' := NextEntries(stream, g, count), Consumed(stream, g, count);
            && g'.cursor <= |stream| && es == stream[g.cursor..g'.cursor] == Entries(g'.pending)
            && (forall i :: 0 <= i < |es| ==> g'.pending[i].deliveryCount == 1)
            && CountsMatch(stream, g')
  {
    var es, g' := Slice(stream, g.cursor, count), Consumed(stream, g, count);
    ConsumedAnew(stream, g, count);
    ReadSlice(stream, g.cursor, count);
    hide Consumed, NextEntries, Delivered, Tally, Slice, Conserved, CountsFall, Count;
    forall i | 0 <= i < |es|
      ensures EntryOf(g'.pending[i]) == es[i] && g'.pending[i].deliveryCount == 1 == Count(g'.counts, g'.pending[i].seqId)
    {
      FirstReadAt(stream, g, es, i);
    }
    assert Entries(g'.pending) == es;
    forall j | g'.cursor <= j < |stream| ensures Count(g'.counts, stream[j].seqId) == 0 {
      StillUnread(stream, g, es, j);
    }
  }

  lemma ReadingOnKeepsGroup<D>(stream: seq<Entry<D>>, g: Group<D>, count: nat)
    requires GroupOk(stream, g) && g.pending == []
    ensures GroupOk(stream, Consumed(stream, g, count))
  {
    FirstDeliveries(stream, g, count);
    var g' := Consumed(stream, g, count);
    FirstReadConserves(stream, g, count);
    hide Conserved, CountsMatch, Consumed, NextEntries;
    assert |Entries(g'.pending)| == |g'.pending|;
    AllOnesFall(g'.pending);
  }

  lemma FirstReadConserves<D>(stream: seq<Entry<D>>, g: Group<D>, count: nat)
    requires GroupOk(stream, g) && g.pending == []
    ensures Conserved(stream, Consumed(stream, g, count))
  {
    FirstDeliveries(stream, g, count);
    ConsumedAnew(stream, g, count);
    hide Unacked, IdsIncrease, CountsMatch, CountsFall, Consumed, NextEntries, Delivered, Tally, Slice;
    ReadingOnConserves(stream, g, Consumed(stream, g, count).pending);
    hide Entries;
  }

  lemma AllOnesFall<D>(ms: seq<Message<D>>)
    requires forall i :: 0 <= i < |ms| ==> ms[i].deliveryCount == 1
    ensures CountsFall(ms)
  {
  }

  lemma ConsumeKeepsGroup<D>(stream: seq<Entry<D>>, g: Group<D>, count: nat)
    requires GroupOk(stream, g)
    ensures GroupOk(stream, Consumed(stream, g, count))
  {
    if g.pending != [] {
      RedeliveryKeepsGroup(stream, g, count);
    } else {
      ReadingOnKeepsGroup(stream, g, count);
    }
  }

  // ----- every key, every run -----

  /** Ids are handed out in order, and the group conserves the stream. */
  ghost predicate Kept<D>(stream: seq<Entry<D>>, g: Group<D>, nextSeq: nat) {
    && GroupOk(stream, g)
    && (forall i :: 0 <= i < |stream| ==> stream[i].seqId <= nextSeq)
    && (forall id: nat :: id in g.acked || Count(g.counts, id) > 0 ==> id <= nextSeq)
  }

  ghost predicate KeyOk<D>(b: Broker<D>, key: GroupKey) {
    Kept(StreamIn(b.streams, key.queue), GroupIn(b.groups, key), b.nextSeq)
  }

  lemma DeliveredWasPublished<D>(stream: seq<Entry<D>>, g: Group<D>, count: nat, i: nat)
    requires Conserved(stream, g) && i < |NextEntries(stream, g, count)|
    ensures NextEntries(stream, g, count)[i] in stream
  {
    if g.pending != [] {
      ConsumedAgain(stream, g, count);
      PendingWasRead(stream, g, i);
      assert NextEntries(stream, g, count)[i] == EntryOf(g.pending[i]);
    } else {
      assert NextEntries(stream, g, count)[i] == stream[g.cursor + i];
    }
    hide Conserved, Consumed, Unacked;
  }

  /** As many as were asked for, or as there are: of the unacked messages from the oldest on, else of the unread entries. */
  lemma DeliversAsMany<D>(stream: seq<Entry<D>>, g: Group<D>, count: nat)
    requires g.cursor <= |stream|
    ensures var es, all := NextEntries(stream, g, count), if g.pending != [] then Entries(g.pending) else stream[g.cursor..];
            es == all[..if count < |all| then count else |all|]
  {
    if g.pending != [] {
      ConsumedAgain(stream, g, count);
    }
    hide Consumed, Delivered, Tally;
  }

  /** A new group starts at the beginning or behind everything published so far; an existing one is left alone. */
  lemma GroupStarts<D>(b: Broker<D>, key: GroupKey, fromStart: bool)
    ensures var after := Step(b, Op.EnsureGroup(key, fromStart));
            && after.streams == b.streams && after.nextSeq == b.nextSeq && key in after.groups
            && (forall k :: k in b.groups ==> k in after.groups && after.groups[k] == b.groups[k])
            && (forall k :: k in after.groups ==> k in b.groups || k == key)
            && (key !in b.groups ==>
                  var published := if key.queue in b.streams then |b.streams[key.queue]| else 0;
                  && after.groups[key].cursor == after.groups[key].start == (if fromStart then 0 else published)
                  && after.groups[key].pending == [] && after.groups[key].acked == [] && after.groups[key].counts == map[])
  {
  }

  /** No id is counted that the broker has not issued. */
  lemma CountedIdsWereIssued<D>(stream: seq<Entry<D>>, g: Group<D>, count: nat, nextSeq: nat, id: nat)
    requires Conserved(stream, g) && (forall e :: e in stream ==> e.seqId <= nextSeq)
    requires Count(g.counts, id) > 0 ==> id <= nextSeq
    ensures Count(Consumed(stream, g, count).counts, id) > 0 ==> id <= nextSeq
  {
    var es := NextEntries(stream, g, count);
    if i :| 0 <= i < |es| && es[i].seqId == id {
      DeliveredWasPublished(stream, g, count, i);
    } else {
      TallyElsewhere(g.counts, es, id);
    }
  }

  lemma ConsumeKeeps<D>(stream: seq<Entry<D>>, g: Group<D>, nextSeq: nat, count: nat)
    requires Kept(stream, g, nextSeq)
    ensures Kept(stream, Consumed(stream, g, count), nextSeq)
  {
    ConsumeKeepsGroup(stream, g, count);
    forall id: nat | Count(Consumed(stream, g, count).counts, id) > 0 ensures id <= nextSeq {
      CountedIdsWereIssued(stream, g, count, nextSeq, id);
    }
  }

  lemma AckKeeps<D>(stream: seq<Entry<D>>, g: Group<D>, nextSeq: nat, id: nat)
    requires Kept(stream, g, nextSeq)
    ensures Kept(stream, Acknowledged(g, id), nextSeq)
  {
    if i :| 0 <= i < |g.pending| && g.pending[i].seqId == id {
      AckKeepsGroup(stream, g, i);
      PendingWasRead(stream, g, i);
      assert EntryOf(g.pending[i]) in stream;
    }
  }

  lemma NewGroupIsKept<D>(stream: seq<Entry<D>>, g: Group<D>, nextSeq: nat)
    requires Kept(stream, g, nextSeq)
    ensures Kept(stream, NewGroup(0), nextSeq) && Kept(stream, NewGroup(|stream|), nextSeq)
  {
  }

  lemma PublishKeeps<D>(stream: seq<Entry<D>>, g: Group<D>, nextSeq: nat, data: D)
    requires Kept(stream, g, nextSeq)
    ensures Kept(stream + [Entry(nextSeq + 1, data)], g, nextSeq + 1) && Kept(stream, g, nextSeq + 1)
  {
    PublishKeepsGroup(stream, g, Entry(nextSeq + 1, data));
  }

  /** What one operation does to the stream and the group of one key. */
  lemma StepAtKey<D>(b: Broker<D>, op: Op<D>, key: GroupKey)
    ensures var b', stream, g := Step(b, op), StreamIn(b.streams, key.queue), GroupIn(b.groups, key);
            && StreamIn(b'.streams, key.queue) ==
                 (if op.Publish? && op.queue == key.queue then stream + [Entry(b.nextSeq + 1, op.data)] else stream)
            && b'.nextSeq == b.nextSeq + (if op.Publish? then 1 else 0)
            && GroupIn(b'.groups, key) ==
                 (if op.Publish? || op.key != key then g
                  else match op
                    case EnsureGroup(_, fromStart) =>
                      if key in b.groups || fromStart then g else NewGroup(|stream|)
                    case Consume(_, count) => Consumed(stream, g, count)
                    case Ack(_, id) => Acknowledged(g, id)
                    case _ => g)
  {
  }

  /** Whatever operation runs on whatever queue and group, `key`'s group stays conserved. */
  lemma StepKeepsKey<D>(b: Broker<D>, op: Op<D>, key: GroupKey)
    requires KeyOk(b, key)
    ensures KeyOk(Step(b, op), key)
  {
    hide Kept;
    var stream, g, n := StreamIn(b.streams, key.queue), GroupIn(b.groups, key), b.nextSeq;
    StepAtKey(b, op, key);
    match op
    case Publish(_, data) => PublishKeeps(stream, g, n, data);
    case EnsureGroup(_, _) => NewGroupIsKept(stream, g, n);
    case Consume(_, count) => ConsumeKeeps(stream, g, n, count);
    case Ack(_, id) => AckKeeps(stream, g, n, id);
  }

  /** One group's operations never change what another group has, nor what was published. */
  lemma GroupsAreIndependent<D>(b: Broker<D>, op: Op<D>, key: GroupKey)
    requires !op.Publish? && op.key != key
    ensures GroupIn(Step(b, op).groups, key) == GroupIn(b.groups, key) && Step(b, op).streams == b.streams
  {
  }

  function Run<D>(b: Broker<D>, ops: seq<Op<D>>): Broker<D>
    decreases |ops|
  {
    if ops == [] then b else Run(Step(b, ops[0]), ops[1..])
  }

  /** Over every run, from a broker that conserves `key`'s stream (the empty one does). */
  lemma {:induction false} RunsConserve<D>(b: Broker<D>, ops: seq<Op<D>>, key: GroupKey)
    requires b == Broker(map[], 0, map[]) || KeyOk(b, key)
    ensures KeyOk(Run(b, ops), key)
    decreases |ops|
  {
    if ops != [] {
      StepKeepsKey(b, ops[0], key);
      RunsConserve(Step(b, ops[0]), ops[1..], key);
    }
  }
}
