/** Coherence of the config cache with the database, over every run of the whole pipe. */
module ConfigCacheProofs {
  import opened Wrappers
  import opened ConfigVersions
  import opened ConfigCache
  import opened MessageQueue
  import opened MessageQueueProofs

  /** Database, wall clock, broker queue of invalidation events, this client's group, the client. */
  datatype System = System(
    store: Store, now: int, stream: seq<Entry<Event>>, nextSeq: nat, group: Group<Event>, client: Client)

  datatype Action =
    | Write(version: Version)                                  // one committed or refused transaction
    | Relay(row: nat, marked: bool)                            // publish an outbox row; `marked` unless the relay dies
    | Deliver(count: nat)                                      // the subscriber's consume
    | Handle(i: nat, acked: bool)                              // invalidate; ack, unless the subscriber dies first
    | Get(key: Key, pin: Option<nat>, ttl: Option<int>, clock: int, envelopePinned: bool)
    | Tick(now: int)
    | Restart                                                  // the client process starts with empty caches

  function Apply(s: System, a: Action): System {
    match a
    case Write(v) => s.(store := Written(s.store, v).0)
    case Relay(i, marked) =>
      if i < |s.store.outbox| && !s.store.outbox[i].dispatched then
        var row := s.store.outbox[i];
        s.(stream := s.stream + [Entry(s.nextSeq + 1, row.event)], nextSeq := s.nextSeq + 1,
           store := if marked then s.store.(outbox := s.store.outbox[i := row.(dispatched := true)]) else s.store)
      else s
    case Deliver(count) => s.(group := Consumed(s.stream, s.group, count))
    case Handle(i, acked) =>
      if i < |s.group.pending| then
        var m := s.group.pending[i];
        s.(client := Invalidate(s.client, m.data.key), group := if acked then Acknowledged(s.group, m.seqId) else s.group)
      else s
    case Get(key, pin, ttl, clock, envelopePinned) =>
      s.(client := if pin.Some? then ReadPinned(s.client, s.store.rows, key, pin.value).0
                   else ReadEffective(s.client, s.store.rows, key, s.now, ttl, clock, envelopePinned).0)
    case Tick(now) => if now >= s.now then s.(now := now) else s
    case Restart => s.(client := Client(map[], map[]))
  }

  function Run(s: System, actions: seq<Action>): System
    decreases |actions|
  {
    if actions == [] then s else Run(Apply(s, actions[0]), actions[1..])
  }

  // ----- what is outstanding -----

  ghost predicate InOutbox(s: System, key: Key) {
    exists i :: 0 <= i < |s.store.outbox| && !s.store.outbox[i].dispatched && s.store.outbox[i].event.key == key
  }

  ghost predicate Unread(s: System, key: Key) {
    exists i :: s.group.cursor <= i < |s.stream| && s.stream[i].data.key == key
  }

  ghost predicate IsPendingKey(ms: seq<Message<Event>>, key: Key) {
    exists i :: 0 <= i < |ms| && ms[i].data.key == key
  }

  /** An event for the key is on its way: undispatched, undelivered or unacknowledged. */
  ghost predicate Outstanding(s: System, key: Key) {
    InOutbox(s, key) || Unread(s, key) || IsPendingKey(s.group.pending, key)
  }

  /** The cached effective value is what the database would answer now, or an event is on its way. */
  ghost predicate Coherent(s: System, key: Key) {
    key in s.client.effective ==>
      GetEffective(s.store.rows, key, s.now) == Ok(s.client.effective[key].value) || Outstanding(s, key)
  }

  ghost predicate NothingForwardDated(s: System) {
    forall i :: 0 <= i < |s.store.rows| ==> s.store.rows[i].effectiveFrom <= s.now
  }

  ghost predicate Inv(s: System, key: Key) {
    Coherent(s, key) && NothingForwardDated(s) && Kept(s.stream, s.group, s.nextSeq)
  }

  // ----- the database side -----

  /** What is already in force stays in force when only time passes. */
  lemma {:induction false} TimeChangesNothing(rows: seq<Version>, key: Key, now: int, later: int)
    requires now <= later && forall i :: 0 <= i < |rows| ==> rows[i].effectiveFrom <= now
    ensures EffectiveRow(rows, key, later) == EffectiveRow(rows, key, now)
  {
    if rows != [] {
      TimeChangesNothing(rows[..|rows| - 1], key, now, later);
    }
  }

  /** A write changes the answer for its own key only. */
  lemma OtherKeysKeepTheirAnswer(s: Store, v: Version, key: Key, now: int)
    requires key != v.key
    ensures GetEffective(Written(s, v).0.rows, key, now) == GetEffective(s.rows, key, now)
  {
    var s' := Written(s, v).0;
    if s' != s {
      assert s'.rows[..|s.rows|] == s.rows;
    }
  }

  lemma WriteKeeps(s: System, v: Version, key: Key)
    requires Inv(s, key) && v.effectiveFrom <= s.now
    ensures Inv(Apply(s, Write(v)), key)
  {
    hide Kept, EffectiveRow;
    var s' := Apply(s, Write(v));
    if s'.store != s.store {
      assert s'.store.outbox[|s.store.outbox|].event.key == v.key;
      if key == v.key {
        assert InOutbox(s', key);
      } else {
        OtherKeysKeepTheirAnswer(s.store, v, key, s.now);
        OutboxGrows(s, s', key);
      }
    }
  }

  lemma OutboxGrows(s: System, s': System, key: Key)
    requires s.store.outbox <= s'.store.outbox && s'.stream == s.stream && s'.group == s.group
    ensures Outstanding(s, key) ==> Outstanding(s', key)
  {
    if i :| 0 <= i < |s.store.outbox| && !s.store.outbox[i].dispatched && s.store.outbox[i].event.key == key {
      assert s'.store.outbox[i] == s.store.outbox[i];
    }
  }

  // ----- the pipe -----

  lemma RelayKeepsOutstanding(s: System, i: nat, marked: bool, key: Key)
    requires s.group.cursor <= |s.stream| && Outstanding(s, key)
    ensures Outstanding(Apply(s, Relay(i, marked)), key)
  {
    var s' := Apply(s, Relay(i, marked));
    if i < |s.store.outbox| && !s.store.outbox[i].dispatched {
      var n := |s.stream|;
      assert s'.stream[n].data.key == s.store.outbox[i].event.key;
      if j :| 0 <= j < |s.store.outbox| && !s.store.outbox[j].dispatched && s.store.outbox[j].event.key == key {
        if j != i {
          assert s'.store.outbox[j] == s.store.outbox[j];
        }
      }
      if j :| s.group.cursor <= j < |s.stream| && s.stream[j].data.key == key {
        assert s'.stream[j] == s.stream[j];
      }
    }
  }

  /** The pending entries decide which keys are pending. */
  lemma SameEntriesSameKeys(ms: seq<Message<Event>>, ms': seq<Message<Event>>, key: Key)
    requires Entries(ms) == Entries(ms') && IsPendingKey(ms, key)
    ensures IsPendingKey(ms', key)
  {
    var j :| 0 <= j < |ms| && ms[j].data.key == key;
    assert EntryOf(ms[j]) == Entries(ms)[j] == Entries(ms')[j] == EntryOf(ms'[j]);
    assert ms'[j].data.key == key;
  }

  /** An unread event is handed out or stays unread. */
  lemma UnreadOrPending(s: System, g: Group<Event>, key: Key)
    requires s.group.cursor <= g.cursor <= |s.stream| && Entries(g.pending) == s.stream[s.group.cursor..g.cursor]
    requires Unread(s, key)
    ensures Unread(s.(group := g), key) || IsPendingKey(g.pending, key)
  {
    var j :| s.group.cursor <= j < |s.stream| && s.stream[j].data.key == key;
    if j < g.cursor {
      var k := j - s.group.cursor;
      assert EntryOf(g.pending[k]) == Entries(g.pending)[k] == s.stream[j];
      assert g.pending[k].data.key == key;
    } else {
      assert s.(group := g).stream[j].data.key == key;
    }
  }

  lemma RedeliveryKeepsCursor(s: System, count: nat)
    requires s.group.pending != []
    ensures Consumed(s.stream, s.group, count).cursor == s.group.cursor
  {
  }

  lemma ReadingOnMoves(s: System, count: nat)
    requires GroupOk(s.stream, s.group) && s.group.pending == []
    ensures var g := Consumed(s.stream, s.group, count);
            s.group.cursor <= g.cursor <= |s.stream| && Entries(g.pending) == s.stream[s.group.cursor..g.cursor]
  {
    hide CountsFall, CountsMatch;
    FirstDeliveries(s.stream, s.group, count);
  }

  lemma DeliverKeepsOutstanding(s: System, count: nat, key: Key)
    requires Kept(s.stream, s.group, s.nextSeq) && Outstanding(s, key)
    ensures Outstanding(Apply(s, Deliver(count)), key)
  {
    var g := Consumed(s.stream, s.group, count);
    assert Apply(s, Deliver(count)) == s.(group := g);
    OutboxOnly(s, g, key);
    hide Conserved, CountsFall, CountsMatch, Consumed, Entries, InOutbox, IsPendingKey, Apply;
    if s.group.pending != [] {
      RedeliveryKeepsGroup(s.stream, s.group, count);
      RedeliveryKeepsCursor(s, count);
      if IsPendingKey(s.group.pending, key) {
        SameEntriesSameKeys(s.group.pending, g.pending, key);
      }
    } else {
      ReadingOnMoves(s, count);
      NothingPending(key);
      hide Unread;
      if Unread(s, key) {
        UnreadOrPending(s, g, key);
      }
    }
  }

  lemma OutboxOnly(s: System, g: Group<Event>, key: Key)
    ensures InOutbox(s.(group := g), key) == InOutbox(s, key)
  {
  }

  lemma NothingPending(key: Key)
    ensures !IsPendingKey([], key)
  {
  }

  lemma HandleKeepsOutstanding(s: System, i: nat, acked: bool, key: Key)
    requires Kept(s.stream, s.group, s.nextSeq) && i < |s.group.pending|
    requires key != s.group.pending[i].data.key && Outstanding(s, key)
    ensures Outstanding(Apply(s, Handle(i, acked)), key)
  {
    hide CountsFall, CountsMatch;
    var id := s.group.pending[i].seqId;
    if j :| 0 <= j < |s.group.pending| && s.group.pending[j].data.key == key {
      PendingIdsIncrease(s.stream, s.group);
      WithoutMembers(s.group.pending, id, s.group.pending[j]);
      if acked {
        var rest := Without(s.group.pending, id);
        var k :| 0 <= k < |rest| && rest[k] == s.group.pending[j];
        assert rest[k].data.key == key;
      }
    }
  }

  // ----- every step -----

  /** Only a write that is already effective is covered. */
  predicate AlreadyEffective(s: System, a: Action) {
    a.Write? ==> a.version.effectiveFrom <= s.now
  }

  lemma ActionKeeps(s: System, a: Action, key: Key)
    requires Inv(s, key) && AlreadyEffective(s, a)
    ensures Inv(Apply(s, a), key)
  {
    hide Kept, Outstanding, EffectiveRow;
    match a
    case Write(v) => WriteKeeps(s, v, key);
    case Relay(i, marked) =>
      RelayKeepsKept(s, i, marked);
      if Outstanding(s, key) {
        RelayKeepsOutstanding(s, i, marked, key);
      }
    case Deliver(count) =>
      ConsumeKeeps(s.stream, s.group, s.nextSeq, count);
      if Outstanding(s, key) {
        DeliverKeepsOutstanding(s, count, key);
      }
    case Handle(i, acked) =>
      if i < |s.group.pending| {
        AckKeeps(s.stream, s.group, s.nextSeq, s.group.pending[i].seqId);
        if key != s.group.pending[i].data.key && Outstanding(s, key) {
          HandleKeepsOutstanding(s, i, acked, key);
        }
      }
      ClientOnly(s, Apply(s, a).client, key);
    case Get(k, pin, ttl, clock, envelopePinned) => ClientOnly(s, Apply(s, a).client, key);
    case Tick(now) =>
      if now >= s.now {
        TimeChangesNothing(s.store.rows, key, s.now, now);
        ClockOnly(s, now, key);
      }
    case Restart => ClientOnly(s, Apply(s, a).client, key);
  }

  lemma ClientOnly(s: System, c: Client, key: Key)
    ensures Outstanding(s.(client := c), key) == Outstanding(s, key)
  {
  }

  lemma ClockOnly(s: System, now: int, key: Key)
    ensures Outstanding(s.(now := now), key) == Outstanding(s, key)
  {
  }

  lemma RelayKeepsKept(s: System, i: nat, marked: bool)
    requires Kept(s.stream, s.group, s.nextSeq)
    ensures var s' := Apply(s, Relay(i, marked)); Kept(s'.stream, s'.group, s'.nextSeq)
    ensures s.group.cursor <= |s.stream|
  {
    if i < |s.store.outbox| {
      PublishKeeps(s.stream, s.group, s.nextSeq, s.store.outbox[i].event);
    }
  }

  predicate AllAlreadyEffective(s: System, actions: seq<Action>)
    decreases |actions|
  {
    actions != [] ==> AlreadyEffective(s, actions[0]) && AllAlreadyEffective(Apply(s, actions[0]), actions[1..])
  }

  /**
   Coherence. Over every run without forward-dated writes, of writers, relays that may die
   before marking, a subscriber that may die before acking, reads, clock ticks and restarts:
   a cached effective value that differs from what the database would answer has an event
   for its key still on its way.
   */
  lemma {:induction false} RunsStayCoherent(s: System, actions: seq<Action>, key: Key)
    requires Inv(s, key) && AllAlreadyEffective(s, actions)
    ensures Inv(Run(s, actions), key)
    decreases |actions|
  {
    hide Inv, Apply, AlreadyEffective;
    if actions != [] {
      ActionKeeps(s, actions[0], key);
      RunsStayCoherent(Apply(s, actions[0]), actions[1..], key);
    }
  }

  /** With nothing on its way, what is cached is what the database answers. */
  lemma QuietMeansFresh(s: System, key: Key)
    requires Inv(s, key) && key in s.client.effective
    requires forall i :: 0 <= i < |s.store.outbox| ==> s.store.outbox[i].dispatched
    requires s.group.cursor == |s.stream| && s.group.pending == []
    ensures GetEffective(s.store.rows, key, s.now) == Ok(s.client.effective[key].value)
  {
  }

  // ----- pinned reads -----

  ghost predicate PinnedOk(s: System, key: Key, id: nat) {
    (key, id) in s.client.pinned ==> GetPinned(s.store.rows, key, id) == Ok(s.client.pinned[(key, id)])
  }

  lemma ActionKeepsPinned(s: System, a: Action, key: Key, id: nat)
    requires PinnedOk(s, key, id)
    ensures PinnedOk(Apply(s, a), key, id)
    ensures GetPinned(s.store.rows, key, id).Ok? ==>
              GetPinned(Apply(s, a).store.rows, key, id) == GetPinned(s.store.rows, key, id)
  {
    hide EffectiveRow, Consumed, Acknowledged;
  }

  /**
   A pinned read through the cache, also of an entry warmed by an unpinned read, is the direct
   lookup, in every reachable state; and a version once readable reads the same forever.
   */
  lemma {:induction false} PinnedReadsAreDirect(s: System, actions: seq<Action>, key: Key, id: nat)
    requires PinnedOk(s, key, id)
    ensures var s' := Run(s, actions);
            && ReadPinned(s'.client, s'.store.rows, key, id).1 == GetPinned(s'.store.rows, key, id)
            && (GetPinned(s.store.rows, key, id).Ok? ==>
                  GetPinned(s'.store.rows, key, id) == GetPinned(s.store.rows, key, id))
    decreases |actions|
  {
    hide Apply;
    if actions != [] {
      ActionKeepsPinned(s, actions[0], key, id);
      PinnedReadsAreDirect(Apply(s, actions[0]), actions[1..], key, id);
    }
  }

  /** An unpinned read: refused, served from an entry younger than the time to live, or fetched and kept. */
  lemma ReadIs(c: Client, rows: seq<Version>, key: Key, now: int, ttl: Option<int>, clock: int, envelopePinned: bool)
    ensures var (after, r), fetched := ReadEffective(c, rows, key, now, ttl, clock, envelopePinned), GetEffective(rows, key, now);
            if envelopePinned then after == c && r == Err(EnvelopePinned)
            else if key in c.effective && (ttl == None || clock - c.effective[key].cachedAt < ttl.value) then
              after == c && r == Ok(c.effective[key].value)
            else
              && r == fetched && (r.Err? ==> after == c)
              && (r.Ok? ==>
                    && after.effective == c.effective[key := CacheEntry(r.value, clock)]
                    && (forall k :: k in after.pinned <==> k in c.pinned || k == (key, r.value.version))
                    && (forall k :: k in after.pinned ==> after.pinned[k] == if k in c.pinned then c.pinned[k] else r.value))
  {
    hide GetEffective;
  }

  // ----- one drain of the subscriber -----

  /** A message of this key or id is among those handled. */
  ghost predicate About(ms: seq<Message<Event>>, key: Key) {
    exists i :: 0 <= i < |ms| && ms[i].data.key == key
  }

  lemma AboutFirst(ms: seq<Message<Event>>, key: Key)
    requires ms != []
    ensures About(ms, key) <==> ms[0].data.key == key || About(ms[1..], key)
  {
    if i :| 0 <= i < |ms[1..]| && ms[1..][i].data.key == key {
      assert ms[i + 1].data.key == key;
    }
    if i :| 0 <= i < |ms| && ms[i].data.key == key {
      assert i > 0 ==> ms[1..][i - 1].data.key == key;
    }
  }

  /** Handling a delivery drops the effective entries of exactly the keys it names; pinned ones stay. */
  lemma {:induction false} DrainInvalidates(c: Client, b: Broker<Event>, group: GroupKey, ms: seq<Message<Event>>)
    ensures var after := Handled(c, b, group, ms).0;
            && after.pinned == c.pinned
            && (forall k :: k in after.effective <==> k in c.effective && !About(ms, k))
            && (forall k :: k in after.effective ==> after.effective[k] == c.effective[k])
    decreases |ms|
  {
    hide About;
    if ms == [] {
      assert forall k :: !About(ms, k) by {
        forall k ensures !About(ms, k) {
          NothingAbout(k);
        }
      }
    } else {
      forall k ensures About(ms, k) <==> ms[0].data.key == k || About(ms[1..], k) {
        AboutFirst(ms, k);
      }
      DrainInvalidates(Invalidate(c, ms[0].data.key), Step(b, Op.Ack(group, ms[0].seqId)), group, ms[1..]);
    }
  }

  lemma NothingAbout(key: Key)
    ensures !About([], key)
  {
  }

  ghost predicate IdAmong(ms: seq<Message<Event>>, id: nat) {
    exists i :: 0 <= i < |ms| && ms[i].seqId == id
  }

  lemma IdAmongFirst(ms: seq<Message<Event>>, id: nat)
    requires ms != []
    ensures IdAmong(ms, id) <==> ms[0].seqId == id || IdAmong(ms[1..], id)
  {
    if i :| 0 <= i < |ms[1..]| && ms[1..][i].seqId == id {
      assert ms[i + 1].seqId == id;
    }
    if i :| 0 <= i < |ms| && ms[i].seqId == id {
      assert i > 0 ==> ms[1..][i - 1].seqId == id;
    }
  }

  /** And acknowledges exactly its messages: what stays pending is what was not handled; streams and other groups stay. */
  lemma {:induction false} DrainAcknowledges(c: Client, b: Broker<Event>, group: GroupKey, ms: seq<Message<Event>>)
    requires group in b.groups
    ensures var after := Handled(c, b, group, ms).1;
            && after.streams == b.streams && after.nextSeq == b.nextSeq && after.groups.Keys == b.groups.Keys
            && (forall g :: g in b.groups && g != group ==> after.groups[g] == b.groups[g])
            && after.groups[group].cursor == b.groups[group].cursor
            && (forall m :: m in after.groups[group].pending <==> m in b.groups[group].pending && !IdAmong(ms, m.seqId))
    decreases |ms|
  {
    if ms != [] {
      var id := ms[0].seqId;
      var next := Step(b, Op.Ack(group, id));
      AckDrops(b.groups[group], id);
      forall x: nat ensures IdAmong(ms, x) <==> id == x || IdAmong(ms[1..], x) {
        IdAmongFirst(ms, x);
      }
      hide IdAmong, Acknowledged;
      DrainAcknowledges(Invalidate(c, ms[0].data.key), next, group, ms[1..]);
    }
  }

  lemma AckDrops(g: Group<Event>, id: nat)
    ensures var g' := Acknowledged(g, id);
            g'.cursor == g.cursor && forall m :: m in g'.pending <==> m in g.pending && m.seqId != id
  {
    forall m: Message<Event> ensures m in Without(g.pending, id) <==> m in g.pending && m.seqId != id {
      WithoutMembers(g.pending, id, m);
    }
    hide Without;
    if !IsPending(g.pending, id) {
      forall m | m in g.pending ensures m.seqId != id {
        var i :| 0 <= i < |g.pending| && g.pending[i] == m;
      }
    }
  }

  // ----- bounded staleness -----

  lemma {:induction false} RunLast(s: System, actions: seq<Action>)
    requires actions != []
    ensures var n := |actions| - 1; Run(s, actions) == Apply(Run(s, actions[..n]), actions[n])
    decreases |actions|
  {
    hide Apply;
    if |actions| > 1 {
      RunLast(Apply(s, actions[0]), actions[1..]);
      assert actions[1..][..|actions| - 2] == actions[..|actions| - 1][1..];
    } else {
      assert actions[..0] == [] && actions[1..] == [];
      assert Run(Apply(s, actions[0]), []) == Apply(s, actions[0]);
    }
  }

  /** Action `i` of the run was an unpinned read at clock `at` that the database answered with `value`. */
  ghost predicate FetchedAt(s: System, actions: seq<Action>, i: nat, key: Key, value: Response, at: int) {
    && i < |actions| && actions[i].Get? && actions[i].key == key && actions[i].pin.None? && !actions[i].envelopePinned
    && actions[i].clock == at
    && GetEffective(Run(s, actions[..i]).store.rows, key, Run(s, actions[..i]).now) == Ok(value)
  }

  /** Only an unpinned read of the key puts something under it, and that is the database's answer at that moment. */
  lemma NewEntryWasFetched(s: System, a: Action, key: Key)
    requires key in Apply(s, a).client.effective
    ensures || (key in s.client.effective && Apply(s, a).client.effective[key] == s.client.effective[key])
            || (a.Get? && a.key == key && a.pin.None? && !a.envelopePinned && a.clock == Apply(s, a).client.effective[key].cachedAt
                && GetEffective(s.store.rows, key, s.now) == Ok(Apply(s, a).client.effective[key].value))
  {
    hide GetEffective, GetPinned, Consumed, Acknowledged, Written;
  }

  lemma {:induction false} CachedWasFetched(s: System, actions: seq<Action>, key: Key) returns (i: nat)
    requires s.client.effective == map[] && key in Run(s, actions).client.effective
    ensures var entry := Run(s, actions).client.effective[key];
            FetchedAt(s, actions, i, key, entry.value, entry.cachedAt)
    decreases |actions|
  {
    hide Apply, GetEffective;
    if actions == [] {
      assert false;
    }
    var n := |actions| - 1;
    RunLast(s, actions);
    var before, entry := Run(s, actions[..n]), Run(s, actions).client.effective[key];
    NewEntryWasFetched(before, actions[n], key);
    if key in before.client.effective && before.client.effective[key] == entry {
      i := CachedWasFetched(s, actions[..n], key);
      assert actions[..n][..i] == actions[..i];
    } else {
      i := n;
    }
  }

  /**
   Bounded staleness, whatever became of the events. After any run from an empty cache, an
   unpinned read answers what the database answers now, or what it answered at a read of the
   same key less than the time to live before.
   */
  lemma AnswersAreCurrentOrRecent(s: System, actions: seq<Action>, key: Key, ttl: Option<int>, clock: int)
    requires s.client.effective == map[]
    ensures var end := Run(s, actions);
            var r, current := ReadEffective(end.client, end.store.rows, key, end.now, ttl, clock, false).1,
                              GetEffective(end.store.rows, key, end.now);
            || r == current
            || (r.Ok? && exists i, at :: FetchedAt(s, actions, i, key, r.value, at) && (ttl.Some? ==> clock - at < ttl.value))
  {
    var end := Run(s, actions);
    if key in end.client.effective {
      var i := CachedWasFetched(s, actions, key);
      assert FetchedAt(s, actions, i, key, end.client.effective[key].value, end.client.effective[key].cachedAt);
    }
    hide FetchedAt, GetEffective, Run;
  }

  // ----- where coherence ends -----

  /**
   A row that answers later and not before: written since the first `n`, or not in force at
   `now`, and in force `later`; and later than the row that answered before.
   */
  predicate Overtakes(rows: seq<Version>, n: nat, key: Key, now: int, later: int, i: nat)
    requires n <= |rows|
  {
    var before := EffectiveRow(rows[..n], key, now);
    && i < |rows| && rows[i].key == key && rows[i].effectiveFrom <= later
    && (i >= n || rows[i].effectiveFrom > now)
    && (before.None? || rows[i].effectiveFrom > rows[before.value].effectiveFrom)
  }

  /** Of rows in force the latest answers, and the first among equals. */
  lemma {:induction false} EffectiveIsFirstLatest(rows: seq<Version>, key: Key, now: int, r: nat)
    requires r < |rows| && rows[r].key == key && rows[r].effectiveFrom <= now
    requires forall i :: 0 <= i < |rows| && rows[i].key == key && rows[i].effectiveFrom <= now ==>
               rows[i].effectiveFrom <= rows[r].effectiveFrom && (i < r ==> rows[i].effectiveFrom < rows[r].effectiveFrom)
    ensures EffectiveRow(rows, key, now) == Some(r)
  {
    var n := |rows| - 1;
    if r < n {
      EffectiveIsFirstLatest(rows[..n], key, now, r);
    }
  }

  /** And what answers is the first of the latest. */
  lemma {:induction false} EffectiveComesFirst(rows: seq<Version>, key: Key, now: int, i: nat)
    requires i < |rows| && rows[i].key == key && rows[i].effectiveFrom <= now
    ensures var r := EffectiveRow(rows, key, now);
            && r.Some? && rows[i].effectiveFrom <= rows[r.value].effectiveFrom
            && (i < r.value ==> rows[i].effectiveFrom < rows[r.value].effectiveFrom)
  {
    var n := |rows| - 1;
    if i < n {
      EffectiveComesFirst(rows[..n], key, now, i);
    } else if EffectiveRow(rows[..n], key, now).Some? {
      EffectiveComesFirst(rows[..n], key, now, EffectiveRow(rows[..n], key, now).value);
    }
  }

  lemma OvertakenAnswerChanges(rows: seq<Version>, n: nat, key: Key, now: int, later: int, i: nat)
    requires n <= |rows| && now <= later && Overtakes(rows, n, key, now, later, i)
    ensures EffectiveRow(rows, key, later) != EffectiveRow(rows[..n], key, now)
  {
    EffectiveComesFirst(rows, key, later, i);
  }

  lemma UnovertakenAnswerStays(rows: seq<Version>, n: nat, key: Key, now: int, later: int)
    requires n <= |rows| && now <= later
    requires forall i: nat :: !Overtakes(rows, n, key, now, later, i)
    ensures EffectiveRow(rows, key, later) == EffectiveRow(rows[..n], key, now)
  {
    var before := EffectiveRow(rows[..n], key, now);
    forall i | 0 <= i < |rows| && rows[i].key == key && rows[i].effectiveFrom <= later
      ensures before.Some? && rows[i].effectiveFrom <= rows[before.value].effectiveFrom
      ensures i < before.value ==> rows[i].effectiveFrom < rows[before.value].effectiveFrom
    {
      assert !Overtakes(rows, n, key, now, later, i);
      if i < n && rows[i].effectiveFrom <= now {
        assert rows[..n][i] == rows[i];
        EffectiveComesFirst(rows[..n], key, now, i);
      }
    }
    if before.Some? {
      EffectiveIsFirstLatest(rows, key, later, before.value);
    }
  }

  /** What was read of the first `n` rows is still the answer exactly when no row overtook it. */
  lemma AnswerStaysIff(rows: seq<Version>, n: nat, key: Key, now: int, later: int)
    requires n <= |rows| && now <= later
    ensures GetEffective(rows, key, later) == GetEffective(rows[..n], key, now)
            <==> forall i: nat :: !Overtakes(rows, n, key, now, later, i)
  {
    hide EffectiveRow, Overtakes;
    if i: nat :| Overtakes(rows, n, key, now, later, i) {
      OvertakenAnswerChanges(rows, n, key, now, later, i);
    } else {
      UnovertakenAnswerStays(rows, n, key, now, later);
    }
  }

  /**
   Time alone makes a cached value stale, with nothing on its way, exactly when a row of its
   key comes into force.
   */
  lemma TickKeepsCoherentIff(s: System, later: int, key: Key)
    requires key in s.client.effective && Coherent(s, key) && !Outstanding(s, key) && s.now <= later
    ensures Coherent(Apply(s, Tick(later)), key) <==>
              forall i :: 0 <= i < |s.store.rows| && s.store.rows[i].key == key ==>
                !(s.now < s.store.rows[i].effectiveFrom <= later)
  {
    var rows := s.store.rows;
    assert rows[..|rows|] == rows;
    AnswerStaysIff(rows, |rows|, key, s.now, later);
    forall i: nat
      ensures Overtakes(rows, |rows|, key, s.now, later, i)
              <==> i < |rows| && rows[i].key == key && s.now < rows[i].effectiveFrom <= later
    {
    }
    hide EffectiveRow, GetEffective, Overtakes, InOutbox, Unread, IsPendingKey;
    ClockOnly(s, later, key);
  }

  /** Rows are only added, and the clock only goes on. */
  lemma {:induction false} RunsOnlyAdd(s: System, actions: seq<Action>)
    ensures s.store.rows <= Run(s, actions).store.rows && s.now <= Run(s, actions).now
    decreases |actions|
  {
    hide ReadPinned, ReadEffective, Consumed, Acknowledged;
    if actions != [] {
      RunsOnlyAdd(Apply(s, actions[0]), actions[1..]);
    }
  }

  /**
   A read that fetches, is overtaken by anything, and then stores what it fetched: the entry is
   coherent exactly when an event for the key is still on its way, or no row written or come
   into force since the fetch overtakes the one that was fetched.
   */
  lemma SplitReadIsCoherentIff(s: System, actions: seq<Action>, key: Key, clock: int)
    requires GetEffective(s.store.rows, key, s.now).Ok?
    ensures var fetched, t := GetEffective(s.store.rows, key, s.now).value, Run(s, actions);
            && |s.store.rows| <= |t.store.rows|
            && (Coherent(t.(client := Keep(t.client, key, fetched, clock)), key) <==>
                  || Outstanding(t, key)
                  || forall i: nat :: !Overtakes(t.store.rows, |s.store.rows|, key, s.now, t.now, i))
  {
    hide EffectiveRow, GetEffective, Overtakes, InOutbox, Unread, IsPendingKey, Run;
    var fetched, t := GetEffective(s.store.rows, key, s.now).value, Run(s, actions);
    RunsOnlyAdd(s, actions);
    var n := |s.store.rows|;
    assert t.store.rows[..n] == s.store.rows;
    AnswerStaysIff(t.store.rows, n, key, s.now, t.now);
    ClientOnly(t, Keep(t.client, key, fetched, clock), key);
  }

  const K := Key("global", "threshold")
  const OLD := Version(K, "4", 0, "a", "b")

  /** One row in force, no event anywhere. */
  function Quiet(now: int): System {
    System(Store([OLD], map[], []), now, [], 0, NewGroup(0), Client(map[], map[]))
  }

  /** A second row is written, and its event goes all the way through. */
  function Settled(now: int, v: Version): System {
    Run(Quiet(now), [Write(v), Relay(0, true), Deliver(1), Handle(0, true)])
  }

  lemma RunCons(s: System, a: Action, rest: seq<Action>)
    ensures Run(s, [a] + rest) == Run(Apply(s, a), rest)
  {
    assert ([a] + rest)[1..] == rest;
  }

  lemma SettledState(now: int, v: Version)
    requires v.key == K && v.author != v.approver && v.effectiveFrom != 0
    ensures var s := Settled(now, v);
            && s.store.rows == [OLD, v] && s.store.outbox == [OutboxRow(Event(K, 1), true)] && s.now == now
            && |s.stream| == 1 && s.group.cursor == 1 && s.group.pending == [] && s.client == Client(map[], map[])
  {
    var e := Event(K, 1);
    var s0 := Quiet(now);
    var s1 := Apply(s0, Write(v));
    assert s1.store.rows == [OLD, v] && s1.store.outbox == [OutboxRow(e, false)];
    var s2 := Apply(s1, Relay(0, true));
    assert s2.stream == [Entry(1, e)] && s2.store.outbox == [OutboxRow(e, true)];
    var s3 := Apply(s2, Deliver(1));
    DeliverFirst(e);
    assert s3.group == Group(0, 1, [Message(1, e, 1)], map[1 := 1], []);
    var s4 := Apply(s3, Handle(0, true));
    assert IsPending(s3.group.pending, 1) by {
      assert s3.group.pending[0].seqId == 1;
    }
    assert Without([Message(1, e, 1)], 1) == [];
    assert s4.group.pending == [];
    hide Apply, Without, Consumed;
    RunCons(s3, Handle(0, true), []);
    RunCons(s2, Deliver(1), [Handle(0, true)]);
    RunCons(s1, Relay(0, true), [Deliver(1), Handle(0, true)]);
    RunCons(s0, Write(v), [Relay(0, true), Deliver(1), Handle(0, true)]);
    assert [Handle(0, true)] + [] == [Handle(0, true)];
    assert [Deliver(1)] + [Handle(0, true)] == [Deliver(1), Handle(0, true)];
    assert [Relay(0, true)] + [Deliver(1), Handle(0, true)] == [Relay(0, true), Deliver(1), Handle(0, true)];
    assert [Write(v)] + [Relay(0, true), Deliver(1), Handle(0, true)] == [Write(v), Relay(0, true), Deliver(1), Handle(0, true)];
  }

  lemma DeliverFirst(e: Event)
    ensures Consumed([Entry(1, e)], NewGroup(0), 1) == Group(0, 1, [Message(1, e, 1)], map[1 := 1], [])
  {
    var es := NextEntries([Entry(1, e)], NewGroup(0), 1);
    assert es == [Entry(1, e)] && es[..0] == [];
    assert Delivered(map[], es) == [Message(1, e, 1)];
    assert Tally(map[], es) == map[1 := 1];
  }

  lemma TwoRows(v: Version, now: int)
    requires v.key == K && v.effectiveFrom > 0 && now >= 0
    ensures GetEffective([OLD, v], K, now) == Ok(AsResponse([OLD, v], if v.effectiveFrom <= now then 1 else 0))
    ensures GetEffective([OLD], K, now) == Ok(AsResponse([OLD], 0))
  {
    assert [OLD, v][..1] == [OLD] && [OLD][..0] == [];
    assert EffectiveRow([OLD], K, now) == Some(0);
  }

  /** A forward-dated write: its event is spent before the row is in force, and the cache then goes stale. */
  lemma ForwardDatedGoesStale()
    ensures var v := Version(K, "9", 10, "a", "b");
            var s := Apply(Apply(Settled(0, v), Get(K, None, None, 0, false)), Tick(10));
            !Outstanding(s, K) && !Coherent(s, K)
  {
    hide Settled, EffectiveRow;
    var v := Version(K, "9", 10, "a", "b");
    SettledState(0, v);
    TwoRows(v, 0);
    TwoRows(v, 10);
  }

  /**
   The reads of a run are atomic. A read that fetches, is overtaken by a write and its whole
   invalidation, and only then stores what it fetched, leaves a stale entry that no event will
   remove.
   */
  lemma OvertakenReadGoesStale()
    ensures var v := Version(K, "9", 5, "a", "b");
            var fetched := GetEffective(Quiet(5).store.rows, K, 5);
            && fetched.Ok?
            && var t := Settled(5, v);
               var s := t.(client := Keep(t.client, K, fetched.value, 0));
               !Outstanding(s, K) && !Coherent(s, K)
  {
    hide Settled, EffectiveRow;
    var v := Version(K, "9", 5, "a", "b");
    SettledState(5, v);
    TwoRows(v, 5);
  }
}
