/**
 The config client's two caches (libs/config_client/src/landconfigclient/client.py), the
 subscriber that invalidates them (subscriber.py), and the pipe their events travel through:
 outbox, relay, broker, consumer group.
 */
module ConfigCache {
  import opened Wrappers
  import opened ConfigVersions
  import MessageQueue

  datatype CacheEntry = CacheEntry(value: Response, cachedAt: int)

  datatype Client = Client(pinned: map<(Key, nat), Response>, effective: map<Key, CacheEntry>)

  // ----- the client -----

  predicate Expired(entry: CacheEntry, ttl: Option<int>, clock: int) {
    ttl.Some? && clock - entry.cachedAt >= ttl.value
  }

  /** A pinned read: the cache, else the exact row. */
  function ReadPinned(c: Client, rows: seq<Version>, key: Key, id: nat): (Client, Result<Response, Error>) {
    if (key, id) in c.pinned then (c, Ok(c.pinned[(key, id)]))
    else
      var r := GetPinned(rows, key, id);
      (if r.Ok? then c.(pinned := c.pinned[(key, id) := r.value]) else c, r)
  }

  /** Keep a fetched effective value, and warm the pinned cache with it. */
  function Keep(c: Client, key: Key, value: Response, clock: int): Client {
    var pinned := if (key, value.version) in c.pinned then c.pinned else c.pinned[(key, value.version) := value];
    Client(pinned, c.effective[key := CacheEntry(value, clock)])
  }

  predicate IsCached(c: Client, key: Key, ttl: Option<int>, clock: int) {
    key in c.effective && !Expired(c.effective[key], ttl, clock)
  }

  /** An unpinned read; refused while a work envelope is pinned. */
  function ReadEffective(c: Client, rows: seq<Version>, key: Key, now: int, ttl: Option<int>, clock: int,
                         envelopePinned: bool): (Client, Result<Response, Error>)
  {
    if envelopePinned then (c, Err(EnvelopePinned))
    else if IsCached(c, key, ttl, clock) then (c, Ok(c.effective[key].value))
    else
      var r := GetEffective(rows, key, now);
      (if r.Ok? then Keep(c, key, r.value, clock) else c, r)
  }

  function Invalidate(c: Client, key: Key): Client {
    c.(effective := c.effective - {key})
  }

  class ConfigClient {
    const ttl: Option<int>
    var pinnedCache: map<(Key, nat), Response>
    var effectiveCache: map<Key, CacheEntry>

    constructor (ttl: Option<int>)
      ensures Value() == Client(map[], map[]) && this.ttl == ttl
    {
      this.ttl := ttl;
      pinnedCache, effectiveCache := map[], map[];
    }

    function Value(): Client
      reads this
    {
      Client(pinnedCache, effectiveCache)
    }

    /** `rows` and `now` are what the fetch sees. */
    method Get(key: Key, pin: Option<nat>, rows: seq<Version>, now: int, clock: int, envelopePinned: bool)
      returns (r: Result<Response, Error>)
      modifies this
      ensures (Value(), r) == if pin.Some? then ReadPinned(old(Value()), rows, key, pin.value)
                              else ReadEffective(old(Value()), rows, key, now, ttl, clock, envelopePinned)
    {
      if pin.Some? {
        r := GetPinnedRow(key, pin.value, rows);
      } else {
        r := GetEffectiveRow(key, rows, now, clock, envelopePinned);
      }
    }

    method GetPinnedRow(key: Key, id: nat, rows: seq<Version>) returns (r: Result<Response, Error>)
      modifies this
      ensures (Value(), r) == ReadPinned(old(Value()), rows, key, id)
    {
      if (key, id) in pinnedCache {
        return Ok(pinnedCache[(key, id)]);
      }
      r := GetPinned(rows, key, id);
      if r.Ok? {
        pinnedCache := pinnedCache[(key, id) := r.value];
      }
    }

    method GetEffectiveRow(key: Key, rows: seq<Version>, now: int, clock: int, envelopePinned: bool)
      returns (r: Result<Response, Error>)
      modifies this
      ensures (Value(), r) == ReadEffective(old(Value()), rows, key, now, ttl, clock, envelopePinned)
    {
      if envelopePinned {
        return Err(EnvelopePinned);
      }
      if key in effectiveCache && !Expired(effectiveCache[key], ttl, clock) {
        return Ok(effectiveCache[key].value);
      }
      r := GetEffective(rows, key, now);
      if r.Ok? {
        effectiveCache := effectiveCache[key := CacheEntry(r.value, clock)];
        if (key, r.value.version) !in pinnedCache {
          pinnedCache := pinnedCache[(key, r.value.version) := r.value];
        }
      }
    }

    method HandleVersionChangeEvent(e: Event)
      modifies this
      ensures Value() == Invalidate(old(Value()), e.key)
    {
      effectiveCache := effectiveCache - {e.key};
    }

    /** `drain_once` of the subscriber: for each message of one delivery, handle, then ack. */
    method DrainOnce(queue: MessageQueue.InMemoryQueue<Event>, key: MessageQueue.GroupKey, count: nat) returns (n: nat)
      modifies this, queue
      ensures var b := MessageQueue.Step(old(queue.Value()), MessageQueue.Op.Consume(key, count));
              var g := MessageQueue.GroupIn(old(queue.groups), key);
              var ms := MessageQueue.Delivered(g.counts,
                MessageQueue.NextEntries(MessageQueue.StreamIn(old(queue.streams), key.queue), g, count));
              n == |ms| && (Value(), queue.Value()) == Handled(old(Value()), b, key, ms)
    {
      var messages := queue.Consume(key, count);
      ghost var c, b := Value(), queue.Value();
      n := 0;
      while n < |messages|
        invariant n <= |messages|
        invariant Handled(Value(), queue.Value(), key, messages[n..]) == Handled(c, b, key, messages)
      {
        HandleVersionChangeEvent(messages[n].data);
        queue.Ack(key, messages[n].seqId);
        n := n + 1;
      }
    }
  }

  function Handled(c: Client, b: MessageQueue.Broker<Event>, key: MessageQueue.GroupKey,
                   ms: seq<MessageQueue.Message<Event>>): (Client, MessageQueue.Broker<Event>)
    decreases |ms|
  {
    if ms == [] then (c, b)
    else
      Handled(Invalidate(c, ms[0].data.key), MessageQueue.Step(b, MessageQueue.Op.Ack(key, ms[0].seqId)), key, ms[1..])
  }
}
