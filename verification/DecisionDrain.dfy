/**
 The decision worker makes progress: once mishaps and publications end, every published
 message leaves the queue, decided or dead-lettered, whatever other writers do meanwhile.
 */
module DecisionDrain {
  import opened HashChain
  import opened MessageQueue
  import opened DecisionDelivery
  import W = WorkerRunner
  import WP = WorkerRunnerProofs
  import DrainProofs
  import D = DecisionEngine
  import DP = DecisionProofs

  const WORKS := W.Fate(W.Returns, W.Completes)

  function Idle(n: nat): (r: seq<W.Fate>)
    ensures |r| == n && forall i :: 0 <= i < n ==> r[i] == WORKS
  {
    seq(n, _ => WORKS)
  }

  /** What the runner sees of a batch: the fates of the handler calls, each on the tables the calls before it left. */
  function Fates(c: Crypto, w: World, batch: seq<Message<Envelope>>, turns: seq<Turn>, max: nat): (r: seq<W.Fate>)
    ensures |r| == |turns|
    decreases |turns|
  {
    if turns == [] then []
    else if batch == [] then Idle(|turns|)
    else
      var (w', outcome) := DeliverOne(c, w, batch[0], turns[0], max);
      [FateFor(c, w, batch[0], turns[0], max)] +
      if outcome == W.Finished then Fates(c, w', batch[1..], turns[1..], max) else Idle(|turns| - 1)
  }

  /** The worker is a runner whose handler has these fates. */
  lemma {:induction false} BatchIsARunnerBatch(c: Crypto, w: World, batch: seq<Message<Envelope>>, turns: seq<Turn>, max: nat)
    ensures var (w', outcome) := DeliverBatch(c, w, batch, turns, max);
            (w'.site, outcome) == W.ProcessBatch(w.site, batch, Fates(c, w, batch, turns, max), max)
    decreases |batch|
  {
    hide FateFor, DbAfter, W.ProcessOne;
    if batch != [] && turns != [] {
      var (w', outcome) := DeliverOne(c, w, batch[0], turns[0], max);
      var fates := Fates(c, w, batch, turns, max);
      assert fates[0] == FateFor(c, w, batch[0], turns[0], max);
      if outcome == W.Finished {
        BatchIsARunnerBatch(c, w', batch[1..], turns[1..], max);
        assert fates[1..] == Fates(c, w', batch[1..], turns[1..], max);
      }
    }
  }

  /** No process dies, and none is stopped within its batch. */
  predicate SmoothTurns(turns: seq<Turn>, count: nat) {
    |turns| >= count && forall i :: 0 <= i < |turns| ==> turns[i].mishap == Smooth && turns[i].deadLetter == W.Completes
  }

  lemma {:induction false} SmoothFates(c: Crypto, w: World, batch: seq<Message<Envelope>>, turns: seq<Turn>, max: nat)
    requires SmoothTurns(turns, 0)
    ensures forall i :: 0 <= i < |turns| ==>
              var f := Fates(c, w, batch, turns, max)[i]; f.handler in {W.Returns, W.Raises} && f.deadLetter == W.Completes
    decreases |turns|
  {
    hide DeliverOne, Handle;
    if turns != [] && batch != [] {
      var (w', outcome) := DeliverOne(c, w, batch[0], turns[0], max);
      if outcome == W.Finished {
        SmoothFates(c, w', batch[1..], turns[1..], max);
      }
    }
  }

  /** What may go on while the backlog drains: smooth calls, and any other writer of the tables. */
  predicate Calm(events: seq<Event>, count: nat) {
    forall i :: 0 <= i < |events| ==> events[i].Elsewhere? || (events[i].Called? && SmoothTurns(events[i].turns, count))
  }

  function Calls(events: seq<Event>): nat {
    if events == [] then 0 else Calls(events[1..]) + if events[0].Called? then 1 else 0
  }

  /** A smooth call of the worker is a clean call of the runner. */
  lemma SmoothCallProgresses(c: Crypto, w: World, count: nat, max: nat, turns: seq<Turn>)
    requires WP.Safe(w.site) && count >= 1 && max >= 1 && SmoothTurns(turns, count)
    ensures var s' := After(c, w, count, max, Called(turns)).site;
            && WP.Safe(s') && s'.stream == w.site.stream && s'.group.start == w.site.group.start
            && 0 <= DrainProofs.Unfinished(s') <= DrainProofs.Unfinished(w.site)
            && (DrainProofs.Unfinished(w.site) > 0 ==> DrainProofs.Remaining(s', max) < DrainProofs.Remaining(w.site, max))
  {
    var w1, batch := w.(site := W.Delivering(w.site, count)), W.Batch(w.site, count);
    var fates := Fates(c, w1, batch, turns, max);
    BatchIsARunnerBatch(c, w1, batch, turns, max);
    SmoothFates(c, w1, batch, turns, max);
    hide WP.Safe, DeliverBatch, Fates;
    assert DrainProofs.Clean(fates, count);
    DrainProofs.CleanCallProgresses(w.site, count, max, fates);
    DrainProofs.BatchKeepsStream(w1.site, batch, fates, max);
    hide W.ProcessBatch, DrainProofs.Unfinished, DrainProofs.Remaining;
  }

  lemma {:induction false} CalmEventsDrain(c: Crypto, w: World, count: nat, max: nat, events: seq<Event>)
    requires WP.Safe(w.site) && count >= 1 && max >= 1 && Calm(events, count)
    requires Calls(events) >= DrainProofs.Remaining(w.site, max)
    ensures var s' := History(c, w, count, max, events).site;
            && WP.Safe(s') && DrainProofs.Unfinished(s') == 0
            && s'.stream == w.site.stream && s'.group.start == w.site.group.start
    decreases |events|
  {
    hide WP.Safe, SmoothTurns;
    DrainProofs.UnfinishedIsNatural(w.site);
    if events == [] {
      if DrainProofs.Unfinished(w.site) > 0 {
        DrainProofs.FewerAreCheaper(0, DrainProofs.Unfinished(w.site), max);
      }
    } else {
      var w' := After(c, w, count, max, events[0]);
      if events[0].Called? {
        SmoothCallProgresses(c, w, count, max, events[0].turns);
        if DrainProofs.Unfinished(w.site) == 0 {
          DrainProofs.UnfinishedIsNatural(w'.site);
        }
      }
      hide After;
      CalmEventsDrain(c, w', count, max, events[1..]);
    }
  }

  lemma {:induction false} CalmIsFresh(c: Crypto, w: World, count: nat, max: nat, events: seq<Event>)
    requires Calm(events, count)
    ensures FreshAlong(c, w, count, max, events)
    decreases |events|
  {
    hide After, SmoothTurns, WP.Fresh;
    if events != [] {
      CalmIsFresh(c, After(c, w, count, max, events[0]), count, max, events[1..]);
    }
  }

  /**
   Every decision message arrives. After any history of publications, failures, stops, crashes
   and other writers, as many smooth calls as there are deliveries left, with other writers in
   between, leave each published message's extraction decided exactly once, or the message
   dead-lettered with a note.
   */
  lemma EveryMessageIsDecidedOrDeadLettered(c: Crypto, w: World, count: nat, max: nat, events: seq<Event>,
                                            calm: seq<Event>, j: nat)
    requires WP.Safe(w.site) && FreshAlong(c, w, count, max, events) && count >= 1 && max >= 1 && Calm(calm, count)
    requires var before := History(c, w, count, max, events).site;
             && Calls(calm) >= DrainProofs.Remaining(before, max)
             && before.group.start <= j < |before.stream|
             && Effective(w, before.stream[j].data.extraction)
    ensures var before := History(c, w, count, max, events);
            var end := History(c, before, count, max, calm);
            && end.site.stream == before.site.stream
            && var entry := end.site.stream[j];
               || DP.OwnOnce(DP.ViewOf(end.db, entry.data.extraction))
               || (entry.data in end.site.dlq && exists n :: n in end.site.notes && n.messageId == entry.seqId)
  {
    hide WP.Safe, Effective, History, FreshAlong, Calm, Calls, DP.OwnOnce, DP.ViewOf;
    var before := History(c, w, count, max, events);
    var e := before.site.stream[j].data.extraction;
    HistoriesAreEffective(c, w, count, max, events, e);
    CalmEventsDrain(c, before, count, max, calm);
    CalmIsFresh(c, before, count, max, calm);
    HistoriesAreEffective(c, before, count, max, calm, e);
    AckedNow(History(c, before, count, max, calm), j);
  }
}
