/** The two-person rule, over every run of the review desk. */
module ReviewDeskProofs {
  import opened Wrappers
  import opened ReviewDesk

  // ----- what every run keeps -----

  /**
   A correction that a second person was needed for comes from a pending correction that was
   made by one person and confirmed by another; its distance is the real one.
   */
  ghost predicate CorrectionOk(d: Desk, i: nat)
    requires i < |d.corrections|
  {
    var c := d.corrections[i];
    && c.distance == EditDistance.Distance(c.predicted, c.corrected)
    && c.extractionId in d.extractions
    && match c.origin
       case Direct(t) => !NeedsSecondPerson(d.extractions[c.extractionId].fieldName, c.distance) && t < |d.tasks|
       case Confirmed(p) =>
         && p < |d.pendings|
         && d.pendings[p].confirmedBy == Some(c.actor) && c.actor != d.pendings[p].firstActor
         && d.pendings[p].correction == Some(i)
         && c == Correction(d.pendings[p].extractionId, d.pendings[p].predicted, d.pendings[p].corrected,
                            d.pendings[p].distance, c.actor, d.pendings[p].stream, d.pendings[p].digest, Confirmed(p))
  }

  /** The task of a pending correction is closed and stays with the maker. */
  ghost predicate PendingOk(d: Desk, i: nat)
    requires i < |d.pendings|
  {
    var p := d.pendings[i];
    && p.distance == EditDistance.Distance(p.predicted, p.corrected)
    && p.extractionId in d.extractions && p.fieldClass == d.extractions[p.extractionId].fieldName
    && NeedsSecondPerson(p.fieldClass, p.distance)
    && p.task < |d.tasks|
    && d.tasks[p.task].closed && d.tasks[p.task].assignee == Some(p.firstActor)
    && d.tasks[p.task].extractionId == p.extractionId
    && p.confirmedBy.Some? == p.correction.Some?
    && (p.correction.Some? ==>
          p.correction.value < |d.corrections| && d.corrections[p.correction.value].origin == Confirmed(i))
  }

  function DirectFrom(cs: seq<Correction>, task: nat): nat {
    if cs == [] then 0
    else DirectFrom(cs[..|cs| - 1], task) + if cs[|cs| - 1].origin == Direct(task) then 1 else 0
  }

  function HeldFrom(ps: seq<Pending>, task: nat): nat {
    if ps == [] then 0
    else HeldFrom(ps[..|ps| - 1], task) + if ps[|ps| - 1].task == task then 1 else 0
  }

  /** A task is closed exactly when one correction or one pending correction came from it. */
  ghost predicate TaskOk(d: Desk, i: nat)
    requires i < |d.tasks|
  {
    DirectFrom(d.corrections, i) + HeldFrom(d.pendings, i) == if d.tasks[i].closed then 1 else 0
  }

  ghost predicate TwoPeople(d: Desk) {
    && (forall i :: 0 <= i < |d.corrections| ==> CorrectionOk(d, i))
    && (forall i :: 0 <= i < |d.pendings| ==> PendingOk(d, i))
    && (forall i :: 0 <= i < |d.tasks| ==> TaskOk(d, i))
  }

  // ----- proofs -----

  lemma DirectSnoc(cs: seq<Correction>, c: Correction, task: nat)
    ensures DirectFrom(cs + [c], task) == DirectFrom(cs, task) + if c.origin == Direct(task) then 1 else 0
  {
    assert (cs + [c])[..|cs|] == cs;
  }

  lemma HeldSnoc(ps: seq<Pending>, p: Pending, task: nat)
    ensures HeldFrom(ps + [p], task) == HeldFrom(ps, task) + if p.task == task then 1 else 0
  {
    assert (ps + [p])[..|ps|] == ps;
  }

  lemma {:induction false} HeldUpdate(ps: seq<Pending>, k: nat, p: Pending, task: nat)
    requires k < |ps| && p.task == ps[k].task
    ensures HeldFrom(ps[k := p], task) == HeldFrom(ps, task)
  {
    var n := |ps| - 1;
    if k == n {
      assert ps[k := p][..n] == ps[..n];
    } else {
      assert ps[k := p][..n] == ps[..n][k := p];
      HeldUpdate(ps[..n], k, p, task);
    }
  }

  lemma {:induction false} NoneFrom(d: Desk, task: nat)
    requires forall i :: 0 <= i < |d.corrections| ==> d.corrections[i].origin != Direct(task)
    requires forall i :: 0 <= i < |d.pendings| ==> d.pendings[i].task != task
    ensures DirectFrom(d.corrections, task) == HeldFrom(d.pendings, task) == 0
    decreases |d.corrections| + |d.pendings|
  {
    if d.corrections != [] {
      NoneFrom(d.(corrections := d.corrections[..|d.corrections| - 1]), task);
    } else if d.pendings != [] {
      NoneFrom(d.(pendings := d.pendings[..|d.pendings| - 1]), task);
    }
  }

  /** Calls that only hand out, take back or open tasks. */
  lemma TaskCallsKeep(d: Desk, action: Action)
    requires TwoPeople(d) && (action.OpenTask? || action.ClaimNext? || action.Skip?)
    ensures TwoPeople(Apply(d, action).0)
  {
    hide EditDistance.Distance, NeedsSecondPerson, DirectFrom, HeldFrom, NextTask;
    var d' := Apply(d, action).0;
    forall i | 0 <= i < |d'.corrections| ensures CorrectionOk(d', i) {
      assert CorrectionOk(d, i);
    }
    forall i | 0 <= i < |d'.pendings| ensures PendingOk(d', i) {
      assert PendingOk(d, i);
    }
    forall i | 0 <= i < |d'.tasks| ensures TaskOk(d', i) {
      if i < |d.tasks| {
        assert TaskOk(d, i);
      } else {
        forall k | 0 <= k < |d.corrections| ensures d.corrections[k].origin != Direct(i) {
          assert CorrectionOk(d, k);
        }
        forall k | 0 <= k < |d.pendings| ensures d.pendings[k].task != i {
          assert PendingOk(d, k);
        }
        NoneFrom(d, i);
      }
    }
  }

  /** A submission closes its task and writes one row, here or there. */
  lemma SubmitKeeps(d: Desk, task: nat, actor: string, corrected: string)
    requires TwoPeople(d)
    ensures TwoPeople(AfterSubmit(d, task, actor, corrected).0)
  {
    hide EditDistance.Distance, DirectFrom, HeldFrom;
    var (d', r) := AfterSubmit(d, task, actor, corrected);
    if r.Ok? {
      forall i | 0 <= i < |d'.corrections| ensures CorrectionOk(d', i) {
        if i < |d.corrections| {
          assert CorrectionOk(d, i);
        }
      }
      forall i | 0 <= i < |d'.pendings| ensures PendingOk(d', i) {
        if i < |d.pendings| {
          assert PendingOk(d, i);
        }
      }
      forall i | 0 <= i < |d'.tasks| ensures TaskOk(d', i) {
        assert TaskOk(d, i);
        if |d'.corrections| > |d.corrections| {
          DirectSnoc(d.corrections, d'.corrections[|d.corrections|], i);
        }
        if |d'.pendings| > |d.pendings| {
          HeldSnoc(d.pendings, d'.pendings[|d.pendings|], i);
        }
      }
    }
  }

  /** A confirmation adds the correction that its pending row describes. */
  lemma ConfirmKeeps(d: Desk, pending: nat, actor: string)
    requires TwoPeople(d)
    ensures TwoPeople(AfterConfirm(d, pending, actor).0)
  {
    hide EditDistance.Distance, DirectFrom, HeldFrom, ClaimantOf;
    var (d', r) := AfterConfirm(d, pending, actor);
    if r.Ok? {
      assert PendingOk(d, pending);
      var p, c := d'.pendings[pending], d'.corrections[|d.corrections|];
      forall i | 0 <= i < |d'.corrections| ensures CorrectionOk(d', i) {
        if i < |d.corrections| {
          assert CorrectionOk(d, i);
        }
      }
      forall i | 0 <= i < |d'.pendings| ensures PendingOk(d', i) {
        assert PendingOk(d, i);
      }
      forall i | 0 <= i < |d'.tasks| ensures TaskOk(d', i) {
        assert TaskOk(d, i);
        DirectSnoc(d.corrections, c, i);
        HeldUpdate(d.pendings, pending, p, i);
      }
    }
  }

  lemma ActionKeeps(d: Desk, action: Action)
    requires TwoPeople(d)
    ensures TwoPeople(Apply(d, action).0)
  {
    hide TwoPeople, AfterSubmit, AfterConfirm;
    match action
    case Submit(task, actor, corrected) => SubmitKeeps(d, task, actor, corrected);
    case Confirm(pending, actor) => ConfirmKeeps(d, pending, actor);
    case _ => TaskCallsKeep(d, action);
  }

  function Run(d: Desk, actions: seq<Action>): Desk
    decreases |actions|
  {
    if actions == [] then d else Run(Apply(d, actions[0]).0, actions[1..])
  }

  /**
   Two people. In every state reachable by any calls of any actors: a large change to a
   protected field was made by one person and confirmed by another; a task is closed exactly
   when exactly one correction or pending correction came from it; and the task of a pending
   correction stays with its maker.
   */
  lemma {:induction false} RunsKeepTwoPeople(d: Desk, actions: seq<Action>)
    requires TwoPeople(d)
    ensures TwoPeople(Run(d, actions))
    decreases |actions|
  {
    hide TwoPeople, Apply;
    if actions != [] {
      ActionKeeps(d, actions[0]);
      RunsKeepTwoPeople(Apply(d, actions[0]).0, actions[1..]);
    }
  }

  /** Spelled out for one correction. */
  lemma LargeChangeHasTwoPeople(d: Desk, i: nat)
    requires TwoPeople(d) && i < |d.corrections|
    requires var c := d.corrections[i];
             c.extractionId in d.extractions && d.extractions[c.extractionId].fieldName in PROTECTED_FIELDS
             && EditDistance.Distance(c.predicted, c.corrected) > EDIT_DISTANCE_THRESHOLD
    ensures var c := d.corrections[i];
            exists p :: 0 <= p < |d.pendings|
              && d.pendings[p].extractionId == c.extractionId && d.pendings[p].corrected == c.corrected
              && d.pendings[p].firstActor != c.actor && d.pendings[p].confirmedBy == Some(c.actor)
  {
    hide EditDistance.Distance;
    assert CorrectionOk(d, i);
    assert d.corrections[i].origin.Confirmed?;
    var p := d.corrections[i].origin.pending;
    assert d.pendings[p].confirmedBy == Some(d.corrections[i].actor);
  }

  /** The holder of the first task of an extraction. */
  ghost predicate HoldsFirst(tasks: seq<Task>, extractionId: string, actor: string) {
    exists i :: 0 <= i < |tasks| && tasks[i].extractionId == extractionId && tasks[i].assignee == Some(actor)
      && forall j :: 0 <= j < i ==> tasks[j].extractionId != extractionId
  }

  lemma {:induction false} ClaimantHoldsFirst(tasks: seq<Task>, extractionId: string, actor: string)
    ensures ClaimantOf(tasks, extractionId) == Some(actor) <==> HoldsFirst(tasks, extractionId, actor)
  {
    if tasks != [] && tasks[0].extractionId != extractionId {
      var rest := tasks[1..];
      ClaimantHoldsFirst(rest, extractionId, actor);
      if HoldsFirst(rest, extractionId, actor) {
        var i :| 0 <= i < |rest| && rest[i].extractionId == extractionId && rest[i].assignee == Some(actor)
          && forall j :: 0 <= j < i ==> rest[j].extractionId != extractionId;
        assert tasks[i + 1] == rest[i];
        assert forall j :: 1 <= j < i + 1 ==> tasks[j] == rest[j - 1];
      }
      if HoldsFirst(tasks, extractionId, actor) {
        var i :| 0 <= i < |tasks| && tasks[i].extractionId == extractionId && tasks[i].assignee == Some(actor)
          && forall j :: 0 <= j < i ==> tasks[j].extractionId != extractionId;
        assert rest[i - 1] == tasks[i];
      }
    }
  }

  /**
   Exactly who may confirm a pending correction not yet resolved: anyone but its maker and the
   holder of the first task of its extraction.
   */
  lemma ConfirmSucceedsIff(d: Desk, pending: nat, actor: string)
    ensures AfterConfirm(d, pending, actor).1.Ok? <==>
              && pending < |d.pendings| && d.pendings[pending].confirmedBy.None? && actor != d.pendings[pending].firstActor
              && !HoldsFirst(d.tasks, d.pendings[pending].extractionId, actor)
  {
    if pending < |d.pendings| {
      ClaimantHoldsFirst(d.tasks, d.pendings[pending].extractionId, actor);
    }
    hide HoldsFirst;
  }

  /** No extraction has two tasks. */
  ghost predicate OneTaskEach(tasks: seq<Task>) {
    forall i, j :: 0 <= i < j < |tasks| ==> tasks[i].extractionId != tasks[j].extractionId
  }

  /** A task is opened for an extraction that has none, as the decision engine does. */
  ghost predicate OpensForNew(d: Desk, action: Action) {
    action.OpenTask? ==> forall i :: 0 <= i < |d.tasks| ==> d.tasks[i].extractionId != action.extractionId
  }

  ghost predicate OpensForNewAlong(d: Desk, actions: seq<Action>)
    decreases |actions|
  {
    actions != [] ==> OpensForNew(d, actions[0]) && OpensForNewAlong(Apply(d, actions[0]).0, actions[1..])
  }

  /** No call but the opening of a task changes which extraction a task is about. */
  lemma TasksKeepExtractions(d: Desk, action: Action)
    ensures var tasks, tasks' := d.tasks, Apply(d, action).0.tasks;
            && |tasks'| == |tasks| + (if action.OpenTask? then 1 else 0)
            && (forall i :: 0 <= i < |tasks| ==> tasks'[i].extractionId == tasks[i].extractionId)
            && (action.OpenTask? ==> tasks'[|tasks|].extractionId == action.extractionId)
  {
    hide EditDistance.Distance;
  }

  lemma {:induction false} RunsKeepOneTask(d: Desk, actions: seq<Action>)
    requires OneTaskEach(d.tasks) && OpensForNewAlong(d, actions)
    ensures OneTaskEach(Run(d, actions).tasks)
    decreases |actions|
  {
    hide Apply;
    if actions != [] {
      TasksKeepExtractions(d, actions[0]);
      RunsKeepOneTask(Apply(d, actions[0]).0, actions[1..]);
    }
  }

  /**
   Along such runs the two actor checks agree: the claimant of a pending correction is its
   maker, so anyone else may confirm it.
   */
  lemma OnlyTheMakerIsRefused(d: Desk, actions: seq<Action>, pending: nat, actor: string)
    requires TwoPeople(d) && OneTaskEach(d.tasks) && OpensForNewAlong(d, actions)
    ensures var end := Run(d, actions);
            AfterConfirm(end, pending, actor).1.Ok? <==>
              pending < |end.pendings| && end.pendings[pending].confirmedBy.None? && actor != end.pendings[pending].firstActor
  {
    RunsKeepTwoPeople(d, actions);
    RunsKeepOneTask(d, actions);
    var end := Run(d, actions);
    ConfirmSucceedsIff(end, pending, actor);
    hide Run, AfterConfirm, OpensForNewAlong, EditDistance.Distance;
    if pending < |end.pendings| && HoldsFirst(end.tasks, end.pendings[pending].extractionId, actor) {
      assert PendingOk(end, pending);
    }
  }

  // ----- what is compared, and who asked for it -----

  /** What the model read: the canonical value, or the raw one when that is missing or empty. */
  predicate Reads(x: Extraction, text: string) {
    match x.canonical
    case None => text == x.raw
    case Some(canonical) => if canonical == "" then text == x.raw else text == canonical
  }

  /** A change of more than four edits to a protected field. */
  predicate Large(x: Extraction, text: string, corrected: string) {
    && (x.fieldName == "owner_name" || x.fieldName == "share_fraction" || x.fieldName == "area" || x.fieldName == "survey_number")
    && EditDistance.Distance(text, corrected) > 4
  }

  /** What the claimant's submission writes: one row with the two texts, held exactly when the change is large. */
  lemma SubmitWrites(d: Desk, task: nat, actor: string, corrected: string, x: Extraction, text: string)
    requires task < |d.tasks| && !d.tasks[task].closed && d.tasks[task].assignee == Some(actor)
    requires d.tasks[task].extractionId in d.extractions && x == d.extractions[d.tasks[task].extractionId]
    requires x.digest.Some? && Reads(x, text)
    ensures var (after, r) := AfterSubmit(d, task, actor, corrected);
            var t, distance := d.tasks[task], EditDistance.Distance(text, corrected);
            && after.extractions == d.extractions && after.tasks == d.tasks[task := t.(closed := true)]
            && if Large(x, text, corrected) then
                 && r == Ok(Held(|d.pendings|)) && after.corrections == d.corrections
                 && after.pendings == d.pendings + [Pending(t.extractionId, text, corrected, distance, x.fieldName, actor,
                                                            t.stream, x.digest.value, task, None, None)]
               else
                 && r == Ok(Corrected(|d.corrections|)) && after.pendings == d.pendings
                 && after.corrections == d.corrections + [Correction(t.extractionId, text, corrected, distance, actor,
                                                                     t.stream, x.digest.value, Direct(task))]
  {
    hide EditDistance.Distance;
  }

  /** The claimant of the oldest free task becomes its assignee; a skip hands a held task back; nothing else changes. */
  lemma ClaimAndSkipWrite(d: Desk, actor: string, task: nat)
    ensures var (after, r), next := Apply(d, ClaimNext(actor)), NextTask(d.tasks);
            && r == Ok(Claimed(next))
            && after == d.(tasks := if next.None? then d.tasks
                                    else d.tasks[next.value := d.tasks[next.value].(assignee := Some(actor))])
    ensures var (after, r) := Apply(d, Skip(task, actor));
            && (r.Ok? <==> task < |d.tasks| && !d.tasks[task].closed && d.tasks[task].assignee == Some(actor))
            && (r.Ok? ==> r.value == Done && after == d.(tasks := d.tasks[task := d.tasks[task].(assignee := None)]))
            && (r.Err? ==> after == d && r.error == if task >= |d.tasks| then NotFound
                                                    else if d.tasks[task].closed then NotClaimable else NotTheClaimant)
  {
    hide NextTask;
  }

  /** Why a submission is refused; then nothing changes. */
  lemma SubmitRefusals(d: Desk, task: nat, actor: string, corrected: string)
    ensures var (after, r) := AfterSubmit(d, task, actor, corrected);
            && (r.Err? ==> after == d)
            && (task >= |d.tasks| ==> r == Err(NotFound))
            && (task < |d.tasks| && d.tasks[task].closed ==> r == Err(NotClaimable))
            && (task < |d.tasks| && !d.tasks[task].closed && d.tasks[task].assignee != Some(actor) ==> r == Err(NotTheClaimant))
            && (task < |d.tasks| && !d.tasks[task].closed && d.tasks[task].assignee == Some(actor) ==>
                  var id := d.tasks[task].extractionId;
                  && (id !in d.extractions ==> r == Err(NotFound))
                  && (id in d.extractions && d.extractions[id].digest == None ==> r == Err(NoStoredImage)))
  {
    hide EditDistance.Distance;
  }

  /** What a confirmation by a second person writes. */
  lemma ConfirmWrites(d: Desk, pending: nat, actor: string)
    requires AfterConfirm(d, pending, actor).1.Ok?
    ensures pending < |d.pendings|
    ensures var after, p := AfterConfirm(d, pending, actor).0, d.pendings[pending];
            && after.extractions == d.extractions && after.tasks == d.tasks
            && after.corrections == d.corrections + [Correction(p.extractionId, p.predicted, p.corrected, p.distance, actor,
                                                                p.stream, p.digest, Confirmed(pending))]
            && after.pendings == d.pendings[pending := p.(confirmedBy := Some(actor), correction := Some(|d.corrections|))]
    ensures AfterConfirm(d, pending, actor).1 == Ok(Corrected(|d.corrections|))
  {
    hide ClaimantOf;
  }

  ghost predicate CorrectionSourced(d: Desk, actions: seq<Action>, c: Correction) {
    && c.extractionId in d.extractions && Reads(d.extractions[c.extractionId], c.predicted)
    && match c.origin
       case Direct(task) =>
         Submit(task, c.actor, c.corrected) in actions && !Large(d.extractions[c.extractionId], c.predicted, c.corrected)
       case Confirmed(p) => Confirm(p, c.actor) in actions
  }

  ghost predicate PendingSourced(d: Desk, actions: seq<Action>, p: Pending) {
    && p.extractionId in d.extractions && Reads(d.extractions[p.extractionId], p.predicted)
    && Submit(p.task, p.firstActor, p.corrected) in actions
    && Large(d.extractions[p.extractionId], p.predicted, p.corrected)
  }

  /** Every row holds the extraction's reading and the text of the submission that made it. */
  ghost predicate Sourced(d: Desk, actions: seq<Action>) {
    && (forall i :: 0 <= i < |d.corrections| ==> CorrectionSourced(d, actions, d.corrections[i]))
    && (forall i :: 0 <= i < |d.pendings| ==> PendingSourced(d, actions, d.pendings[i]))
  }

  lemma PredictedIsWhatReads(x: Extraction)
    ensures Reads(x, Predicted(x))
  {
  }

  lemma SourcedGrows(d: Desk, actions: seq<Action>, more: Action)
    requires Sourced(d, actions)
    ensures Sourced(d, actions + [more])
  {
    hide Reads, Large;
    forall i | 0 <= i < |d.corrections| ensures CorrectionSourced(d, actions + [more], d.corrections[i]) {
      assert CorrectionSourced(d, actions, d.corrections[i]);
    }
    forall i | 0 <= i < |d.pendings| ensures PendingSourced(d, actions + [more], d.pendings[i]) {
      assert PendingSourced(d, actions, d.pendings[i]);
    }
  }

  lemma SubmitIsSourced(d: Desk, actions: seq<Action>, task: nat, actor: string, corrected: string)
    requires Sourced(d, actions) && Submit(task, actor, corrected) in actions
    ensures Sourced(AfterSubmit(d, task, actor, corrected).0, actions)
  {
    hide Reads, Large;
    if AfterSubmit(d, task, actor, corrected).1.Ok? {
      SubmitRefusals(d, task, actor, corrected);
      hide AfterSubmit;
      var x := d.extractions[d.tasks[task].extractionId];
      PredictedIsWhatReads(x);
      SubmitWrites(d, task, actor, corrected, x, Predicted(x));
      var after := AfterSubmit(d, task, actor, corrected).0;
      forall i | 0 <= i < |after.corrections| ensures CorrectionSourced(after, actions, after.corrections[i]) {
        assert i < |d.corrections| ==> CorrectionSourced(d, actions, d.corrections[i]);
      }
      forall i | 0 <= i < |after.pendings| ensures PendingSourced(after, actions, after.pendings[i]) {
        assert i < |d.pendings| ==> PendingSourced(d, actions, d.pendings[i]);
      }
    }
  }

  lemma ConfirmIsSourced(d: Desk, actions: seq<Action>, pending: nat, actor: string)
    requires Sourced(d, actions) && Confirm(pending, actor) in actions
    ensures Sourced(AfterConfirm(d, pending, actor).0, actions)
  {
    hide Reads, Large;
    if AfterConfirm(d, pending, actor).1.Ok? {
      ConfirmWrites(d, pending, actor);
      hide AfterConfirm;
      var after := AfterConfirm(d, pending, actor).0;
      assert PendingSourced(d, actions, d.pendings[pending]);
      forall i | 0 <= i < |after.corrections| ensures CorrectionSourced(after, actions, after.corrections[i]) {
        assert i < |d.corrections| ==> CorrectionSourced(d, actions, d.corrections[i]);
      }
      forall i | 0 <= i < |after.pendings| ensures PendingSourced(after, actions, after.pendings[i]) {
        assert PendingSourced(d, actions, d.pendings[i]);
      }
    }
  }

  lemma {:induction false} RunsAreSourced(d: Desk, before: seq<Action>, actions: seq<Action>)
    requires Sourced(d, before)
    ensures Sourced(Run(d, actions), before + actions) && Run(d, actions).extractions == d.extractions
    decreases |actions|
  {
    hide Sourced, AfterSubmit, AfterConfirm;
    if actions == [] {
      assert before + [] == before;
    } else {
      SourcedGrows(d, before, actions[0]);
      var so := before + [actions[0]];
      assert actions[0] in so;
      ActionIsSourced(d, so, actions[0]);
      assert so + actions[1..] == before + actions;
      hide Apply;
      RunsAreSourced(Apply(d, actions[0]).0, so, actions[1..]);
    }
  }

  lemma ActionIsSourced(d: Desk, actions: seq<Action>, action: Action)
    requires Sourced(d, actions) && action in actions
    ensures Sourced(Apply(d, action).0, actions) && Apply(d, action).0.extractions == d.extractions
  {
    hide Reads, Large, EditDistance.Distance;
    match action
    case Submit(task, actor, corrected) => SubmitIsSourced(d, actions, task, actor, corrected);
    case Confirm(pending, actor) => ConfirmIsSourced(d, actions, pending, actor);
    case _ =>
      var after := Apply(d, action).0;
      assert forall i :: 0 <= i < |d.corrections| ==>
               CorrectionSourced(d, actions, d.corrections[i]) == CorrectionSourced(after, actions, after.corrections[i]);
      assert forall i :: 0 <= i < |d.pendings| ==>
               PendingSourced(d, actions, d.pendings[i]) == PendingSourced(after, actions, after.pendings[i]);
  }

  /**
   No large change by one person. After any calls of any actors on a new desk, a correction that
   is large against what the extraction reads was submitted by one person, who held its task,
   and confirmed by another.
   */
  lemma LargeChangeWasConfirmed(extractions: map<string, Extraction>, actions: seq<Action>, i: nat, text: string)
      returns (task: nat, maker: string, pending: nat)
    requires i < |Run(Desk(extractions, [], [], []), actions).corrections|
    requires var c := Run(Desk(extractions, [], [], []), actions).corrections[i];
             c.extractionId in extractions ==> Reads(extractions[c.extractionId], text)
                                               && Large(extractions[c.extractionId], text, c.corrected)
    ensures var c := Run(Desk(extractions, [], [], []), actions).corrections[i];
            && c.extractionId in extractions && c.predicted == text && maker != c.actor
            && Submit(task, maker, c.corrected) in actions && Confirm(pending, c.actor) in actions
  {
    var start := Desk(extractions, [], [], []);
    var end := Run(start, actions);
    assert TwoPeople(start) && Sourced(start, []);
    RunsKeepTwoPeople(start, actions);
    RunsAreSourced(start, [], actions);
    assert [] + actions == actions;
    hide Run, EditDistance.Distance;
    var c := end.corrections[i];
    assert CorrectionOk(end, i) && CorrectionSourced(end, actions, c);
    assert Reads(extractions[c.extractionId], c.predicted);
    pending := c.origin.pending;
    assert PendingSourced(end, actions, end.pendings[pending]);
    task, maker := end.pendings[pending].task, end.pendings[pending].firstActor;
  }
}
