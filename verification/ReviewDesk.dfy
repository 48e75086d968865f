/**
 The review desk: tasks are claimed, skipped and submitted
 (services/backend/src/backend/domain/review_workflow.py); a correction that changes a
 protected field by much waits for a second person (correction.py). Each call is one
 transaction; an error leaves the tables alone.
 */
module ReviewDesk {
  import opened Wrappers
  import EditDistance

  const EDIT_DISTANCE_THRESHOLD := 4
  const PROTECTED_FIELDS := {"owner_name", "share_fraction", "area", "survey_number"}

  /** `digest` is what the page's storage key ends in; `None` when the page has no stored image. */
  datatype Extraction = Extraction(fieldName: string, canonical: Option<string>, raw: string, digest: Option<string>)

  datatype Task = Task(extractionId: string, stream: string, openedAt: int, assignee: Option<string>, closed: bool)

  /** Where a correction came from: the task itself, or a confirmed pending correction. */
  datatype Origin = Direct(task: nat) | Confirmed(pending: nat)

  datatype Correction = Correction(
    extractionId: string, predicted: string, corrected: string, distance: nat, actor: string, stream: string,
    digest: string, origin: Origin)

  /** `task` is the task whose submission made it; the table itself names only the extraction. */
  datatype Pending = Pending(
    extractionId: string, predicted: string, corrected: string, distance: nat, fieldClass: string,
    firstActor: string, stream: string, digest: string, task: nat, confirmedBy: Option<string>, correction: Option<nat>)

  datatype Desk = Desk(
    extractions: map<string, Extraction>, tasks: seq<Task>, corrections: seq<Correction>, pendings: seq<Pending>)

  datatype Error =
    | NotFound | NotClaimable | NotTheClaimant | NoStoredImage | AlreadyResolved | SameActorCannotConfirm

  datatype Reply = Claimed(task: Option<nat>) | Corrected(correction: nat) | Held(pending: nat) | Done

  datatype Action =
    | OpenTask(extractionId: string, stream: string, openedAt: int)   // the decision engine
    | ClaimNext(actor: string)
    | Submit(task: nat, actor: string, corrected: string)
    | Skip(task: nat, actor: string)
    | Confirm(pending: nat, actor: string)

  // ----- what each call does -----

  /** The oldest open task that nobody holds. */
  function NextTask(tasks: seq<Task>): (r: Option<nat>)
    ensures r.Some? ==> r.value < |tasks| && tasks[r.value].assignee.None? && !tasks[r.value].closed
    ensures r.None? ==> forall i :: 0 <= i < |tasks| ==> tasks[i].assignee.Some? || tasks[i].closed
    ensures r.Some? ==> forall i :: 0 <= i < |tasks| && tasks[i].assignee.None? && !tasks[i].closed ==>
                                      tasks[r.value].openedAt <= tasks[i].openedAt
  {
    if tasks == [] then None
    else
      var n := |tasks| - 1;
      var earlier := NextTask(tasks[..n]);
      if tasks[n].assignee.None? && !tasks[n].closed
         && (earlier.None? || tasks[n].openedAt < tasks[earlier.value].openedAt) then Some(n)
      else earlier
  }

  /** `canonical_value or raw_value`. */
  function Predicted(x: Extraction): string {
    if Truthy(x.canonical) then x.canonical.value else x.raw
  }

  predicate NeedsSecondPerson(field: string, distance: nat) {
    field in PROTECTED_FIELDS && distance > EDIT_DISTANCE_THRESHOLD
  }

  /** `submit_correction`: a correction, or a pending one, never both. */
  function SubmitCorrection(d: Desk, task: nat, x: Extraction, corrected: string, actor: string): (Desk, Result<Reply, Error>)
    requires task < |d.tasks|
  {
    if x.digest.None? then (d, Err(NoStoredImage))
    else
      var t := d.tasks[task];
      var predicted := Predicted(x);
      var distance := EditDistance.Distance(predicted, corrected);
      if NeedsSecondPerson(x.fieldName, distance) then
        (d.(pendings := d.pendings + [Pending(t.extractionId, predicted, corrected, distance, x.fieldName, actor,
                                              t.stream, x.digest.value, task, None, None)]),
         Ok(Held(|d.pendings|)))
      else
        (d.(corrections := d.corrections + [Correction(t.extractionId, predicted, corrected, distance, actor,
                                                       t.stream, x.digest.value, Direct(task))]),
         Ok(Corrected(|d.corrections|)))
  }

  /** Who holds the first task of an extraction. */
  function ClaimantOf(tasks: seq<Task>, extractionId: string): Option<string> {
    if tasks == [] then None
    else if tasks[0].extractionId == extractionId then tasks[0].assignee
    else ClaimantOf(tasks[1..], extractionId)
  }

  function CheckHeld(d: Desk, task: nat, actor: string): Option<Error> {
    if task >= |d.tasks| then Some(NotFound)
    else if d.tasks[task].closed then Some(NotClaimable)
    else if d.tasks[task].assignee != Some(actor) then Some(NotTheClaimant)
    else None
  }

  function AfterSubmit(d: Desk, task: nat, actor: string, corrected: string): (Desk, Result<Reply, Error>) {
    var refusal := CheckHeld(d, task, actor);
    if refusal.Some? then (d, Err(refusal.value))
    else if d.tasks[task].extractionId !in d.extractions then (d, Err(NotFound))
    else
      var (d', r) := SubmitCorrection(d, task, d.extractions[d.tasks[task].extractionId], corrected, actor);
      if r.Err? then (d, r)
      else (d'.(tasks := d.tasks[task := d.tasks[task].(closed := true)]), r)
  }

  function AfterConfirm(d: Desk, pending: nat, actor: string): (Desk, Result<Reply, Error>) {
    if pending >= |d.pendings| then (d, Err(NotFound))
    else
      var p := d.pendings[pending];
      if p.confirmedBy.Some? then (d, Err(AlreadyResolved))
      else
        var claimant := ClaimantOf(d.tasks, p.extractionId);
        if actor == p.firstActor || claimant == Some(actor) then (d, Err(SameActorCannotConfirm))
        else
          var id := |d.corrections|;
          (d.(corrections := d.corrections + [Correction(p.extractionId, p.predicted, p.corrected, p.distance, actor,
                                                         p.stream, p.digest, Confirmed(pending))],
              pendings := d.pendings[pending := p.(confirmedBy := Some(actor), correction := Some(id))]),
           Ok(Corrected(id)))
  }

  function Apply(d: Desk, action: Action): (Desk, Result<Reply, Error>) {
    match action
    case OpenTask(x, stream, at) => (d.(tasks := d.tasks + [Task(x, stream, at, None, false)]), Ok(Done))
    case ClaimNext(actor) =>
      var next := NextTask(d.tasks);
      if next.None? then (d, Ok(Claimed(None)))
      else (d.(tasks := d.tasks[next.value := d.tasks[next.value].(assignee := Some(actor))]), Ok(Claimed(next)))
    case Submit(task, actor, corrected) => AfterSubmit(d, task, actor, corrected)
    case Skip(task, actor) =>
      var refusal := CheckHeld(d, task, actor);
      if refusal.Some? then (d, Err(refusal.value))
      else (d.(tasks := d.tasks[task := d.tasks[task].(assignee := None)]), Ok(Done))
    case Confirm(pending, actor) => AfterConfirm(d, pending, actor)
  }

  // ----- the tables -----

  class ReviewTables {
    const extractions: map<string, Extraction>
    var tasks: seq<Task>
    var corrections: seq<Correction>
    var pendings: seq<Pending>

    constructor (extractions: map<string, Extraction>)
      ensures Value() == Desk(extractions, [], [], [])
    {
      this.extractions := extractions;
      tasks, corrections, pendings := [], [], [];
    }

    function Value(): Desk
      reads this
    {
      Desk(extractions, tasks, corrections, pendings)
    }

    method Claim(actor: string) returns (task: Option<nat>)
      modifies this
      ensures (Value(), Ok(Claimed(task))) == Apply(old(Value()), Action.ClaimNext(actor))
    {
      task := NextTask(tasks);
      if task.Some? {
        tasks := tasks[task.value := tasks[task.value].(assignee := Some(actor))];
      }
    }

    method SubmitTask(task: nat, actor: string, corrected: string) returns (r: Result<Reply, Error>)
      modifies this
      ensures (Value(), r) == Apply(old(Value()), Action.Submit(task, actor, corrected))
    {
      var refusal := CheckHeld(Value(), task, actor);
      if refusal.Some? {
        return Err(refusal.value);
      }
      var t := tasks[task];
      if t.extractionId !in extractions {
        return Err(NotFound);
      }
      r := WriteCorrection(task, extractions[t.extractionId], corrected, actor);
      if r.Ok? {
        tasks := tasks[task := t.(closed := true)];
      }
    }

    method WriteCorrection(task: nat, x: Extraction, corrected: string, actor: string) returns (r: Result<Reply, Error>)
      requires task < |tasks|
      modifies this
      ensures (Value(), r) == SubmitCorrection(old(Value()), task, x, corrected, actor)
    {
      if x.digest.None? {
        return Err(NoStoredImage);
      }
      var t, predicted := tasks[task], Predicted(x);
      var distance := EditDistance.Compute(Some(predicted), Some(corrected));
      if x.fieldName in PROTECTED_FIELDS && distance > EDIT_DISTANCE_THRESHOLD {
        pendings := pendings + [Pending(t.extractionId, predicted, corrected, distance, x.fieldName, actor, t.stream,
                                        x.digest.value, task, None, None)];
        return Ok(Held(|pendings| - 1));
      }
      corrections := corrections + [Correction(t.extractionId, predicted, corrected, distance, actor, t.stream,
                                               x.digest.value, Direct(task))];
      r := Ok(Corrected(|corrections| - 1));
    }

    method SkipTask(task: nat, actor: string) returns (r: Result<Reply, Error>)
      modifies this
      ensures (Value(), r) == Apply(old(Value()), Action.Skip(task, actor))
    {
      var refusal := CheckHeld(Value(), task, actor);
      if refusal.Some? {
        return Err(refusal.value);
      }
      tasks := tasks[task := tasks[task].(assignee := None)];
      r := Ok(Done);
    }

    method ConfirmPending(pending: nat, actor: string) returns (r: Result<Reply, Error>)
      modifies this
      ensures (Value(), r) == Apply(old(Value()), Action.Confirm(pending, actor))
    {
      if pending >= |pendings| {
        return Err(NotFound);
      }
      var p := pendings[pending];
      if p.confirmedBy.Some? {
        return Err(AlreadyResolved);
      }
      if actor == p.firstActor || ClaimantOf(tasks, p.extractionId) == Some(actor) {
        return Err(SameActorCannotConfirm);
      }
      corrections := corrections + [Correction(p.extractionId, p.predicted, p.corrected, p.distance, actor, p.stream,
                                               p.digest, Confirmed(pending))];
      pendings := pendings[pending := p.(confirmedBy := Some(actor), correction := Some(|corrections| - 1))];
      r := Ok(Corrected(|corrections| - 1));
    }
  }
}
