/** One reconcile of a Pipeline, as a function of the world it finds and of how each call it makes ends. */
module PipelineReconcile {
  import opened Common
  import opened Pipelines
  import opened FleetStore
  import opened FleetCalls

  predicate ShouldRetry(e: Err, reason: Reason) {
    reason != ValidationError && IsTransient(e)
  }

  /** A Fleet call: what others did to Fleet since the last one, then its reply. */
  datatype Turn = Turn(before: seq<ForeignAct>, reply: Reply)

  /** One fate for each call a reconcile can make. */
  datatype Turns = Turns(dryRun: Turn, delete: Turn, upsert: Turn, recreate: Turn, get: Turn,
                         statusWrite: StatusWrite, update: StatusWrite)

  datatype Call =
    | DryRun(name: string, body: Body)
    | UpsertCall(name: string, body: Body, applied: bool)
    | DeleteCall(id: nat, applied: bool)

  /** Fleet, the stored resource, the cluster-wide scope, the upsert and delete calls this pipeline
      issued so far, and whether an applied one has not yet been recorded by a success status. */
  datatype World = World(fleet: Fleet, pipeline: Pipeline, scope: string, calls: seq<Call>, unrecorded: bool)
  {
    function Desired(): string {
      pipeline.DesiredFleetName(scope)
    }

    /** The desired name differs from the name last recorded. */
    predicate RenamePending(mem: Status) {
      mem.id != 0 && mem.syncedName != "" && Desired() != mem.syncedName
    }
  }

  datatype Outcome = NoOp | Skipped | Succeeded | Recreated | RateLimited | Observed | Deleted
                   | Failed(reason: Reason, retryable: bool) | WriteLost | Died

  datatype Ended = Ended(world: World, outcome: Outcome)

  datatype Answer = Ok(id: nat) | NotOk(err: Err) | NoAnswer

  datatype Called = Called(world: World, answer: Answer)

  function AnswerOf(reply: Reply, id: nat): Answer {
    match reply
    case Done => Ok(id)
    case Refused(err, _) => NotOk(err)
    case Crashed(_) => NoAnswer
  }

  function CallDryRun(w: World, t: Turn): Called {
    var w' := w.(fleet := ForeignAll(w.fleet, t.before),
                 calls := w.calls + [DryRun(w.Desired(), w.pipeline.RequestBody())]);
    Called(w', AnswerOf(t.reply, 0))
  }

  function CallUpsert(w: World, t: Turn): Called {
    var name, body := w.Desired(), w.pipeline.RequestBody();
    var seen := ForeignAll(w.fleet, t.before);
    var after := Upsert(seen, ByPipeline(w.pipeline.key), name, body);
    var applied := t.reply.Applied();
    var w' := w.(fleet := if applied then after else seen,
                 calls := w.calls + [UpsertCall(name, body, applied)],
                 unrecorded := w.unrecorded || applied);
    Called(w', AnswerOf(t.reply, after.pipelines[name].id))
  }

  /** The client turns a 404 answer, which says the id is gone, into success. */
  function CallDelete(w: World, id: nat, t: Turn): Called {
    var gone := t.reply.Refused? && t.reply.err == Http(404);
    var seen := ForeignAll(w.fleet, t.before);
    var applied := gone || t.reply.Applied();
    var w' := w.(fleet := if applied then Delete(seen, id) else seen,
                 calls := w.calls + [DeleteCall(id, applied)],
                 unrecorded := w.unrecorded || applied);
    Called(w', if gone then Ok(id) else AnswerOf(t.reply, id))
  }

  function StoreStatus(w: World, mem: Status, write: StatusWrite): World {
    if write.Stored? then w.(pipeline := w.pipeline.(status := mem)) else w
  }

  function UpdateStatusSuccess(w: World, mem: Status, id: nat, write: StatusWrite): Ended {
    var mem' := Status(id, w.Desired(), w.pipeline.generation, Some(Ready(true, Synced)));
    var w' := StoreStatus(w, mem', write);
    match write
    case Stored => Ended(w'.(unrecorded := false), Succeeded)
    case DiedBefore => Ended(w', Died)
    case _ => Ended(w', WriteLost)
  }

  /** Errors that are not retried mark the generation as observed. */
  function ErrorStatus(w: World, mem: Status, reason: Reason, err: Err): Status {
    mem.(observedGeneration := if ShouldRetry(err, reason) then mem.observedGeneration else w.pipeline.generation,
         ready := Some(Ready(false, reason)))
  }

  function UpdateStatusError(w: World, mem: Status, reason: Reason, err: Err, write: StatusWrite): Ended {
    Ended(StoreStatus(w, ErrorStatus(w, mem, reason, err), write),
          match write
          case Conflict => WriteLost
          case DiedBefore => Died
          case _ => Failed(reason, ShouldRetry(err, reason)))
  }

  /** Classifies a failed call. A 404 clears the id and upserts once more; with the id already clear it
      is final, so the recursion is at most one deep. */
  function HandleApiError(w: World, mem: Status, err: Err, t: Turns): Ended
    decreases mem.id
  {
    if err == Http(400) then
      UpdateStatusError(w, mem, ValidationError, err, t.statusWrite)
    else if err == Http(404) then
      if mem.id == 0 then
        UpdateStatusError(w, mem, SyncFailed, err, t.statusWrite)
      else
        var cleared := mem.(id := 0);
        var c := CallUpsert(w, t.recreate);
        match c.answer
        case Ok(id) =>
          var e := UpdateStatusSuccess(c.world, cleared, id, t.statusWrite);
          if e.outcome.Succeeded? then e.(outcome := Recreated) else e
        case NotOk(again) => HandleApiError(c.world, cleared, again, t)
        case NoAnswer => Ended(c.world, Died)
    else if err == Http(429) then
      Ended(w, RateLimited)
    else
      UpdateStatusError(w, mem, SyncFailed, err, t.statusWrite)
  }

  /** Dry-runs the new name, then deletes the old pipeline by id and clears the id. */
  function MigrateName(w: World, mem: Status, t: Turns): (Called, Status) {
    if !w.RenamePending(mem) then (Called(w, Ok(mem.id)), mem)
    else
      var d := CallDryRun(w, t.dryRun);
      if !d.answer.Ok? then (d, mem)
      else
        var x := CallDelete(d.world, mem.id, t.delete);
        (x, if x.answer.Ok? then mem.(id := 0) else mem)
  }

  function ReconcileNormal(w: World, mem: Status, t: Turns): Ended {
    var (m, mem') := MigrateName(w, mem, t);
    match m.answer
    case NotOk(err) => HandleApiError(m.world, mem', err, t)
    case NoAnswer => Ended(m.world, Died)
    case Ok(_) =>
      var u := CallUpsert(m.world, t.upsert);
      match u.answer
      case Ok(id) => UpdateStatusSuccess(u.world, mem', id, t.statusWrite)
      case NotOk(err) => HandleApiError(u.world, mem', err, t)
      case NoAnswer => Ended(u.world, Died)
  }

  function ReconcileReadOnly(w: World, mem: Status, t: Turns): Ended {
    var id := w.pipeline.ReadOnlyId();
    if id == 0 then UpdateStatusError(w, mem, ValidationError, Transport, t.statusWrite)
    else
      var w' := w.(fleet := ForeignAll(w.fleet, t.get.before));
      match t.get.reply
      case Crashed(_) => Ended(w', Died)
      case Refused(err, _) =>
        if err == Http(429) then Ended(w', RateLimited)
        else if err == Http(400) then UpdateStatusError(w', mem, ValidationError, err, t.statusWrite)
        else UpdateStatusError(w', mem, ReadOnly, err, t.statusWrite)
      case Done =>
        var mem' := mem.(id := id, observedGeneration := w.pipeline.generation, ready := Some(Ready(true, ReadOnly)));
        Ended(StoreStatus(w', mem', t.statusWrite),
              match t.statusWrite
              case Stored => Observed
              case DiedBefore => Died
              case _ => WriteLost)
  }

  function DropFinalizer(w: World, write: StatusWrite): Ended {
    match write
    case Stored => Ended(w.(pipeline := w.pipeline.(finalizer := false)), Deleted)
    case DiedBefore => Ended(w, Died)
    case _ => Ended(w, WriteLost)
  }

  /** Finalisation deletes by the id the controller recorded, and never for a read-only pipeline. */
  function ReconcileDelete(w: World, t: Turns): Ended {
    if !w.pipeline.finalizer then Ended(w, NoOp)
    else if w.pipeline.IsReadOnly() || w.pipeline.status.id == 0 then DropFinalizer(w, t.update)
    else
      var x := CallDelete(w, w.pipeline.status.id, t.delete);
      match x.answer
      case Ok(_) => DropFinalizer(x.world, t.update)
      case NotOk(err) => UpdateStatusError(x.world, w.pipeline.status, DeleteFailed, err, t.statusWrite)
      case NoAnswer => Ended(x.world, Died)
  }

  /** Pipelines synced before syncedName existed carried the unscoped name. */
  function Backfilled(p: Pipeline): Status {
    if p.status.id == 0 || p.status.syncedName != "" then p.status
    else p.status.(syncedName := p.BaseName())
  }

  predicate ModeObserved(p: Pipeline) {
    var readOnly, id := p.IsReadOnly(), p.ReadOnlyId();
    && p.status.ready.Some?
    && !(readOnly && id != 0 && p.status.id != 0 && p.status.id != id)
    && match p.status.ready.value.reason
       case ReadOnly => readOnly
       case ValidationError => !readOnly || id == 0
       case _ => !readOnly
  }

  /** The observed-generation guard. */
  predicate Skips(w: World) {
    && !(!w.pipeline.IsReadOnly() && w.RenamePending(Backfilled(w.pipeline)))
    && w.pipeline.status.observedGeneration == w.pipeline.generation
    && ModeObserved(w.pipeline)
  }

  /** The pipeline gets past the deletion, finalizer and pause checks. */
  predicate Active(p: Pipeline) {
    !p.deleting && p.finalizer && !p.spec.paused
  }

  function Reconcile(w: World, t: Turns): Ended {
    if w.pipeline.deleting then ReconcileDelete(w, t)
    else if !w.pipeline.finalizer then
      match t.update
      case Stored => Ended(w.(pipeline := w.pipeline.(finalizer := true)), NoOp)
      case DiedBefore => Ended(w, Died)
      case _ => Ended(w, WriteLost)
    else if w.pipeline.spec.paused then Ended(w, NoOp)
    else if Skips(w) then Ended(w, Skipped)
    else if w.pipeline.IsReadOnly() then ReconcileReadOnly(w, Backfilled(w.pipeline), t)
    else ReconcileNormal(w, Backfilled(w.pipeline), t)
  }
}
