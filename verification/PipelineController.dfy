/** The Pipeline controller in its own form: a reconciler that updates its working copy of the
    resource's status between Fleet calls. Each method is proved against the function it carries out. */
module PipelineController {
  import opened Common
  import opened Pipelines
  import opened FleetStore
  import opened FleetCalls
  import Spec = PipelineReconcile
  import opened PipelineReconcile

  class PipelineReconciler {
    const nameScope: string
    var fleet: Fleet
    var stored: Pipeline

    // The status of the copy that Get returned.
    var id: nat
    var syncedName: string
    var observedGeneration: nat
    var ready: Option<Ready>

    ghost var calls: seq<Call>
    ghost var unrecorded: bool

    ghost function Now(): World
      reads this
    {
      World(fleet, stored, nameScope, calls, unrecorded)
    }

    function Mem(): Status
      reads this
    {
      Status(id, syncedName, observedGeneration, ready)
    }

    constructor (nameScope: string, fleet: Fleet, stored: Pipeline)
      ensures Now() == World(fleet, stored, nameScope, [], false)
    {
      this.nameScope := nameScope;
      this.fleet, this.stored := fleet, stored;
      id, syncedName, observedGeneration, ready := 0, "", 0, None;
      calls, unrecorded := [], false;
    }

    /** Get: the working copy starts as what is stored. */
    method Load()
      modifies this
      ensures Now() == old(Now()) && Mem() == stored.status
    {
      id, syncedName := stored.status.id, stored.status.syncedName;
      observedGeneration, ready := stored.status.observedGeneration, stored.status.ready;
    }

    method UpsertPipeline(validateOnly: bool, t: Turn) returns (answer: Answer)
      modifies this
      ensures Mem() == old(Mem())
      ensures Called(Now(), answer) == if validateOnly then CallDryRun(old(Now()), t) else CallUpsert(old(Now()), t)
    {
      var name, body := stored.DesiredFleetName(nameScope), stored.RequestBody();
      fleet := ForeignAll(fleet, t.before);
      if validateOnly {
        calls := calls + [DryRun(name, body)];
        return AnswerOf(t.reply, 0);
      }
      var after := Upsert(fleet, ByPipeline(stored.key), name, body);
      if t.reply.Applied() {
        fleet := after;
      }
      calls, unrecorded := calls + [UpsertCall(name, body, t.reply.Applied())], unrecorded || t.reply.Applied();
      answer := AnswerOf(t.reply, after.pipelines[name].id);
    }

    method DeletePipeline(target: nat, t: Turn) returns (answer: Answer)
      modifies this
      ensures Mem() == old(Mem())
      ensures Called(Now(), answer) == CallDelete(old(Now()), target, t)
    {
      var gone := t.reply.Refused? && t.reply.err == Http(404);
      fleet := ForeignAll(fleet, t.before);
      if gone || t.reply.Applied() {
        fleet := Delete(fleet, target);
      }
      calls := calls + [DeleteCall(target, gone || t.reply.Applied())];
      unrecorded := unrecorded || gone || t.reply.Applied();
      answer := if gone then Ok(target) else AnswerOf(t.reply, target);
    }

    /** Status().Update: stores the working copy's status, unless the write is lost. */
    method WriteStatus(write: StatusWrite)
      modifies this
      ensures Now() == StoreStatus(old(Now()), old(Mem()), write) && Mem() == old(Mem())
    {
      if write.Stored? {
        stored := stored.(status := Mem());
      }
    }

    method UpdateStatusSuccess(newId: nat, write: StatusWrite) returns (outcome: Outcome)
      modifies this
      ensures Ended(Now(), outcome) == Spec.UpdateStatusSuccess(old(Now()), old(Mem()), newId, write)
    {
      id := newId;
      syncedName := stored.DesiredFleetName(nameScope);
      observedGeneration := stored.generation;
      ready := Some(Ready(true, Synced));
      WriteStatus(write);
      match write
      case Stored =>
        unrecorded := false;
        outcome := Succeeded;
      case DiedBefore => outcome := Died;
      case _ => outcome := WriteLost;
    }

    method UpdateStatusError(reason: Reason, err: Err, write: StatusWrite) returns (outcome: Outcome)
      modifies this
      ensures Ended(Now(), outcome) == Spec.UpdateStatusError(old(Now()), old(Mem()), reason, err, write)
    {
      var retryable := ShouldRetry(err, reason);
      if !retryable {
        observedGeneration := stored.generation;
      }
      ready := Some(Ready(false, reason));
      WriteStatus(write);
      match write
      case Conflict => outcome := WriteLost;
      case DiedBefore => outcome := Died;
      case _ => outcome := Failed(reason, retryable);
    }

    method HandleApiError(err: Err, t: Turns) returns (outcome: Outcome)
      modifies this
      ensures Ended(Now(), outcome) == Spec.HandleApiError(old(Now()), old(Mem()), err, t)
      decreases id
    {
      if err == Http(400) {
        outcome := UpdateStatusError(ValidationError, err, t.statusWrite);
      } else if err == Http(404) {
        if id == 0 {
          outcome := UpdateStatusError(SyncFailed, err, t.statusWrite);
        } else {
          id := 0;
          var answer := UpsertPipeline(false, t.recreate);
          match answer
          case Ok(newId) =>
            outcome := UpdateStatusSuccess(newId, t.statusWrite);
            outcome := if outcome.Succeeded? then Recreated else outcome;
          case NotOk(again) => outcome := HandleApiError(again, t);
          case NoAnswer => outcome := Died;
        }
      } else if err == Http(429) {
        outcome := RateLimited;
      } else {
        outcome := UpdateStatusError(SyncFailed, err, t.statusWrite);
      }
    }

    method BackfillSyncedName()
      requires Mem() == stored.status
      modifies this
      ensures Now() == old(Now()) && Mem() == Backfilled(stored)
    {
      if id != 0 && syncedName == "" {
        syncedName := stored.BaseName();
      }
    }

    method MigratePipelineName(t: Turns) returns (answer: Answer)
      modifies this
      ensures (Called(Now(), answer), Mem()) == MigrateName(old(Now()), old(Mem()), t)
    {
      if id == 0 || syncedName == "" || stored.DesiredFleetName(nameScope) == syncedName {
        return Ok(id);
      }
      answer := UpsertPipeline(true, t.dryRun);
      if answer.Ok? {
        answer := DeletePipeline(id, t.delete);
        if answer.Ok? {
          id := 0;
        }
      }
    }

    method ReconcileNormal(t: Turns) returns (outcome: Outcome)
      modifies this
      ensures Ended(Now(), outcome) == Spec.ReconcileNormal(old(Now()), old(Mem()), t)
    {
      var migrated := MigratePipelineName(t);
      match migrated
      case NotOk(err) => outcome := HandleApiError(err, t);
      case NoAnswer => outcome := Died;
      case Ok(_) =>
        var answer := UpsertPipeline(false, t.upsert);
        match answer
        case Ok(newId) => outcome := UpdateStatusSuccess(newId, t.statusWrite);
        case NotOk(err) => outcome := HandleApiError(err, t);
        case NoAnswer => outcome := Died;
    }

    method ReconcileReadOnly(t: Turns) returns (outcome: Outcome)
      modifies this
      ensures Ended(Now(), outcome) == Spec.ReconcileReadOnly(old(Now()), old(Mem()), t)
    {
      var target := stored.ReadOnlyId();
      if target == 0 {
        outcome := UpdateStatusError(ValidationError, Transport, t.statusWrite);
        return;
      }
      fleet := ForeignAll(fleet, t.get.before);
      match t.get.reply
      case Crashed(_) => outcome := Died;
      case Refused(err, _) =>
        if err == Http(429) {
          outcome := RateLimited;
        } else {
          outcome := UpdateStatusError(if err == Http(400) then ValidationError else ReadOnly, err, t.statusWrite);
        }
      case Done =>
        id, observedGeneration, ready := target, stored.generation, Some(Ready(true, ReadOnly));
        WriteStatus(t.statusWrite);
        outcome := match t.statusWrite case Stored => Observed case DiedBefore => Died case _ => WriteLost;
    }

    method DropFinalizer(write: StatusWrite) returns (outcome: Outcome)
      modifies this
      ensures Ended(Now(), outcome) == Spec.DropFinalizer(old(Now()), write)
    {
      match write
      case Stored =>
        stored := stored.(finalizer := false);
        outcome := Deleted;
      case DiedBefore => outcome := Died;
      case _ => outcome := WriteLost;
    }

    method ReconcileDelete(t: Turns) returns (outcome: Outcome)
      requires Mem() == stored.status
      modifies this
      ensures Ended(Now(), outcome) == Spec.ReconcileDelete(old(Now()), t)
    {
      if !stored.finalizer {
        return NoOp;
      }
      if !stored.IsReadOnly() && id != 0 {
        var answer := DeletePipeline(id, t.delete);
        match answer {
          case NotOk(err) =>
            outcome := UpdateStatusError(DeleteFailed, err, t.statusWrite);
            return;
          case NoAnswer => return Died;
          case Ok(_) =>
        }
      }
      outcome := DropFinalizer(t.update);
    }

    /** One reconcile of the stored resource: the whole new world is the one the function gives. */
    method Reconcile(t: Turns) returns (outcome: Outcome)
      modifies this
      ensures Ended(Now(), outcome) == Spec.Reconcile(old(Now()), t)
    {
      Load();
      if stored.deleting {
        outcome := ReconcileDelete(t);
        return;
      }
      if !stored.finalizer {
        if t.update.Stored? {
          stored := stored.(finalizer := true);
        }
        return match t.update case Stored => NoOp case DiedBefore => Died case _ => WriteLost;
      }
      if stored.spec.paused {
        return NoOp;
      }
      var readOnly := stored.IsReadOnly();
      BackfillSyncedName();
      var namePending :=
        !readOnly && id != 0 && syncedName != "" && stored.DesiredFleetName(nameScope) != syncedName;
      if !namePending && observedGeneration == stored.generation && ModeObserved(stored) {
        return Skipped;
      }
      if readOnly {
        outcome := ReconcileReadOnly(t);
      } else {
        outcome := ReconcileNormal(t);
      }
    }
  }
}
