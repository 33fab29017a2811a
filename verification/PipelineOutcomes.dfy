/** What one reconcile of a Pipeline leaves in status for every answer Fleet can give, and that its call history
    accounts for everything it did to Fleet. */
module PipelineOutcomes {
  import opened Common
  import opened Pipelines
  import opened FleetStore
  import opened FleetCalls
  import opened PipelineReconcile
  import opened PipelineRuns

  // ----- Errors -----

  /** Rate limits, timeouts, server errors and failing connections. */
  predicate Retried(err: Err) {
    || err == Transport || err == Http(429) || err == Http(408)
    || (err.Http? && 500 <= err.code <= 599)
  }

  /** The status as it was, with the name an old resource was synced under filled in. */
  function Remembered(p: Pipeline): Status {
    if p.status.id != 0 && p.status.syncedName == ""
    then p.status.(syncedName := if p.spec.name == "" then p.key.name else p.spec.name)
    else p.status
  }

  /** Ready says why it failed; the generation counts as observed unless the error is retried. */
  ghost predicate Reports(v: World, w: World, reason: Reason, retried: bool) {
    var s := Remembered(w.pipeline);
    v.pipeline == w.pipeline.(status :=
      s.(observedGeneration := if retried then s.observedGeneration else w.pipeline.generation,
         ready := Some(Ready(false, reason))))
  }

  /** The pipeline is writable, past the guard, and not to be renamed. */
  predicate Plain(w: World) {
    && Active(w.pipeline) && !w.pipeline.IsReadOnly() && !Skips(w)
    && !(w.pipeline.status.id != 0 && Remembered(w.pipeline).syncedName != w.Desired())
  }

  lemma PlainUpsert(w: World, t: Turns)
    requires Plain(w) && w.pipeline.key.name != ""
    ensures var mem := Remembered(w.pipeline); var u := CallUpsert(w, t.upsert);
            && mem == Backfilled(w.pipeline) && !w.RenamePending(mem)
            && (u.answer.NotOk? ==> Reconcile(w, t) == HandleApiError(u.world, mem, u.answer.err, t))
            && u.world.pipeline == w.pipeline && (u.answer.NotOk? <==> t.upsert.reply.Refused?)
            && (u.answer.NotOk? ==> u.answer.err == t.upsert.reply.err)
  {}

  /** A refused upsert, other than a 404 for a recorded id: a 429 changes nothing and a 400 is a validation error;
      anything else is a failed sync, retried when it is transient. */
  lemma RefusedUpsertReported(w: World, t: Turns)
    requires Plain(w) && w.pipeline.key.name != "" && t.upsert.reply.Refused? && t.statusWrite.Stored?
    requires t.upsert.reply.err == Http(404) ==> w.pipeline.status.id == 0
    ensures var r := Reconcile(w, t); var err := t.upsert.reply.err;
            if err == Http(429) then r.world.pipeline == w.pipeline && r.outcome == RateLimited
            else if err == Http(400)
            then Reports(r.world, w, ValidationError, false) && r.outcome == Failed(ValidationError, false)
            else Reports(r.world, w, SyncFailed, Retried(err)) && r.outcome == Failed(SyncFailed, Retried(err))
  {
    PlainUpsert(w, t);
  }

  /** A 404 for a recorded id: the pipeline is made again, and recorded under its new id. */
  lemma RecreatedOn404(w: World, t: Turns)
    requires Plain(w) && w.pipeline.key.name != "" && w.pipeline.status.id != 0 && t.statusWrite.Stored?
    requires t.upsert.reply.Refused? && t.upsert.reply.err == Http(404) && t.recreate.reply.Done?
    ensures var r := Reconcile(w, t); var name := w.Desired(); var f := r.world.fleet;
            && r.outcome == Recreated && name in f.pipelines && Conveys(f.pipelines[name].body, w.pipeline.spec.body)
            && r.world.pipeline == w.pipeline.(status :=
                 Status(f.pipelines[name].id, name, w.pipeline.generation, Some(Ready(true, Synced))))
  {
    PlainUpsert(w, t);
  }

  // ----- Read-only pipelines -----

  /** A stored read-only reconcile: without an id to look up it is a validation error; a found pipeline is
      recorded and the generation observed; a 429 changes nothing, a 400 is a validation error, and any other
      failure is reported as a failed observation. Fleet only changes by other hands. */
  lemma ReadOnlyReported(w: World, t: Turns)
    requires Active(w.pipeline) && w.pipeline.IsReadOnly() && !Skips(w) && t.statusWrite.Stored?
    ensures var v := Reconcile(w, t).world; var reply := t.get.reply;
            && v.fleet in [w.fleet, ForeignAll(w.fleet, t.get.before)]
            && if w.pipeline.ReadOnlyId() == 0 then Reports(v, w, ValidationError, false)
               else if reply.Crashed? then v.pipeline == w.pipeline
               else if reply.Done? then
                 v.pipeline == w.pipeline.(status := Remembered(w.pipeline).(
                   id := w.pipeline.ReadOnlyId(), observedGeneration := w.pipeline.generation,
                   ready := Some(Ready(true, ReadOnly))))
               else if reply.err == Http(429) then v.pipeline == w.pipeline
               else if reply.err == Http(400) then Reports(v, w, ValidationError, false)
               else Reports(v, w, ReadOnly, Retried(reply.err))
  {}

  /** The id looked up is the annotation's, or the recorded one without such an annotation. */
  lemma ObservedIdExactly(p: Pipeline)
    ensures p.annotations.fleetPipelineId == None || p.annotations.fleetPipelineId == Some(0) ==>
              p.ReadOnlyId() == p.status.id
    ensures forall id | id != 0 && p.annotations.fleetPipelineId == Some(id) :: p.ReadOnlyId() == id
  {}

  // ----- Before any call -----

  /** A resource without the finaliser gets it and nothing else; a paused one, and a deleted one without it,
      are left alone. */
  lemma NothingDoneYet(w: World, t: Turns)
    requires !w.pipeline.finalizer || (w.pipeline.spec.paused && !w.pipeline.deleting)
    ensures var r := Reconcile(w, t);
            r.world == w.(pipeline := w.pipeline.(finalizer := w.pipeline.finalizer
                                                               || (!w.pipeline.deleting && t.update.Stored?)))
  {}

  // ----- The history -----

  /** What one call does to Fleet. */
  function CallDone(f: Fleet, key: Key, c: Call): Fleet {
    match c
    case DryRun(_, _) => f
    case UpsertCall(name, body, applied) => if applied then Upsert(f, ByPipeline(key), name, body) else f
    case DeleteCall(id, applied) => if applied then Delete(f, id) else f
  }

  function Replayed(f: Fleet, key: Key, calls: seq<Call>): Fleet {
    if calls == [] then f else CallDone(Replayed(f, key, calls[..|calls| - 1]), key, calls[|calls| - 1])
  }

  lemma ReplayedNext(f: Fleet, key: Key, calls: seq<Call>, c: Call)
    ensures Replayed(f, key, calls + [c]) == CallDone(Replayed(f, key, calls), key, c)
  {
    assert (calls + [c])[..|calls|] == calls;
  }

  /** `v` is `w` after the calls `w` lacks. */
  ghost predicate Accounted(w: World, v: World) {
    && v.pipeline.key == w.pipeline.key && w.calls <= v.calls
    && v.fleet == Replayed(w.fleet, w.pipeline.key, v.calls[|w.calls|..])
  }

  lemma AccountedNext(w0: World, w: World, v: World, c: Call)
    requires Accounted(w0, w) && v.calls == w.calls + [c] && v.pipeline.key == w.pipeline.key
    requires v.fleet == CallDone(w.fleet, w.pipeline.key, c)
    ensures Accounted(w0, v)
  {
    var n := |w0.calls|;
    assert v.calls[n..] == w.calls[n..] + [c];
    ReplayedNext(w0.fleet, w0.pipeline.key, w.calls[n..], c);
  }

  lemma CallsAccounted(w0: World, w: World, id: nat, t: Turn)
    requires Accounted(w0, w) && t.before == []
    ensures Accounted(w0, CallDryRun(w, t).world)
    ensures Accounted(w0, CallUpsert(w, t).world)
    ensures Accounted(w0, CallDelete(w, id, t).world)
  {
    var gone := t.reply.Refused? && t.reply.err == Http(404);
    AccountedNext(w0, w, CallDryRun(w, t).world, DryRun(w.Desired(), w.pipeline.RequestBody()));
    AccountedNext(w0, w, CallUpsert(w, t).world,
                  UpsertCall(w.Desired(), w.pipeline.RequestBody(), t.reply.Applied()));
    AccountedNext(w0, w, CallDelete(w, id, t).world, DeleteCall(id, gone || t.reply.Applied()));
  }

  lemma SameCalls(w0: World, w: World, v: World)
    requires Accounted(w0, w) && v.calls == w.calls && v.fleet == w.fleet && v.pipeline.key == w.pipeline.key
    ensures Accounted(w0, v)
  {}

  lemma ErrorAccounted(w0: World, w: World, mem: Status, err: Err, t: Turns)
    requires Accounted(w0, w) && NoInterference(t)
    ensures Accounted(w0, HandleApiError(w, mem, err, t).world)
  {
    HandleApiErrorShape(w, mem, err, t);
    CallsAccounted(w0, w, 0, t.recreate);
    var v := HandleApiError(w, mem, err, t).world;
    if err == Http(404) && mem.id != 0 {
      SameCalls(w0, CallUpsert(w, t.recreate).world, v);
    } else {
      SameCalls(w0, w, v);
    }
  }

  lemma MigrationAccounted(w: World, t: Turns)
    requires NoInterference(t)
    ensures Accounted(w, MigrateName(w, Backfilled(w.pipeline), t).0.world)
  {
    assert w.calls[|w.calls|..] == [];
    CallsAccounted(w, w, 0, t.dryRun);
    CallsAccounted(w, CallDryRun(w, t.dryRun).world, Backfilled(w.pipeline).id, t.delete);
  }

  lemma NormalAccounted(w: World, t: Turns)
    requires NoInterference(t)
    ensures Accounted(w, ReconcileNormal(w, Backfilled(w.pipeline), t).world)
  {
    MigrationAccounted(w, t);
    var (m, mem) := MigrateName(w, Backfilled(w.pipeline), t);
    match m.answer
    case NoAnswer =>
    case NotOk(err) => ErrorAccounted(w, m.world, mem, err, t);
    case Ok(_) =>
      var u := CallUpsert(m.world, t.upsert);
      CallsAccounted(w, m.world, 0, t.upsert);
      match u.answer {
        case Ok(id) => SameCalls(w, u.world, UpdateStatusSuccess(u.world, mem, id, t.statusWrite).world);
        case NotOk(err) => ErrorAccounted(w, u.world, mem, err, t);
        case NoAnswer =>
      }
  }

  lemma DeletionAccounted(w: World, t: Turns)
    requires NoInterference(t)
    ensures Accounted(w, ReconcileDelete(w, t).world)
  {
    assert w.calls[|w.calls|..] == [];
    CallsAccounted(w, w, w.pipeline.status.id, t.delete);
    if w.pipeline.finalizer && !w.pipeline.IsReadOnly() && w.pipeline.status.id != 0 {
      SameCalls(w, CallDelete(w, w.pipeline.status.id, t.delete).world, ReconcileDelete(w, t).world);
    } else {
      SameCalls(w, w, ReconcileDelete(w, t).world);
    }
  }

  /** The calls an undisturbed reconcile adds to its history, replayed, give Fleet as it leaves it. */
  lemma HistoryAccountsForFleet(w: World, t: Turns)
    requires NoInterference(t)
    ensures Accounted(w, Reconcile(w, t).world)
  {
    assert w.calls[|w.calls|..] == [];
    if w.pipeline.deleting {
      DeletionAccounted(w, t);
    } else if Active(w.pipeline) && !Skips(w) && !w.pipeline.IsReadOnly() {
      NormalAccounted(w, t);
    }
  }

  // ----- Outcomes -----

  /** What an outcome says of the stored resource. */
  ghost predicate Means(o: Outcome, w: World, v: World) {
    match o
    case Succeeded => Synchronised(w, v)
    case Recreated => Synchronised(w, v)
    case Observed => OnlyStatus(w, v, Ready(true, ReadOnly))
    case Deleted => v.pipeline == w.pipeline.(finalizer := false)
    case Failed(reason, _) => v.pipeline == w.pipeline || OnlyStatus(w, v, Ready(false, reason))
    case NoOp => v.pipeline == w.pipeline.(finalizer := v.pipeline.finalizer)
    case _ => v.pipeline == w.pipeline
  }

  ghost predicate OnlyStatus(w: World, v: World, ready: Ready) {
    v.pipeline == w.pipeline.(status := v.pipeline.status) && v.pipeline.status.ready == Some(ready)
  }

  /** Status names the live entry under the desired name at the current generation. */
  ghost predicate Synchronised(w: World, v: World) {
    var name := w.Desired();
    && name in v.fleet.pipelines
    && v.pipeline == w.pipeline.(status :=
         Status(v.fleet.pipelines[name].id, name, w.pipeline.generation, Some(Ready(true, Synced))))
  }

  lemma ErrorMeans(w0: World, w: World, mem: Status, err: Err, t: Turns)
    requires w.pipeline == w0.pipeline && w.scope == w0.scope
    ensures Means(HandleApiError(w, mem, err, t).outcome, w0, HandleApiError(w, mem, err, t).world)
    decreases mem.id
  {
    if err == Http(404) && mem.id != 0 {
      var c := CallUpsert(w, t.recreate);
      if c.answer.NotOk? {
        ErrorMeans(w0, c.world, mem.(id := 0), c.answer.err, t);
      }
    }
  }

  lemma NormalMeans(w: World, t: Turns)
    ensures var r := ReconcileNormal(w, Backfilled(w.pipeline), t); Means(r.outcome, w, r.world)
  {
    MigrateShape(w, t);
    var (m, mem) := MigrateName(w, Backfilled(w.pipeline), t);
    match m.answer
    case NoAnswer =>
    case NotOk(err) => ErrorMeans(w, m.world, mem, err, t);
    case Ok(_) =>
      var u := CallUpsert(m.world, t.upsert);
      if u.answer.NotOk? {
        ErrorMeans(w, u.world, mem, u.answer.err, t);
      }
  }

  /** Success means the live entry is recorded, a failure that its reason is or nothing is, and a lost write, a
      crash, a rate limit and a skip that the resource is as it was. */
  lemma OutcomeMeans(w: World, t: Turns)
    ensures Means(Reconcile(w, t).outcome, w, Reconcile(w, t).world)
  {
    if !w.pipeline.deleting && Active(w.pipeline) && !Skips(w) && !w.pipeline.IsReadOnly() {
      NormalMeans(w, t);
    }
  }

  // ----- A migration that stops -----

  /** A refused dry-run, other than a 404, or an answer that never came, changes nothing in Fleet; so does a
      refused delete without effect. The old pipeline stays recorded and is retried or reported. */
  lemma StoppedMigrationKeepsFleet(w: World, t: Turns)
    requires Active(w.pipeline) && !w.pipeline.IsReadOnly() && NoInterference(t)
    requires w.RenamePending(Backfilled(w.pipeline))
    requires || t.dryRun.reply.Crashed?
             || (t.dryRun.reply.Refused? && t.dryRun.reply.err != Http(404))
             || (t.dryRun.reply.Done? && !t.delete.reply.Done? && !t.delete.reply.applied
                 && (t.delete.reply.Refused? ==> t.delete.reply.err != Http(404)))
    ensures var v := Reconcile(w, t).world;
            && v.fleet == w.fleet && v.pipeline.status.id == w.pipeline.status.id
            && v.RenamePending(Backfilled(v.pipeline))
  {
    var (m, mem) := MigrateName(w, Backfilled(w.pipeline), t);
    assert Reconcile(w, t) == ReconcileNormal(w, Backfilled(w.pipeline), t);
    MigrateShape(w, t);
    if m.answer.NotOk? {
      HandleApiErrorShape(m.world, mem, m.answer.err, t);
    }
  }

  /** Where the process can die: at a Fleet call, or before it writes to the API server. */
  predicate Dies(t: Turns) {
    || t.dryRun.reply.Crashed? || t.delete.reply.Crashed? || t.upsert.reply.Crashed? || t.recreate.reply.Crashed?
    || t.get.reply.Crashed? || t.statusWrite.DiedBefore? || t.update.DiedBefore?
  }

  /** A write that came back with a conflict or another error. */
  predicate Loses(t: Turns) {
    t.statusWrite in {Conflict, WriteFailed} || t.update in {Conflict, WriteFailed}
  }

  lemma ErrorEnd(w: World, mem: Status, err: Err, t: Turns)
    ensures HandleApiError(w, mem, err, t).outcome == Died ==> Dies(t)
    ensures HandleApiError(w, mem, err, t).outcome == WriteLost ==> Loses(t)
    decreases mem.id
  {
    if err == Http(404) && mem.id != 0 {
      var c := CallUpsert(w, t.recreate);
      if c.answer.NotOk? {
        ErrorEnd(c.world, mem.(id := 0), c.answer.err, t);
      }
    }
  }

  lemma NormalEnd(w: World, t: Turns)
    ensures ReconcileNormal(w, Backfilled(w.pipeline), t).outcome == Died ==> Dies(t)
    ensures ReconcileNormal(w, Backfilled(w.pipeline), t).outcome == WriteLost ==> Loses(t)
  {
    var (m, mem) := MigrateName(w, Backfilled(w.pipeline), t);
    match m.answer
    case NoAnswer =>
    case NotOk(err) => ErrorEnd(m.world, mem, err, t);
    case Ok(_) =>
      var u := CallUpsert(m.world, t.upsert);
      if u.answer.NotOk? {
        ErrorEnd(u.world, mem, u.answer.err, t);
      }
  }

  /** A reconcile that ends without a result met a crash; one that ends with a lost write met such a write. */
  lemma AbruptEnds(w: World, t: Turns)
    ensures Reconcile(w, t).outcome == Died ==> Dies(t)
    ensures Reconcile(w, t).outcome == WriteLost ==> Loses(t)
  {
    if !w.pipeline.deleting && Active(w.pipeline) && !Skips(w) && !w.pipeline.IsReadOnly() {
      NormalEnd(w, t);
    }
  }
}
