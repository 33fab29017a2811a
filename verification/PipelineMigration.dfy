/** Re-keying a pipeline in Fleet when its desired name changes: what survives an interruption, and
    the failure the guard then skips for ever. */
module PipelineMigration {
  import opened Common
  import opened Pipelines
  import opened FleetStore
  import opened FleetCalls
  import opened PipelineReconcile
  import opened PipelineRuns

  /** A synced, writable pipeline whose desired name differs from the recorded one, or from the unscoped
      name that stands for one never recorded. */
  ghost predicate Pending(w: World) {
    && Consistent(w.fleet) && w.pipeline.key.name != ""
    && Active(w.pipeline) && !w.pipeline.IsReadOnly()
    && 0 < w.pipeline.status.id < w.fleet.nextId && w.RenamePending(Backfilled(w.pipeline))
  }

  /** A reconcile nobody interferes with, cut short: any call may crash the process, having taken
      effect or not, and the status write does not happen. */
  ghost predicate Interrupted(t: Turns) {
    && NoInterference(t) && !t.statusWrite.Stored?
    && !t.dryRun.reply.Refused? && !t.delete.reply.Refused? && !t.upsert.reply.Refused?
  }

  ghost predicate Clean(t: Turns) {
    && NoInterference(t) && t.statusWrite.Stored?
    && t.dryRun.reply.Done? && t.delete.reply.Done? && t.upsert.reply.Done? && t.recreate.reply.Done?
  }

  function Attempts(w: World, ts: seq<Turns>): World
    decreases |ts|
  {
    if ts == [] then w else Attempts(Reconcile(w, ts[0]).world, ts[1..])
  }

  /** Neither the old pipeline nor the desired name: an entry the migration has no business with. */
  predicate Bystander(w0: World, n: string) {
    && n != w0.Desired()
    && (n in w0.fleet.pipelines ==> w0.fleet.pipelines[n].id != w0.pipeline.status.id)
  }

  ghost predicate BystandersKept(w0: World, w: World) {
    forall n | Bystander(w0, n) ::
      && (n in w.fleet.pipelines <==> n in w0.fleet.pipelines)
      && (n in w.fleet.pipelines ==> w.fleet.pipelines[n] == w0.fleet.pipelines[n])
  }

  /** The old entry may still be there, under no other name than before. */
  ghost predicate OldIdKept(w0: World, w: World) {
    forall n | n in w.fleet.pipelines && w.fleet.pipelines[n].id == w0.pipeline.status.id ::
      n in w0.fleet.pipelines && w0.fleet.pipelines[n].id == w0.pipeline.status.id
  }

  /** Any number of interrupted attempts after `w0`. */
  ghost predicate Midway(w0: World, w: World) {
    && w.pipeline == w0.pipeline && w.scope == w0.scope
    && Consistent(w.fleet) && w0.fleet.nextId <= w.fleet.nextId
    && BystandersKept(w0, w) && OldIdKept(w0, w)
  }

  /** The migration is complete. */
  ghost predicate Migrated(w0: World, w: World) {
    var name, s := w0.Desired(), w.pipeline.status;
    && (forall n | n in w.fleet.pipelines :: w.fleet.pipelines[n].id != w0.pipeline.status.id)
    && name in w.fleet.pipelines && Conveys(w.fleet.pipelines[name].body, w0.pipeline.spec.body)
    && s == Status(w.fleet.pipelines[name].id, name, w0.pipeline.generation, Some(Ready(true, Synced)))
    && w.pipeline == w0.pipeline.(status := s)
    && BystandersKept(w0, w)
  }

  lemma NoForeign(f: Fleet)
    ensures ForeignAll(f, []) == f
  {}

  lemma DeleteKeepsMidway(w0: World, w: World, t: Turn)
    requires Pending(w0) && Midway(w0, w) && t.before == []
    ensures Midway(w0, CallDelete(w, w0.pipeline.status.id, t).world)
  {
    NoForeign(w.fleet);
    CallsKeepConsistent(w, w0.pipeline.status.id, t);
  }

  lemma UpsertKeepsMidway(w0: World, w: World, t: Turn)
    requires Pending(w0) && Midway(w0, w) && t.before == []
    ensures Midway(w0, CallUpsert(w, t).world)
  {
    NoForeign(w.fleet);
    CallsKeepConsistent(w, 0, t);
  }

  /** The worlds after the delete and after the recreation of one attempt. */
  function AfterDelete(w: World, t: Turns): World {
    CallDelete(CallDryRun(w, t.dryRun).world, w.pipeline.status.id, t.delete).world
  }

  function AfterUpsert(w: World, t: Turns): World {
    CallUpsert(AfterDelete(w, t), t.upsert).world
  }

  predicate RenameDue(w: World) {
    Active(w.pipeline) && !w.pipeline.IsReadOnly() && w.RenamePending(Backfilled(w.pipeline))
  }

  lemma InterruptedShape(w: World, t: Turns)
    requires RenameDue(w) && Interrupted(t)
    ensures var v := Reconcile(w, t).world;
            && v.pipeline == w.pipeline && v.scope == w.scope
            && v.fleet in [w.fleet, AfterDelete(w, t).fleet, AfterUpsert(w, t).fleet]
  {
    NoForeign(w.fleet);
    assert !Skips(w) && Reconcile(w, t) == ReconcileNormal(w, Backfilled(w.pipeline), t);
  }

  lemma AttemptKeepsMidway(w0: World, w: World, t: Turns)
    requires Pending(w0) && Midway(w0, w) && NoInterference(t)
    ensures Midway(w0, AfterDelete(w, t)) && Midway(w0, AfterUpsert(w, t))
  {
    NoForeign(w.fleet);
    DeleteKeepsMidway(w0, CallDryRun(w, t.dryRun).world, t.delete);
    UpsertKeepsMidway(w0, AfterDelete(w, t), t.upsert);
  }

  lemma InterruptedKeepsMidway(w0: World, w: World, t: Turns)
    requires Pending(w0) && Midway(w0, w) && Interrupted(t)
    ensures Midway(w0, Reconcile(w, t).world)
  {
    InterruptedShape(w, t);
    AttemptKeepsMidway(w0, w, t);
    var v := Reconcile(w, t).world;
    if v.fleet == AfterDelete(w, t).fleet {
    } else if v.fleet == AfterUpsert(w, t).fleet {
    } else {
      assert v.fleet == w.fleet;
    }
  }

  lemma {:induction false} AttemptsKeepMidway(w0: World, w: World, ts: seq<Turns>)
    requires Pending(w0) && Midway(w0, w) && forall t | t in ts :: Interrupted(t)
    ensures Midway(w0, Attempts(w, ts))
    decreases |ts|
  {
    if ts != [] {
      assert ts[0] in ts;
      InterruptedKeepsMidway(w0, w, ts[0]);
      AttemptsKeepMidway(w0, Reconcile(w, ts[0]).world, ts[1..]);
    }
  }

  lemma CleanShape(w: World, t: Turns)
    requires RenameDue(w) && Clean(t)
    ensures Reconcile(w, t).world.fleet == AfterUpsert(w, t).fleet
    ensures var u := AfterUpsert(w, t);
            w.Desired() in u.fleet.pipelines &&
            Reconcile(w, t).world.pipeline == w.pipeline.(status :=
              Status(u.fleet.pipelines[w.Desired()].id, w.Desired(), w.pipeline.generation, Some(Ready(true, Synced))))
  {
    NoForeign(w.fleet);
    assert !Skips(w) && Reconcile(w, t) == ReconcileNormal(w, Backfilled(w.pipeline), t);
  }

  lemma DeletedIdIsGone(w: World, t: Turns)
    requires NoInterference(t) && t.delete.reply.Applied()
    ensures forall n | n in AfterDelete(w, t).fleet.pipelines ::
              AfterDelete(w, t).fleet.pipelines[n].id != w.pipeline.status.id
  {}

  lemma CleanFromMidway(w0: World, w: World, t: Turns)
    requires Pending(w0) && Midway(w0, w) && Clean(t)
    ensures Migrated(w0, Reconcile(w, t).world)
  {
    CleanShape(w, t);
    AttemptKeepsMidway(w0, w, t);
    DeletedIdIsGone(w, t);
    NoForeign(AfterDelete(w, t).fleet);
  }

  /** However often the process dies between the dry-run, the delete, the recreation and the status
      write, one uninterrupted reconcile completes the migration and touches nothing else. */
  lemma MigrationIsCrashSafe(w: World, attempts: seq<Turns>, t: Turns)
    requires Pending(w) && (forall a | a in attempts :: Interrupted(a)) && Clean(t)
    ensures Migrated(w, Reconcile(Attempts(w, attempts), t).world)
  {
    AttemptsKeepMidway(w, w, attempts);
    CleanFromMidway(w, Attempts(w, attempts), t);
  }

  /** The recreation is refused after the delete went through, having taken effect or not. */
  ghost predicate RecreateRefused(t: Turns, err: Err) {
    && NoInterference(t)
    && t.dryRun.reply.Done? && t.delete.reply.Done? && t.upsert.reply.Refused? && t.upsert.reply.err == err
  }

  function ReasonOf(err: Err): Reason {
    if err == Http(400) then ValidationError else SyncFailed
  }

  lemma RefusedShape(w: World, t: Turns, err: Err)
    requires RenameDue(w) && RecreateRefused(t, err)
    ensures var v := Reconcile(w, t).world;
            && v.scope == w.scope
            && v.fleet == (if t.upsert.reply.applied then AfterUpsert(w, t).fleet else AfterDelete(w, t).fleet)
            && v.pipeline == (if err == Http(429) || !t.statusWrite.Stored? then w.pipeline
                              else w.pipeline.(status := ErrorStatus(w, Backfilled(w.pipeline).(id := 0),
                                                                     ReasonOf(err), err)))
  {
    NoForeign(w.fleet);
    NoForeign(AfterDelete(w, t).fleet);
    assert !Skips(w) && Reconcile(w, t) == ReconcileNormal(w, Backfilled(w.pipeline), t);
  }

  /** A fresh pipeline does not get the old id. */
  lemma UpsertedIdIsNew(w: World, t: Turns)
    requires Pending(w) && NoInterference(t) && t.delete.reply.Applied()
    ensures forall n | n in AfterUpsert(w, t).fleet.pipelines ::
              AfterUpsert(w, t).fleet.pipelines[n].id != w.pipeline.status.id
  {
    DeletedIdIsGone(w, t);
    NoForeign(w.fleet);
    NoForeign(AfterDelete(w, t).fleet);
  }

  /** The world a refused recreation leaves behind: the old pipeline is gone already. */
  lemma RefusedOutcome(w: World, t: Turns, err: Err)
    requires Pending(w) && RecreateRefused(t, err)
    ensures var v := Reconcile(w, t).world;
            && Midway(w, v.(pipeline := w.pipeline))
            && forall n | n in v.fleet.pipelines :: v.fleet.pipelines[n].id != w.pipeline.status.id
  {
    RefusedShape(w, t, err);
    AttemptKeepsMidway(w, w, t);
    DeletedIdIsGone(w, t);
    UpsertedIdIsNew(w, t);
  }

  /** Once the id is cleared the name is no longer compared: a clean reconcile recreates, or skips. */
  lemma ClearedOutcome(w0: World, v: World, t: Turns)
    requires Pending(w0) && Clean(t) && v.pipeline.status.id == 0
    requires Midway(w0, v.(pipeline := w0.pipeline)) && v.pipeline == w0.pipeline.(status := v.pipeline.status)
    requires forall n | n in v.fleet.pipelines :: v.fleet.pipelines[n].id != w0.pipeline.status.id
    ensures !Skips(v) ==> Migrated(w0, Reconcile(v, t).world)
    ensures Skips(v) ==> Reconcile(v, t).world == v
  {
    if !Skips(v) {
      ClearedShape(v, t);
      UpsertKeepsMidway(w0, v.(pipeline := w0.pipeline), t.upsert);
      assert v.Desired() == w0.Desired() && v.pipeline.RequestBody() == w0.pipeline.RequestBody();
    }
  }

  /** With the id cleared a clean reconcile is one upsert. */
  lemma ClearedShape(v: World, t: Turns)
    requires Clean(t) && v.pipeline.status.id == 0 && Active(v.pipeline) && !v.pipeline.IsReadOnly() && !Skips(v)
    ensures var u := CallUpsert(v, t.upsert).world; var x := Reconcile(v, t).world;
            && x.fleet == u.fleet && x.scope == v.scope
            && u.fleet == Upsert(v.fleet, ByPipeline(v.pipeline.key), v.Desired(), v.pipeline.RequestBody())
            && v.Desired() in u.fleet.pipelines
            && x.pipeline == v.pipeline.(status :=
                 Status(u.fleet.pipelines[v.Desired()].id, v.Desired(), v.pipeline.generation,
                        Some(Ready(true, Synced))))
  {
    NoForeign(v.fleet);
    assert Backfilled(v.pipeline) == v.pipeline.status && !v.RenamePending(v.pipeline.status);
  }

  /** After a refused recreation the next clean reconcile completes the migration if and only if the
      error was a 429, or its status write was lost, or the generation was still unobserved and the
      error is one that is retried. */
  lemma RefusedRecreateConvergesExactly(w: World, t: Turns, err: Err, next: Turns)
    requires Pending(w) && RecreateRefused(t, err) && Clean(next)
    ensures Migrated(w, Reconcile(Reconcile(w, t).world, next).world)
       <==> || err == Http(429) || !t.statusWrite.Stored?
            || (w.pipeline.status.observedGeneration != w.pipeline.generation && ShouldRetry(err, ReasonOf(err)))
  {
    var v := Reconcile(w, t).world;
    RefusedOutcome(w, t, err);
    RefusedShape(w, t, err);
    if err == Http(429) || !t.statusWrite.Stored? {
      CleanFromMidway(w, v, next);
    } else {
      ClearedOutcome(w, v, next);
    }
  }

  /** A scope toggle does not bump the generation, so after a stored failure every further clean
      reconcile is skipped: the old pipeline is gone, and the new one is never recorded, nor created unless
      the refused call did so. */
  lemma {:induction false} ScopeToggleCanStick(w: World, t: Turns, err: Err, later: seq<Turns>)
    requires Pending(w) && RecreateRefused(t, err) && w.Desired() !in w.fleet.pipelines
    requires w.pipeline.status.observedGeneration == w.pipeline.generation
    requires err != Http(429) && t.statusWrite.Stored? && forall l | l in later :: Clean(l)
    ensures var v := Attempts(Reconcile(w, t).world, later);
            && v == Reconcile(w, t).world
            && v.pipeline.status.id == 0
            && (w.Desired() in v.fleet.pipelines <==> t.upsert.reply.applied)
            && (forall n | n in v.fleet.pipelines :: v.fleet.pipelines[n].id != w.pipeline.status.id)
    decreases |later|
  {
    RefusedOutcome(w, t, err);
    RefusedShape(w, t, err);
    var v := Reconcile(w, t).world;
    assert Skips(v);
    NoForeign(w.fleet);
    NoForeign(AfterDelete(w, t).fleet);
    assert w.Desired() in v.fleet.pipelines <==> t.upsert.reply.applied;
    if later != [] {
      assert later[0] in later;
      ClearedOutcome(w, v, later[0]);
      ScopeToggleCanStick(w, t, err, later[1..]);
    }
  }

  // ----- A status that read-only observation pointed elsewhere -----

  /** Observing a read-only pipeline records the annotated id and leaves the recorded name. */
  lemma ObservationRepoints(w: World, t: Turns)
    requires Active(w.pipeline) && w.pipeline.IsReadOnly() && w.pipeline.ReadOnlyId() != 0 && !Skips(w)
    requires t.get.reply.Done? && t.statusWrite.Stored?
    ensures var s := Reconcile(w, t).world.pipeline.status;
            s.id == w.pipeline.ReadOnlyId() && s.syncedName == Backfilled(w.pipeline).syncedName
  {}

  lemma RenamedFleet(w: World, t: Turns)
    requires RenameDue(w) && Clean(t)
    ensures Reconcile(w, t).world.fleet ==
            Upsert(Delete(w.fleet, w.pipeline.status.id), ByPipeline(w.pipeline.key),
                   w.Desired(), w.pipeline.RequestBody())
    ensures Reconcile(w, t).world.pipeline.key == w.pipeline.key
  {
    CleanShape(w, t);
    NoForeign(w.fleet);
    NoForeign(AfterDelete(w, t).fleet);
  }

  /** So recording every write is not enough for at most one pipeline: once the resource is writable again,
      an undisturbed rename leaves two live pipelines if and only if status records another id than the
      live one's and the desired name is free or held under that other id. */
  lemma RepointedRenameDuplicatesExactly(w: World, t: Turns, prior: string)
    requires RenameDue(w) && Consistent(w.fleet) && Clean(t)
    requires Mine(w, prior) && (forall n | Mine(w, n) :: n == prior) && w.Desired() != prior
    ensures |LivePipelines(Reconcile(w, t).world)| <= 1
       <==> w.fleet.pipelines[prior].id == w.pipeline.status.id
            || (w.Desired() in w.fleet.pipelines && w.fleet.pipelines[w.Desired()].id != w.pipeline.status.id)
  {
    var v, id, name := Reconcile(w, t).world, w.pipeline.status.id, w.Desired();
    RenamedFleet(w, t);
    var kept := Delete(w.fleet, id);
    forall n
      ensures Mine(v, n) <==>
                (n == prior && w.fleet.pipelines[prior].id != id) || (n == name && name !in kept.pipelines)
    {
      if n == name {
        assert name in kept.pipelines ==> !Mine(w, name);
      } else {
        assert Mine(v, n) <==> n in kept.pipelines && Mine(w, n);
      }
    }
    if w.fleet.pipelines[prior].id != id && name !in kept.pipelines {
      assert prior in LivePipelines(v) && name in LivePipelines(v);
      TwoElements(prior, name, LivePipelines(v));
    } else if w.fleet.pipelines[prior].id != id {
      SubsetOfOne(LivePipelines(v), prior);
    } else {
      SubsetOfOne(LivePipelines(v), name);
    }
  }

  // ----- What Fleet ends up with -----

  /** An entry a rename removes: the old pipeline. */
  predicate Replaced(w: World, n: string) {
    && w.RenamePending(Backfilled(w.pipeline))
    && n in w.fleet.pipelines && w.fleet.pipelines[n].id == w.pipeline.status.id
  }

  /** A clean reconcile that the guard lets through leaves the spec in Fleet under the desired name and its id,
      name and generation in status; it touches no other entry, except that a rename removes the old one. */
  lemma CleanReconcileApplies(w: World, t: Turns)
    requires Active(w.pipeline) && !w.pipeline.IsReadOnly() && !Skips(w) && Clean(t)
    ensures var v := Reconcile(w, t).world; var name := w.Desired();
            && name in v.fleet.pipelines && Conveys(v.fleet.pipelines[name].body, w.pipeline.spec.body)
            && v.pipeline == w.pipeline.(status :=
                 Status(v.fleet.pipelines[name].id, name, w.pipeline.generation, Some(Ready(true, Synced))))
            && (forall n | n != name :: n in v.fleet.pipelines <==> n in w.fleet.pipelines && !Replaced(w, n))
            && (forall n | n != name && n in v.fleet.pipelines :: v.fleet.pipelines[n] == w.fleet.pipelines[n])
  {
    NoForeign(w.fleet);
    RequestConveysSpec(w.pipeline);
    if w.RenamePending(Backfilled(w.pipeline)) {
      RenamedFleet(w, t);
      CleanShape(w, t);
    }
  }
}
