/** At most one live Fleet pipeline per resource: when status keeps track of it, when it loses track, and what
    finalisation then leaves behind. */
module PipelineUniqueness {
  import opened Common
  import opened Pipelines
  import opened FleetStore
  import opened FleetCalls
  import opened PipelineReconcile
  import opened PipelineRuns
  import opened PipelineMigration

  // ----- Runs in which names change only between recorded writes -----

  /** The upsert answers 404, the recreation it triggers is refused, and the cleared id is stored. */
  predicate ClearsId(t: Turns) {
    && t.upsert.reply.Refused? && t.upsert.reply.err == Http(404)
    && t.recreate.reply.Refused? && t.recreate.reply.err != Http(429)
    && t.statusWrite.Stored?
  }

  /** The same, and neither call took effect. */
  predicate Forgets(t: Turns) {
    ClearsId(t) && !t.upsert.reply.applied && !t.recreate.reply.applied
  }

  /** The steps of the at-most-one theorem: the desired name does not change between an applied Fleet write
      and the status recording it, no dry-run answers 404, no reconcile forgets, and a read-only observation
      does not point status at another pipeline. */
  ghost predicate Timely(w: World, e: Event) {
    && NameFrozen(w, e)
    && (e.Run? ==> !DryRun404(e.turns) && !Forgets(e.turns))
    && (e.Run? && w.pipeline.IsReadOnly() ==> KeepsId(w))
  }

  /** At most one, and recorded unless an applied write still has to be. */
  ghost predicate Tracked(w: World) {
    OneAtMost(w) && (!w.unrecorded ==> AllRecorded(w))
  }

  /** Tracking makes the timing of name changes sufficient. */
  lemma TimelyIsStable(w: World, e: Event)
    requires Tracked(w) && Timely(w, e)
    ensures NameStable(w, e)
  {}

  /** A recorded live pipeline needs no backfilled name, and status has its id. */
  lemma RecordedNeedsNoBackfill(w: World)
    requires OneAtMost(w) && AllRecorded(w) && Consistent(w.fleet) && exists n :: Mine(w, n)
    ensures w.pipeline.status.id != 0 && w.pipeline.status.syncedName != ""
    ensures Backfilled(w.pipeline) == w.pipeline.status
  {
    var n :| Mine(w, n);
    DesiredIsNonEmpty(w);
    assert RecordedIn(w.pipeline.status, w.fleet, n);
  }

  /** Losing created pipelines, with the same id and name in status, keeps the rest recorded. */
  lemma ShrinkingKeepsRecorded(w: World, v: World)
    requires AllRecorded(w) && CreatedShrinks(w.fleet, v.fleet, w.pipeline.key) && v.pipeline.key == w.pipeline.key
    requires (exists n :: Mine(w, n)) ==>
               && v.pipeline.status.id == w.pipeline.status.id
               && v.pipeline.status.syncedName == w.pipeline.status.syncedName
    ensures AllRecorded(v)
  {
    forall n | Mine(v, n) ensures RecordedIn(v.pipeline.status, v.fleet, n) {
      assert Mine(w, n);
    }
  }

  lemma SuccessRecords(w: World, mem: Status, id: nat, write: StatusWrite)
    requires OnlyDesired(w) && w.Desired() in w.fleet.pipelines && id == w.fleet.pipelines[w.Desired()].id
    requires w.unrecorded
    ensures var v := UpdateStatusSuccess(w, mem, id, write).world; !v.unrecorded ==> AllRecorded(v)
  {
    var v := UpdateStatusSuccess(w, mem, id, write).world;
    assert v.fleet == w.fleet && v.pipeline.key == w.pipeline.key;
    assert forall n | Mine(v, n) :: Mine(w, n);
  }

  lemma UpsertAnswers(w: World, t: Turn)
    ensures var c := CallUpsert(w, t);
            && c.world.scope == w.scope && c.world.pipeline == w.pipeline
            && (t.reply.Applied() ==> c.world.unrecorded)
            && (!t.reply.Applied() ==>
                  c.world.unrecorded == w.unrecorded && c.world.fleet == ForeignAll(w.fleet, t.before))
            && (c.answer.Ok? ==> c.world.unrecorded && w.Desired() in c.world.fleet.pipelines
                                 && c.answer.id == c.world.fleet.pipelines[w.Desired()].id)
            && (c.answer.NotOk? <==> t.reply.Refused?) && (c.answer.NotOk? ==> c.answer.err == t.reply.err)
  {}

  lemma StatusErrorRecords(w: World, reason: Reason, err: Err, write: StatusWrite)
    requires OneAtMost(w) && AllRecorded(w) && Consistent(w.fleet)
    ensures AllRecorded(UpdateStatusError(w, Backfilled(w.pipeline), reason, err, write).world)
  {
    var v := UpdateStatusError(w, Backfilled(w.pipeline), reason, err, write).world;
    if exists n :: Mine(w, n) {
      RecordedNeedsNoBackfill(w);
    }
    assert v.fleet == w.fleet;
    ShrinkingKeepsRecorded(w, v);
  }

  /** Without a 404 on a recorded id an error keeps track. */
  lemma PlainErrorRecords(w: World, err: Err, t: Turns)
    requires OneAtMost(w) && AllRecorded(w) && Consistent(w.fleet)
    requires err == Http(404) ==> Backfilled(w.pipeline).id == 0
    ensures AllRecorded(HandleApiError(w, Backfilled(w.pipeline), err, t).world)
  {
    StatusErrorRecords(w, ValidationError, err, t.statusWrite);
    StatusErrorRecords(w, SyncFailed, err, t.statusWrite);
  }

  /** A recreation that does not end in a stored refusal keeps track too. */
  lemma RecreateRecords(w: World, t: Turns)
    requires OneAtMost(w) && AllRecorded(w) && Consistent(w.fleet) && OnlyDesired(w) && Backfilled(w.pipeline).id != 0
    requires !(&& t.recreate.reply.Refused? && !t.recreate.reply.applied
               && t.recreate.reply.err != Http(429) && t.statusWrite.Stored?)
    ensures var v := HandleApiError(w, Backfilled(w.pipeline), Http(404), t).world;
            !v.unrecorded ==> AllRecorded(v)
  {
    var cleared := Backfilled(w.pipeline).(id := 0);
    var c := CallUpsert(w, t.recreate);
    var v := HandleApiError(w, Backfilled(w.pipeline), Http(404), t).world;
    UpsertAnswers(w, t.recreate);
    UpsertKeepsOnlyDesired(w, t.recreate);
    match c.answer
    case Ok(id) => SuccessRecords(c.world, cleared, id, t.statusWrite);
    case NotOk(again) =>
      RefusedAgain(c.world, cleared, again, t);
      if !t.recreate.reply.applied {
        ForeignCreatesNothing(w.fleet, t.recreate.before, w.pipeline.key);
        ShrinkingKeepsRecorded(w, v);
      }
    case NoAnswer =>
      if !t.recreate.reply.Applied() {
        ForeignCreatesNothing(w.fleet, t.recreate.before, w.pipeline.key);
        ShrinkingKeepsRecorded(w, v);
      }
  }

  /** With the id cleared an error only stores a status. */
  lemma RefusedAgain(w: World, mem: Status, err: Err, t: Turns)
    requires mem.id == 0
    ensures var v := HandleApiError(w, mem, err, t).world;
            && v.fleet == w.fleet && v.unrecorded == w.unrecorded && SameSubject(w, v)
            && (err == Http(429) || !t.statusWrite.Stored? ==> v.pipeline == w.pipeline)
            && (err != Http(429) && t.statusWrite.Stored? ==>
                  v.pipeline.status.id == 0 && v.pipeline.status.syncedName == mem.syncedName)
  {}

  /** A migration that changed nothing in status' terms, or left the write unrecorded. */
  lemma MigrateRecords(w: World, t: Turns)
    requires Tracked(w) && Consistent(w.fleet)
    ensures var (m, mem) := MigrateName(w, Backfilled(w.pipeline), t);
            && (!m.world.unrecorded ==> !w.unrecorded && AllRecorded(m.world) && mem == Backfilled(w.pipeline))
            && (m.answer.Ok? && mem != Backfilled(w.pipeline) ==> m.world.unrecorded)
  {
    var mem := Backfilled(w.pipeline);
    ForeignCreatesNothing(w.fleet, t.dryRun.before, w.pipeline.key);
    var d := CallDryRun(w, t.dryRun).world;
    if w.RenamePending(mem) {
      if !w.unrecorded {
        ShrinkingKeepsRecorded(w, d);
      }
      if CallDryRun(w, t.dryRun).answer.Ok? {
        DeletesShrink(d, mem.id, t.delete);
        if !CallDelete(d, mem.id, t.delete).world.unrecorded {
          ShrinkingKeepsRecorded(d, CallDelete(d, mem.id, t.delete).world);
        }
      }
    }
  }

  lemma HandleErrorUnrecorded(w: World, mem: Status, err: Err, t: Turns)
    requires w.unrecorded && OnlyDesired(w)
    ensures var v := HandleApiError(w, mem, err, t).world; !v.unrecorded ==> AllRecorded(v)
  {
    if err == Http(404) && mem.id != 0 {
      var c := CallUpsert(w, t.recreate);
      UpsertAnswers(w, t.recreate);
      UpsertKeepsOnlyDesired(w, t.recreate);
      match c.answer
      case Ok(id) => SuccessRecords(c.world, mem.(id := 0), id, t.statusWrite);
      case NotOk(again) => RefusedAgain(c.world, mem.(id := 0), again, t);
      case NoAnswer =>
    }
  }

  lemma NormalRecords(w: World, t: Turns)
    requires Tracked(w) && Consistent(w.fleet) && !DryRun404(t) && !Forgets(t)
    ensures var v := ReconcileNormal(w, Backfilled(w.pipeline), t).world; !v.unrecorded ==> AllRecorded(v)
  {
    MigrateKeepsOneAtMost(w, t);
    MigrateKeepsConsistent(w, t);
    MigrateShape(w, t);
    MigrateRecords(w, t);
    var (m, mem) := MigrateName(w, Backfilled(w.pipeline), t);
    match m.answer
    case NoAnswer =>
    case NotOk(err) =>
      assert Backfilled(m.world.pipeline) == mem;
      if !m.world.unrecorded {
        PlainErrorRecords(m.world, err, t);
      } else {
        PlainErrorUnrecorded(m.world, mem, err, t);
      }
    case Ok(_) => UpsertRecords(w, m.world, mem, t);
  }

  lemma PlainErrorUnrecorded(w: World, mem: Status, err: Err, t: Turns)
    requires w.unrecorded && err != Http(404)
    ensures HandleApiError(w, mem, err, t).world.unrecorded
  {}

  /** What follows the answer to the upsert. */
  function Answered(u: Called, mem: Status, t: Turns): World {
    match u.answer
    case Ok(id) => UpdateStatusSuccess(u.world, mem, id, t.statusWrite).world
    case NotOk(err) => HandleApiError(u.world, mem, err, t).world
    case NoAnswer => u.world
  }

  lemma UpsertRecords(w0: World, w: World, mem: Status, t: Turns)
    requires OneAtMost(w) && OnlyDesired(w) && Consistent(w.fleet) && !Forgets(t)
    requires !w.unrecorded ==> AllRecorded(w) && mem == Backfilled(w.pipeline)
    ensures var v := Answered(CallUpsert(w, t.upsert), mem, t); !v.unrecorded ==> AllRecorded(v)
  {
    var u := CallUpsert(w, t.upsert);
    UpsertAnswers(w, t.upsert);
    UpsertKeepsOnlyDesired(w, t.upsert);
    CallsKeepConsistent(w, 0, t.upsert);
    if u.world.unrecorded {
      match u.answer
      case Ok(id) => SuccessRecords(u.world, mem, id, t.statusWrite);
      case NotOk(err) => HandleErrorUnrecorded(u.world, mem, err, t);
      case NoAnswer =>
    } else {
      ForeignCreatesNothing(w.fleet, t.upsert.before, w.pipeline.key);
      ShrinkingKeepsRecorded(w, u.world);
      OnlyDesiredIsOneAtMost(u.world);
      match u.answer
      case NotOk(err) =>
        if err == Http(404) && mem.id != 0 {
          RecreateRecords(u.world, t);
        } else {
          PlainErrorRecords(u.world, err, t);
        }
      case _ =>
    }
  }

  lemma ReadOnlyRecords(w: World, t: Turns)
    requires OneAtMost(w) && AllRecorded(w) && Consistent(w.fleet) && KeepsId(w)
    ensures AllRecorded(ReconcileReadOnly(w, Backfilled(w.pipeline), t).world)
  {
    var seen := w.(fleet := ForeignAll(w.fleet, t.get.before));
    ForeignCreatesNothing(w.fleet, t.get.before, w.pipeline.key);
    ForeignConsistent(w.fleet, t.get.before);
    ShrinkingKeepsRecorded(w, seen);
    ShrinkingKeepsOneAtMost(w, seen);
    StatusErrorRecords(w, ValidationError, Transport, t.statusWrite);
    match t.get.reply
    case Crashed(_) =>
    case Refused(err, _) =>
      StatusErrorRecords(seen, ValidationError, err, t.statusWrite);
      StatusErrorRecords(seen, ReadOnly, err, t.statusWrite);
    case Done =>
      if w.pipeline.ReadOnlyId() != 0 {
        var v := ReconcileReadOnly(w, Backfilled(w.pipeline), t).world;
        assert v.fleet == seen.fleet;
        if exists n :: Mine(w, n) {
          RecordedNeedsNoBackfill(w);
        }
        ShrinkingKeepsRecorded(w, v);
      }
  }

  lemma DeleteRecords(w: World, t: Turns)
    requires AllRecorded(w)
    ensures AllRecorded(ReconcileDelete(w, t).world)
  {
    DeleteShape(w, t);
    DeletesShrink(w, w.pipeline.status.id, t.delete);
    ShrinkingKeepsRecorded(w, ReconcileDelete(w, t).world);
  }

  lemma RunFlag(w: World, t: Turns)
    requires w.pipeline.deleting || !Active(w.pipeline) || Skips(w) || w.pipeline.IsReadOnly()
    ensures w.unrecorded ==> Reconcile(w, t).world.unrecorded
  {}

  lemma RunRecords(w: World, t: Turns)
    requires Tracked(w) && Consistent(w.fleet) && !DryRun404(t) && !Forgets(t)
    requires w.pipeline.IsReadOnly() ==> KeepsId(w)
    ensures var v := Reconcile(w, t).world; !v.unrecorded ==> AllRecorded(v)
  {
    if !w.pipeline.deleting && Active(w.pipeline) && !Skips(w) && !w.pipeline.IsReadOnly() {
      NormalRecords(w, t);
    } else if w.unrecorded {
      RunFlag(w, t);
    } else if w.pipeline.deleting {
      DeleteRecords(w, t);
    } else if Active(w.pipeline) && !Skips(w) {
      ReadOnlyRecords(w, t);
    }
  }

  lemma StepKeepsTracked(w: World, e: Event)
    requires Tracked(w) && Consistent(w.fleet) && Timely(w, e)
    ensures Tracked(Apply(w, e))
  {
    TimelyIsStable(w, e);
    StepKeepsOneAtMost(w, e);
    match e
    case Run(t) => RunRecords(w, t);
    case Outside(acts) =>
      ForeignCreatesNothing(w.fleet, acts, w.pipeline.key);
      if !w.unrecorded {
        ShrinkingKeepsRecorded(w, Apply(w, e));
      }
    case _ =>
  }

  /** So a run of such steps is one in which names change only over recorded pipelines. */
  lemma {:induction false} TimelyRunsAreStable(w: World, es: seq<Event>)
    requires Tracked(w) && Consistent(w.fleet) && AllAlong(Timely, w, es)
    ensures AllAlong(NameStable, w, es) && Tracked(ApplyAll(w, es)) && Consistent(ApplyAll(w, es).fleet)
    decreases |es|
  {
    if es != [] {
      TimelyIsStable(w, es[0]);
      StepKeepsTracked(w, es[0]);
      StepKeepsConsistent(w, es[0]);
      TimelyRunsAreStable(Apply(w, es[0]), es[1..]);
    }
  }

  /** Over every run in which the desired name does not change between a Fleet write and the status write
      recording it, at most one live Fleet pipeline was created for the resource: across renames, scope
      toggles, recreation after a 404, failures, crashes and lost status writes. */
  lemma AtMostOneLivePipeline(w: World, es: seq<Event>)
    requires Tracked(w) && Consistent(w.fleet) && AllAlong(Timely, w, es)
    ensures |LivePipelines(ApplyAll(w, es))| <= 1
  {
    TimelyRunsAreStable(w, es);
    StableRunsKeepOne(w, es);
  }

  /** A resource for which nothing was created yet starts such a run, whatever its status. */
  lemma NothingCreatedIsTracked(w: World)
    requires w.pipeline.key.name != "" && LivePipelines(w) == {}
    ensures Tracked(w)
  {
    NothingCreatedYet(w);
    assert forall n :: Mine(w, n) ==> n in LivePipelines(w);
  }

  // ----- When status loses track -----

  /** The one live pipeline of the resource, by name and id. */
  ghost predicate LiveAlone(w: World, name: string, id: nat) {
    && Mine(w, name) && w.fleet.pipelines[name].id == id
    && forall n | Mine(w, n) :: n == name
  }

  lemma UpsertKeepsAlone(w: World, t: Turn, id: nat)
    requires LiveAlone(w, w.Desired(), id) && t.before == []
    ensures LiveAlone(CallUpsert(w, t).world, w.Desired(), id)
    ensures CallUpsert(w, t).answer.Ok? ==> CallUpsert(w, t).answer.id == id
  {
    NoForeign(w.fleet);
    var v := CallUpsert(w, t).world;
    forall n | Mine(v, n) ensures n == w.Desired() {
      assert n != w.Desired() ==> Mine(w, n);
    }
  }

  lemma AloneRecorded(w: World, name: string, id: nat)
    requires LiveAlone(w, name, id)
    ensures AllRecorded(w) <==> w.pipeline.status.id == id && w.pipeline.status.syncedName == name
  {}

  lemma SameFleetAlone(w: World, v: World, name: string, id: nat)
    requires LiveAlone(w, name, id) && v.fleet == w.fleet && v.pipeline.key == w.pipeline.key
    ensures LiveAlone(v, name, id)
  {
    assert forall n :: Mine(v, n) <==> Mine(w, n);
  }

  /** A writable resource past the guard whose one live pipeline is recorded under the desired name. */
  ghost predicate Settled(w: World) {
    var s := w.pipeline.status;
    && s.id != 0 && s.syncedName == w.Desired() && w.pipeline.key.name != "" && LiveAlone(w, w.Desired(), s.id)
    && !w.unrecorded && Active(w.pipeline) && !w.pipeline.IsReadOnly() && !Skips(w)
  }

  lemma SettledReconcile(w: World, t: Turns)
    requires Settled(w) && NoInterference(t)
    ensures var c := CallUpsert(w, t.upsert);
            && Reconcile(w, t).world == Answered(c, w.pipeline.status, t)
            && c.world.pipeline == w.pipeline && c.world.scope == w.scope
            && LiveAlone(c.world, w.Desired(), w.pipeline.status.id)
  {
    DesiredIsNonEmpty(w);
    UpsertKeepsAlone(w, t.upsert, w.pipeline.status.id);
    assert Backfilled(w.pipeline) == w.pipeline.status && !w.RenamePending(w.pipeline.status);
  }

  /** An undisturbed reconcile of a settled resource leaves its pipeline live, and loses track of it if and
      only if the upsert answers 404, the recreation is refused with another error than 429, and the status
      is stored; nothing is then waiting to be recorded if and only if neither call took effect. */
  lemma LosesTrackExactly(w: World, t: Turns)
    requires Settled(w) && NoInterference(t)
    ensures var v := Reconcile(w, t).world;
            && LiveAlone(v, w.Desired(), w.pipeline.status.id)
            && (!AllRecorded(v) <==> ClearsId(t))
            && (!AllRecorded(v) && !v.unrecorded <==> Forgets(t))
  {
    var name, id, v := w.Desired(), w.pipeline.status.id, Reconcile(w, t).world;
    SettledReconcile(w, t);
    var c := CallUpsert(w, t.upsert);
    UpsertAnswers(w, t.upsert);
    UpsertKeepsAlone(w, t.upsert, id);
    if c.answer.NotOk? && c.answer.err == Http(404) {
      AfterClearing(w, c.world, t);
    } else {
      KeptAfterAnswer(w, c, t);
    }
    AloneRecorded(v, name, id);
  }

  lemma KeptAfterAnswer(w: World, c: Called, t: Turns)
    requires c.world.pipeline == w.pipeline && c.world.scope == w.scope
    requires LiveAlone(c.world, w.Desired(), w.pipeline.status.id) && w.pipeline.status.syncedName == w.Desired()
    requires c.answer.NotOk? ==> c.answer.err != Http(404)
    requires c.answer.Ok? ==> c.answer.id == w.pipeline.status.id
    ensures var v := Answered(c, w.pipeline.status, t);
            && LiveAlone(v, w.Desired(), w.pipeline.status.id)
            && v.pipeline.status.id == w.pipeline.status.id && v.pipeline.status.syncedName == w.Desired()
  {
    SameFleetAlone(c.world, Answered(c, w.pipeline.status, t), w.Desired(), w.pipeline.status.id);
  }

  lemma AfterClearing(w: World, c: World, t: Turns)
    requires w.pipeline.status.id != 0 && c.pipeline == w.pipeline && c.scope == w.scope && t.recreate.before == []
    requires LiveAlone(c, w.Desired(), w.pipeline.status.id) && w.pipeline.status.syncedName == w.Desired()
    ensures var v := HandleApiError(c, w.pipeline.status, Http(404), t).world; var s := v.pipeline.status;
            var refused := t.recreate.reply.Refused? && t.recreate.reply.err != Http(429) && t.statusWrite.Stored?;
            && LiveAlone(v, w.Desired(), w.pipeline.status.id)
            && s.syncedName == w.Desired() && s.id == (if refused then 0 else w.pipeline.status.id)
            && (refused ==> (v.unrecorded <==> c.unrecorded || t.recreate.reply.applied))
  {
    var r := CallUpsert(c, t.recreate);
    UpsertAnswers(c, t.recreate);
    UpsertKeepsAlone(c, t.recreate, w.pipeline.status.id);
    if r.answer.NotOk? {
      RefusedAgain(r.world, w.pipeline.status.(id := 0), r.answer.err, t);
    }
    SameFleetAlone(r.world, HandleApiError(c, w.pipeline.status, Http(404), t).world,
                   w.Desired(), w.pipeline.status.id);
  }

  /** A stored refusal after a 404 changes nothing but the status, whose id is gone, and makes no dry-run. */
  lemma ForgottenShape(w: World, t: Turns)
    requires Settled(w) && NoInterference(t) && Forgets(t)
    ensures var v := Reconcile(w, t).world;
            && v.pipeline == w.pipeline.(status := v.pipeline.status) && v.scope == w.scope && !v.unrecorded
            && v.pipeline.status.id == 0
            && v.pipeline.status.observedGeneration in [w.pipeline.status.observedGeneration, w.pipeline.generation]
            && forall c | c in v.calls && c.DryRun? :: c in w.calls
  {
    SettledReconcile(w, t);
    var c, cleared := CallUpsert(w, t.upsert), w.pipeline.status.(id := 0);
    assert c.answer == NotOk(Http(404));
    var r := CallUpsert(c.world, t.recreate);
    assert r.answer == NotOk(t.recreate.reply.err);
    assert HandleApiError(c.world, w.pipeline.status, Http(404), t).world ==
           HandleApiError(r.world, cleared, t.recreate.reply.err, t).world;
    RefusedStatus(r.world, cleared, t.recreate.reply.err, t);
  }

  lemma RefusedStatus(w: World, mem: Status, err: Err, t: Turns)
    requires mem.id == 0 && err != Http(429) && t.statusWrite.Stored?
    ensures var v := HandleApiError(w, mem, err, t).world;
            && v == w.(pipeline := w.pipeline.(status := v.pipeline.status)) && v.pipeline.status.id == 0
            && v.pipeline.status.observedGeneration in [mem.observedGeneration, w.pipeline.generation]
  {}

  lemma ThreeSteps(w: World, t: Turns, spec: Spec, next: Turns)
    ensures var es := [Run(t), EditSpec(spec), Run(next)];
            var x := Reconcile(w, t).world; var y := Apply(x, EditSpec(spec));
            && ApplyAll(w, es) == Reconcile(y, next).world
            && (AllAlong(NameFrozen, w, es) <==> NameFrozen(x, EditSpec(spec)))
  {
    var x := Reconcile(w, t).world;
    var y := Apply(x, EditSpec(spec));
    RunFirst(y, Run(next), []);
    RunFirst(x, EditSpec(spec), [Run(next)]);
    RunFirst(w, Run(t), [EditSpec(spec), Run(next)]);
    assert [Run(next)] == [Run(next)] + [];
    assert [EditSpec(spec), Run(next)] == [EditSpec(spec)] + [Run(next)];
    assert [Run(t), EditSpec(spec), Run(next)] == [Run(t)] + [EditSpec(spec), Run(next)];
  }

  lemma RunFirst(w: World, e: Event, rest: seq<Event>)
    ensures ApplyAll(w, [e] + rest) == ApplyAll(Apply(w, e), rest)
    ensures AllAlong(NameFrozen, w, [e] + rest) <==> NameFrozen(w, e) && AllAlong(NameFrozen, Apply(w, e), rest)
  {
    assert ([e] + rest)[1..] == rest;
  }

  /** Then a rename, made while nothing waits to be recorded, leaves two live pipelines without any dry-run:
      the names were stable in time, but the id was lost. */
  lemma ForgottenThenRenamedDuplicates(w: World, t: Turns, spec: Spec, next: Turns)
    requires Settled(w) && NoInterference(t) && Forgets(t)
    requires w.pipeline.status.observedGeneration <= w.pipeline.generation
    requires Clean(next)
    requires var v := Apply(Reconcile(w, t).world, EditSpec(spec));
             && v.Desired() != w.Desired() && v.Desired() !in v.fleet.pipelines
             && !v.pipeline.IsReadOnly() && !spec.paused
    ensures var es := [Run(t), EditSpec(spec), Run(next)]; var v := ApplyAll(w, es);
            && AllAlong(NameFrozen, w, es)
            && |LivePipelines(v)| >= 2
            && forall c | c in v.calls && c.DryRun? :: c in w.calls
  {
    LosesTrackExactly(w, t);
    ForgottenShape(w, t);
    ThreeSteps(w, t, spec, next);
    var x := Reconcile(w, t).world;
    var y := Apply(x, EditSpec(spec));
    assert spec != x.pipeline.spec;
    SecondLive(x, y, w.Desired(), next);
  }

  lemma SecondLive(x: World, y: World, prior: string, next: Turns)
    requires Clean(next) && Mine(x, prior) && y.fleet == x.fleet && y.pipeline.key == x.pipeline.key
    requires y.calls == x.calls
    requires y.pipeline.status.id == 0 && Active(y.pipeline) && !y.pipeline.IsReadOnly() && !Skips(y)
    requires y.Desired() != prior && y.Desired() !in y.fleet.pipelines
    ensures var z := Reconcile(y, next).world;
            |LivePipelines(z)| >= 2 && forall c | c in z.calls && c.DryRun? :: c in x.calls
  {
    ClearedShape(y, next);
    var z := Reconcile(y, next).world;
    assert Mine(z, prior) && Mine(z, y.Desired());
    TwoElements(prior, y.Desired(), LivePipelines(z));
  }

  // ----- What finalisation leaves -----

  /** An undisturbed finalisation of a writable pipeline leaves nothing live if and only if every live
      pipeline has the id in status. */
  lemma FinalisationLeavesExactly(w: World, t: Turns)
    requires Consistent(w.fleet) && NoInterference(t) && t.delete.reply.Done?
    requires w.pipeline.deleting && w.pipeline.finalizer && !w.pipeline.IsReadOnly()
    ensures LivePipelines(Reconcile(w, t).world) == {} <==>
            forall n | Mine(w, n) :: w.fleet.pipelines[n].id == w.pipeline.status.id
    ensures t.update.Stored? ==> Reconcile(w, t).outcome == Deleted
  {
    NoForeign(w.fleet);
    var v := Reconcile(w, t).world;
    forall n ensures Mine(v, n) <==> Mine(w, n) && w.fleet.pipelines[n].id != w.pipeline.status.id {
      if w.pipeline.status.id == 0 {
        assert v.fleet == w.fleet;
      }
    }
    assert forall n :: n in LivePipelines(v) <==> Mine(v, n);
  }

  /** So over the runs above, finalising a resource with nothing left to record leaves nothing of it in Fleet. */
  lemma FinalisationCleansUp(w: World, es: seq<Event>, t: Turns)
    requires Tracked(w) && Consistent(w.fleet) && AllAlong(Timely, w, es)
    requires var v := ApplyAll(w, es);
             && !v.unrecorded && v.pipeline.deleting && v.pipeline.finalizer && !v.pipeline.IsReadOnly()
    requires NoInterference(t) && t.delete.reply.Done?
    ensures LivePipelines(Reconcile(ApplyAll(w, es), t).world) == {}
  {
    TimelyRunsAreStable(w, es);
    FinalisationLeavesExactly(ApplyAll(w, es), t);
  }

  /** The delete was answered, with success or a 404. */
  predicate Confirmed(reply: Reply) {
    reply.Done? || (reply.Refused? && reply.err == Http(404))
  }

  /** Whatever the delete answers and whoever interferes, finalisation drops the finaliser if and only if its
      update is stored and there was nothing to delete or the delete was confirmed; the id is then gone. */
  lemma FinalisationDropsExactly(w: World, t: Turns)
    requires Consistent(w.fleet) && w.pipeline.deleting && w.pipeline.finalizer
    ensures var v := Reconcile(w, t).world; var id := w.pipeline.status.id;
            && (!v.pipeline.finalizer <==>
                  t.update.Stored? && (w.pipeline.IsReadOnly() || id == 0 || Confirmed(t.delete.reply)))
            && (!v.pipeline.finalizer && !w.pipeline.IsReadOnly() ==>
                  forall n | n in v.fleet.pipelines :: v.fleet.pipelines[n].id != id)
            && (w.pipeline.IsReadOnly() || id == 0 ==> v.fleet == w.fleet && v.calls == w.calls)
            && (Reconcile(w, t).outcome == Deleted <==> !v.pipeline.finalizer)
  {
    ForeignConsistent(w.fleet, t.delete.before);
  }

  /** Any other refusal is reported with the finaliser in place, and retried when it is transient. */
  lemma RefusedDeleteIsReported(w: World, t: Turns)
    requires w.pipeline.deleting && w.pipeline.finalizer && !w.pipeline.IsReadOnly() && w.pipeline.status.id != 0
    requires t.delete.reply.Refused? && t.delete.reply.err != Http(404) && t.statusWrite.Stored?
    ensures var v := Reconcile(w, t);
            && v.outcome == Failed(DeleteFailed, IsTransient(t.delete.reply.err))
            && v.world.pipeline.finalizer && v.world.pipeline.deleting
            && v.world.pipeline.status.ready == Some(Ready(false, DeleteFailed))
            && v.world.pipeline.status.id == w.pipeline.status.id
            && v.world.pipeline.status.syncedName == w.pipeline.status.syncedName
  {}

  /** Over the runs above, a finaliser dropped with nothing left to record leaves nothing of the resource in
      Fleet, whatever the delete answered and whoever interfered. */
  lemma DroppedMeansGone(w: World, es: seq<Event>, t: Turns)
    requires Tracked(w) && Consistent(w.fleet) && AllAlong(Timely, w, es)
    requires var v := ApplyAll(w, es);
             && !v.unrecorded && v.pipeline.deleting && v.pipeline.finalizer && !v.pipeline.IsReadOnly()
    requires !Reconcile(ApplyAll(w, es), t).world.pipeline.finalizer
    ensures LivePipelines(Reconcile(ApplyAll(w, es), t).world) == {}
  {
    TimelyRunsAreStable(w, es);
    var v := ApplyAll(w, es);
    var x := Reconcile(v, t).world;
    FinalisationDropsExactly(v, t);
    DeleteShape(v, t);
    DeletesShrink(v, v.pipeline.status.id, t.delete);
    assert forall n :: Mine(x, n) ==> RecordedIn(v.pipeline.status, v.fleet, n);
    assert forall n :: n in LivePipelines(x) ==> Mine(x, n);
  }

  /** A recreation that was refused but took effect is the other case: it stays in Fleet when the resource is
      deleted with the cleared id. */
  lemma RefusedRecreationOutlivesResource(w: World, t: Turns, last: Turns)
    requires Settled(w) && Consistent(w.fleet) && NoInterference(t) && ClearsId(t)
    requires NoInterference(last) && last.delete.reply.Done? && last.update.Stored?
    ensures var v := Apply(Reconcile(w, t).world, MarkDeleted);
            Reconcile(v, last).outcome == Deleted && w.Desired() in LivePipelines(Reconcile(v, last).world)
  {
    var x := Reconcile(w, t).world;
    LosesTrackExactly(w, t);
    SettledReconcile(w, t);
    ClearedForFinalisation(w, t);
    var v := Apply(x, MarkDeleted);
    assert Reconcile(v, last).world.fleet == x.fleet;
    SameFleetAlone(x, Reconcile(v, last).world, w.Desired(), w.pipeline.status.id);
  }

  lemma ClearedForFinalisation(w: World, t: Turns)
    requires Settled(w) && NoInterference(t) && ClearsId(t)
    ensures var x := Reconcile(w, t).world;
            x.pipeline == w.pipeline.(status := x.pipeline.status) && x.pipeline.status.id == 0
  {
    SettledReconcile(w, t);
    var c, cleared := CallUpsert(w, t.upsert), w.pipeline.status.(id := 0);
    assert c.answer == NotOk(Http(404));
    var r := CallUpsert(c.world, t.recreate);
    assert r.answer == NotOk(t.recreate.reply.err);
    RefusedStatus(r.world, cleared, t.recreate.reply.err, t);
  }
}
