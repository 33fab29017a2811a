/** What every run of one Pipeline keeps: edits, scope changes, foreign Fleet writers, crashes and
    reconciles in any order. */
module PipelineRuns {
  import opened Common
  import opened Pipelines
  import opened FleetStore
  import opened FleetCalls
  import opened PipelineReconcile

  datatype Event =
    | Run(turns: Turns)
    | EditSpec(spec: Spec)
    | EditAnnotations(annotations: Annotations)
    | SetScope(scope: string)
    | MarkDeleted
    | Outside(acts: seq<ForeignAct>)

  /** A spec change bumps the generation; annotations and the cluster-wide scope do not. */
  function Apply(w: World, e: Event): World {
    match e
    case Run(t) => Reconcile(w, t).world
    case EditSpec(s) =>
      var bump := if s == w.pipeline.spec then 0 else 1;
      w.(pipeline := w.pipeline.(spec := s, generation := w.pipeline.generation + bump))
    case EditAnnotations(a) => w.(pipeline := w.pipeline.(annotations := a))
    case SetScope(s) => w.(scope := s)
    case MarkDeleted => w.(pipeline := w.pipeline.(deleting := true))
    case Outside(acts) => w.(fleet := ForeignAll(w.fleet, acts))
  }

  function ApplyAll(w: World, es: seq<Event>): World
    decreases |es|
  {
    if es == [] then w else ApplyAll(Apply(w, es[0]), es[1..])
  }

  /** Every step of the run is taken in a world where `safe` allows it. */
  ghost predicate AllAlong(safe: (World, Event) -> bool, w: World, es: seq<Event>)
    decreases |es|
  {
    es == [] || (safe(w, es[0]) && AllAlong(safe, Apply(w, es[0]), es[1..]))
  }

  // ----- What a call and an error leave alone -----

  /** Only Fleet, the status and the call history differ. */
  ghost predicate SameSubject(w: World, v: World) {
    v.scope == w.scope && v.pipeline == w.pipeline.(status := v.pipeline.status)
  }

  /** Handling an error either calls nothing, or upserts once more because of a 404. */
  lemma HandleApiErrorShape(w: World, mem: Status, err: Err, t: Turns)
    ensures var v := HandleApiError(w, mem, err, t).world;
            && SameSubject(w, v)
            && if err == Http(404) && mem.id != 0
               then v.fleet == CallUpsert(w, t.recreate).world.fleet && v.calls == CallUpsert(w, t.recreate).world.calls
               else v.fleet == w.fleet && v.calls == w.calls
  {
    if err == Http(404) && mem.id != 0 {
      var c := CallUpsert(w, t.recreate);
      if c.answer.NotOk? {
        SecondErrorShape(c.world, mem.(id := 0), c.answer.err, t);
      }
    }
  }

  /** With the id already cleared an error issues no further call. */
  lemma SecondErrorShape(w: World, mem: Status, err: Err, t: Turns)
    requires mem.id == 0
    ensures var v := HandleApiError(w, mem, err, t).world;
            SameSubject(w, v) && v.fleet == w.fleet && v.calls == w.calls
  {}

  lemma MigrateShape(w: World, t: Turns)
    ensures var (m, mem) := MigrateName(w, Backfilled(w.pipeline), t);
            && m.world.pipeline == w.pipeline && m.world.scope == w.scope
            && mem == (if m.answer.Ok? && w.RenamePending(Backfilled(w.pipeline))
                       then Backfilled(w.pipeline).(id := 0) else Backfilled(w.pipeline))
            && (m.answer == NotOk(Http(404)) ==> DryRun404(t))
  {}

  // ----- Consistency of Fleet -----

  lemma CallsKeepConsistent(w: World, id: nat, t: Turn)
    requires Consistent(w.fleet)
    ensures Consistent(CallDryRun(w, t).world.fleet)
    ensures Consistent(CallUpsert(w, t).world.fleet)
    ensures Consistent(CallDelete(w, id, t).world.fleet)
    ensures CallUpsert(w, t).answer.Ok? ==> CallUpsert(w, t).answer.id != 0
  {
    ForeignConsistent(w.fleet, t.before);
  }

  lemma MigrateKeepsConsistent(w: World, t: Turns)
    requires Consistent(w.fleet)
    ensures Consistent(MigrateName(w, Backfilled(w.pipeline), t).0.world.fleet)
  {
    var mem := Backfilled(w.pipeline);
    CallsKeepConsistent(w, 0, t.dryRun);
    CallsKeepConsistent(CallDryRun(w, t.dryRun).world, mem.id, t.delete);
  }

  lemma NormalKeepsConsistent(w: World, t: Turns)
    requires Consistent(w.fleet)
    ensures Consistent(ReconcileNormal(w, Backfilled(w.pipeline), t).world.fleet)
  {
    MigrateKeepsConsistent(w, t);
    var (m, mem) := MigrateName(w, Backfilled(w.pipeline), t);
    match m.answer
    case NoAnswer =>
    case NotOk(err) =>
      CallsKeepConsistent(m.world, 0, t.recreate);
      HandleApiErrorShape(m.world, mem, err, t);
    case Ok(_) =>
      CallsKeepConsistent(m.world, 0, t.upsert);
      var u := CallUpsert(m.world, t.upsert);
      CallsKeepConsistent(u.world, 0, t.recreate);
      if u.answer.NotOk? {
        HandleApiErrorShape(u.world, mem, u.answer.err, t);
      }
  }

  lemma DeleteKeepsConsistent(w: World, t: Turns)
    requires Consistent(w.fleet)
    ensures Consistent(ReconcileDelete(w, t).world.fleet)
  {
    CallsKeepConsistent(w, w.pipeline.status.id, t.delete);
    DeleteShape(w, t);
  }

  /** Finalisation makes the one call or none, and keeps the status' id and name. */
  lemma DeleteShape(w: World, t: Turns)
    ensures var v := ReconcileDelete(w, t).world; var x := CallDelete(w, w.pipeline.status.id, t.delete).world;
            && (v.fleet == x.fleet || v.fleet == w.fleet) && v.scope == w.scope
            && v.pipeline == w.pipeline.(status := v.pipeline.status, finalizer := v.pipeline.finalizer)
            && v.pipeline.status.id == w.pipeline.status.id
            && v.pipeline.status.syncedName == w.pipeline.status.syncedName
  {}

  lemma ReadOnlyFleet(w: World, t: Turns)
    ensures var f := ReconcileReadOnly(w, Backfilled(w.pipeline), t).world.fleet;
            f == w.fleet || f == ForeignAll(w.fleet, t.get.before)
  {}

  lemma RunKeepsConsistent(w: World, t: Turns)
    requires Consistent(w.fleet)
    ensures Consistent(Reconcile(w, t).world.fleet)
  {
    if w.pipeline.deleting {
      DeleteKeepsConsistent(w, t);
    } else if Active(w.pipeline) && !Skips(w) {
      if w.pipeline.IsReadOnly() {
        ReadOnlyFleet(w, t);
        ForeignConsistent(w.fleet, t.get.before);
      } else {
        NormalKeepsConsistent(w, t);
      }
    }
  }

  lemma StepKeepsConsistent(w: World, e: Event)
    requires Consistent(w.fleet)
    ensures Consistent(Apply(w, e).fleet)
  {
    match e
    case Outside(acts) => ForeignConsistent(w.fleet, acts);
    case Run(t) => RunKeepsConsistent(w, t);
    case _ =>
  }

  // ----- At most one live pipeline per resource -----

  predicate Mine(w: World, n: string) {
    Created(w.fleet, w.pipeline.key, n)
  }

  function LivePipelines(w: World): set<string> {
    set n | n in w.fleet.pipelines && Mine(w, n)
  }

  /** Status names this live pipeline, by id and by name. */
  predicate RecordedIn(s: Status, f: Fleet, n: string) {
    n in f.pipelines && f.pipelines[n].id == s.id && s.syncedName == n
  }

  ghost predicate AllRecorded(w: World) {
    forall n | Mine(w, n) :: RecordedIn(w.pipeline.status, w.fleet, n)
  }

  predicate DryRun404(t: Turns) {
    t.dryRun.reply.Refused? && t.dryRun.reply.err == Http(404)
  }

  /** What one step needs to keep at most one live pipeline: the desired name changes only while status
      records every live pipeline created so far, no dry-run answers 404, and a read-only observation does
      not repoint the status away from such a pipeline. */
  ghost predicate NameStable(w: World, e: Event) {
    && (!e.Run? && Apply(w, e).Desired() != w.Desired() ==> AllRecorded(w))
    && (e.Run? ==> !DryRun404(e.turns))
    && (e.Run? && w.pipeline.IsReadOnly() ==> KeepsId(w))
  }

  ghost predicate KeepsId(w: World) {
    (forall n :: !Mine(w, n)) || w.pipeline.ReadOnlyId() == w.pipeline.status.id
  }

  /** Everything created carries the desired name. */
  ghost predicate OnlyDesired(w: World) {
    forall n | Mine(w, n) :: n == w.Desired()
  }

  ghost predicate OneAtMost(w: World) {
    && w.pipeline.key.name != ""
    && (forall m, n | Mine(w, m) && Mine(w, n) :: m == n)
    && (forall n | Mine(w, n) && n != w.Desired() :: n != "" && RecordedIn(w.pipeline.status, w.fleet, n))
  }

  lemma DesiredIsNonEmpty(w: World)
    requires w.pipeline.key.name != ""
    ensures w.Desired() != ""
  {}

  lemma OnlyDesiredIsOneAtMost(w: World)
    requires OnlyDesired(w) && w.pipeline.key.name != ""
    ensures OneAtMost(w)
  {}

  lemma UpsertKeepsOnlyDesired(w: World, t: Turn)
    requires OnlyDesired(w)
    ensures OnlyDesired(CallUpsert(w, t).world)
  {
    ForeignCreatesNothing(w.fleet, t.before, w.pipeline.key);
    var v := CallUpsert(w, t).world;
    assert v.Desired() == w.Desired();
    forall n | Mine(v, n) && n != w.Desired() ensures false {
      assert Mine(w, n);
    }
  }

  /** Status is not part of the name. */
  lemma SameSubjectSameName(w: World, v: World)
    requires SameSubject(w, v)
    ensures v.Desired() == w.Desired() && v.pipeline.key == w.pipeline.key
  {}

  lemma HandleErrorKeepsOnlyDesired(w: World, mem: Status, err: Err, t: Turns)
    requires OnlyDesired(w)
    ensures OnlyDesired(HandleApiError(w, mem, err, t).world)
  {
    HandleApiErrorShape(w, mem, err, t);
    UpsertKeepsOnlyDesired(w, t.recreate);
    SameSubjectSameName(w, HandleApiError(w, mem, err, t).world);
    SameSubjectSameName(w, CallUpsert(w, t.recreate).world);
    assert forall n :: Mine(HandleApiError(w, mem, err, t).world, n) ==>
      Mine(w, n) || Mine(CallUpsert(w, t.recreate).world, n);
  }

  /** Losing created pipelines while status keeps its id and name is harmless. */
  lemma ShrinkingKeepsOneAtMost(w: World, v: World)
    requires OneAtMost(w) && CreatedShrinks(w.fleet, v.fleet, w.pipeline.key)
    requires v.pipeline.key == w.pipeline.key && v.Desired() == w.Desired()
    requires (forall n | Mine(w, n) && n != w.Desired() :: RecordedIn(v.pipeline.status, w.fleet, n))
    ensures OneAtMost(v)
  {
    forall n | Mine(v, n) && n != v.Desired()
      ensures n != "" && RecordedIn(v.pipeline.status, v.fleet, n)
    {
      assert Mine(w, n);
    }
    forall m, n | Mine(v, m) && Mine(v, n) ensures m == n {
      assert Mine(w, m) && Mine(w, n);
    }
  }

  lemma DeletesShrink(w: World, id: nat, t: Turn)
    ensures CreatedShrinks(w.fleet, CallDelete(w, id, t).world.fleet, w.pipeline.key)
    ensures CallDelete(w, id, t).answer.Ok? ==>
              forall n | n in CallDelete(w, id, t).world.fleet.pipelines ::
                CallDelete(w, id, t).world.fleet.pipelines[n].id != id
  {
    ForeignCreatesNothing(w.fleet, t.before, w.pipeline.key);
  }

  /** A finished migration leaves nothing under another name; an unfinished one keeps the record. */
  lemma MigrateKeepsOneAtMost(w: World, t: Turns)
    requires OneAtMost(w) && Consistent(w.fleet)
    ensures var (m, mem) := MigrateName(w, Backfilled(w.pipeline), t);
            && OneAtMost(m.world) && (m.answer.Ok? ==> OnlyDesired(m.world))
  {
    var mem := Backfilled(w.pipeline);
    assert forall n | Mine(w, n) && n != w.Desired() :: mem == w.pipeline.status && w.RenamePending(mem);
    if w.RenamePending(mem) {
      var d := CallDryRun(w, t.dryRun);
      ForeignCreatesNothing(w.fleet, t.dryRun.before, w.pipeline.key);
      ShrinkingKeepsOneAtMost(w, d.world);
      if d.answer.Ok? {
        var x := CallDelete(d.world, mem.id, t.delete);
        DeletesShrink(d.world, mem.id, t.delete);
        ShrinkingKeepsOneAtMost(d.world, x.world);
      }
    }
  }

  /** An error status written before the id is cleared keeps what status recorded. */
  lemma ErrorStatusKeepsOneAtMost(w: World, reason: Reason, err: Err, write: StatusWrite)
    requires OneAtMost(w)
    ensures OneAtMost(UpdateStatusError(w, Backfilled(w.pipeline), reason, err, write).world)
  {
    var v := UpdateStatusError(w, Backfilled(w.pipeline), reason, err, write).world;
    assert forall n | Mine(w, n) && n != w.Desired() :: Backfilled(w.pipeline) == w.pipeline.status;
    ShrinkingKeepsOneAtMost(w, v);
  }

  lemma HandleErrorKeepsOneAtMost(w: World, err: Err, t: Turns)
    requires OneAtMost(w) && err != Http(404)
    ensures OneAtMost(HandleApiError(w, Backfilled(w.pipeline), err, t).world)
  {
    ErrorStatusKeepsOneAtMost(w, ValidationError, err, t.statusWrite);
    ErrorStatusKeepsOneAtMost(w, SyncFailed, err, t.statusWrite);
  }

  lemma NormalKeepsOneAtMost(w: World, t: Turns)
    requires OneAtMost(w) && Consistent(w.fleet) && !DryRun404(t)
    ensures OneAtMost(ReconcileNormal(w, Backfilled(w.pipeline), t).world)
  {
    MigrateKeepsOneAtMost(w, t);
    MigrateShape(w, t);
    var (m, mem) := MigrateName(w, Backfilled(w.pipeline), t);
    match m.answer
    case NoAnswer =>
    case NotOk(err) => HandleErrorKeepsOneAtMost(m.world, err, t);
    case Ok(_) =>
      var u := CallUpsert(m.world, t.upsert);
      UpsertKeepsOnlyDesired(m.world, t.upsert);
      if u.answer.NotOk? {
        HandleErrorKeepsOnlyDesired(u.world, mem, u.answer.err, t);
        HandleApiErrorShape(u.world, mem, u.answer.err, t);
      }
      var v := ReconcileNormal(w, Backfilled(w.pipeline), t).world;
      assert v.pipeline.key == w.pipeline.key && v.Desired() == u.world.Desired();
      if !u.answer.NotOk? {
        assert v.fleet == u.world.fleet;
        assert forall n :: Mine(v, n) <==> Mine(u.world, n);
      }
      OnlyDesiredIsOneAtMost(v);
  }

  lemma ReadOnlyKeepsOneAtMost(w: World, t: Turns)
    requires OneAtMost(w) && KeepsId(w)
    ensures OneAtMost(ReconcileReadOnly(w, Backfilled(w.pipeline), t).world)
  {
    ForeignCreatesNothing(w.fleet, t.get.before, w.pipeline.key);
    var w' := w.(fleet := ForeignAll(w.fleet, t.get.before));
    ShrinkingKeepsOneAtMost(w, w');
    ErrorStatusKeepsOneAtMost(w, ValidationError, Transport, t.statusWrite);
    match t.get.reply
    case Crashed(_) =>
    case Refused(err, _) =>
      ErrorStatusKeepsOneAtMost(w', ValidationError, err, t.statusWrite);
      ErrorStatusKeepsOneAtMost(w', ReadOnly, err, t.statusWrite);
    case Done =>
      if w.pipeline.ReadOnlyId() != 0 {
        var v := ReconcileReadOnly(w, Backfilled(w.pipeline), t).world;
        assert v.fleet == w'.fleet;
        ShrinkingKeepsOneAtMost(w, v);
      }
  }

  lemma DeleteKeepsOneAtMost(w: World, t: Turns)
    requires OneAtMost(w)
    ensures OneAtMost(ReconcileDelete(w, t).world)
  {
    var x := CallDelete(w, w.pipeline.status.id, t.delete).world;
    var v := ReconcileDelete(w, t).world;
    DeletesShrink(w, w.pipeline.status.id, t.delete);
    DeleteShape(w, t);
    assert v.Desired() == w.Desired();
    ShrinkingKeepsOneAtMost(w, v);
  }

  lemma StepKeepsOneAtMost(w: World, e: Event)
    requires OneAtMost(w) && Consistent(w.fleet) && NameStable(w, e)
    ensures OneAtMost(Apply(w, e))
  {
    match e
    case Run(t) =>
      if w.pipeline.deleting {
        DeleteKeepsOneAtMost(w, t);
      } else if !w.pipeline.finalizer {
        var v := Apply(w, e);
        assert v.fleet == w.fleet && v.Desired() == w.Desired();
        ShrinkingKeepsOneAtMost(w, v);
      } else if Active(w.pipeline) && !Skips(w) {
        if w.pipeline.IsReadOnly() {
          ReadOnlyKeepsOneAtMost(w, t);
        } else {
          NormalKeepsOneAtMost(w, t);
        }
      }
    case Outside(acts) =>
      ForeignCreatesNothing(w.fleet, acts, w.pipeline.key);
      ShrinkingKeepsOneAtMost(w, Apply(w, e));
    case _ =>
      var v := Apply(w, e);
      assert v.fleet == w.fleet && forall n :: Mine(v, n) <==> Mine(w, n);
  }

  lemma {:induction false} StableRunsKeepOne(w: World, es: seq<Event>)
    requires OneAtMost(w) && Consistent(w.fleet) && AllAlong(NameStable, w, es)
    ensures |LivePipelines(ApplyAll(w, es))| <= 1
    ensures OneAtMost(ApplyAll(w, es))
    decreases |es|
  {
    if es == [] {
      OneAtMostCounts(w);
    } else {
      StepKeepsOneAtMost(w, es[0]);
      StepKeepsConsistent(w, es[0]);
      StableRunsKeepOne(Apply(w, es[0]), es[1..]);
    }
  }

  lemma OneAtMostCounts(w: World)
    requires OneAtMost(w)
    ensures |LivePipelines(w)| <= 1
  {
    var s := LivePipelines(w);
    if s != {} {
      var n :| n in s;
      assert s == {n};
    }
  }

  /** A resource for which nothing was created yet starts such a run, whatever its status. */
  lemma NothingCreatedYet(w: World)
    requires w.pipeline.key.name != "" && LivePipelines(w) == {}
    ensures OneAtMost(w)
  {
    assert forall n :: Mine(w, n) ==> n in LivePipelines(w);
  }

  ghost predicate NoInterference(t: Turns) {
    && t.dryRun.before == [] && t.delete.before == [] && t.upsert.before == []
    && t.recreate.before == [] && t.get.before == []
  }

  /** The dry-run hypothesis is needed, and exactly so: with a live recorded pipeline and a rename
      pending, one reconcile leaves two live pipelines if and only if the dry-run answers 404 and the
      recreation it triggers takes effect under a name nobody holds. */
  lemma DuplicateExactlyOnDryRun404(w: World, t: Turns, prior: string)
    requires OneAtMost(w) && Consistent(w.fleet) && NoInterference(t)
    requires Active(w.pipeline) && !w.pipeline.IsReadOnly()
    requires Mine(w, prior) && w.Desired() != prior
    ensures |LivePipelines(Reconcile(w, t).world)| <= 1
       <==> !(DryRun404(t) && t.recreate.reply.Applied() && w.Desired() !in w.fleet.pipelines)
  {
    var v := Reconcile(w, t).world;
    var status := w.pipeline.status;
    assert RecordedIn(status, w.fleet, prior);
    if DryRun404(t) {
      var d := CallDryRun(w, t.dryRun);
      assert d.world.fleet == w.fleet;
      assert MigrateName(w, status, t) == (d, status);
      assert v == HandleApiError(d.world, status, Http(404), t).world;
      HandleApiErrorShape(d.world, status, Http(404), t);
      var c := CallUpsert(d.world, t.recreate);
      assert v.fleet == c.world.fleet;
      if t.recreate.reply.Applied() && w.Desired() !in w.fleet.pipelines {
        assert {prior, w.Desired()} <= LivePipelines(v);
        TwoElements(prior, w.Desired(), LivePipelines(v));
      } else {
        assert forall n :: Mine(v, n) ==> Mine(w, n);
        assert LivePipelines(v) <= {prior};
        SubsetOfOne(LivePipelines(v), prior);
      }
    } else {
      assert !Skips(w);
      NormalKeepsOneAtMost(w, t);
      OneAtMostCounts(v);
    }
  }

  lemma TwoElements(a: string, b: string, s: set<string>)
    requires a != b && {a, b} <= s
    ensures |s| >= 2
  {
    assert s == (s - {a, b}) + {a, b};
    assert |{a, b}| == 2;
  }

  lemma SubsetOfOne(s: set<string>, a: string)
    requires s <= {a}
    ensures |s| <= 1
  {
    if s != {} {
      assert s == {a};
    }
  }

  // ----- Call budget -----

  lemma MigrateCalls(w: World, t: Turns)
    ensures var m := MigrateName(w, Backfilled(w.pipeline), t).0;
            && w.calls <= m.world.calls
            && |m.world.calls| <= |w.calls| + (if m.answer.Ok? then 2 else if DryRun404(t) then 1 else 2)
  {}

  lemma NormalCalls(w: World, t: Turns)
    ensures var calls := ReconcileNormal(w, Backfilled(w.pipeline), t).world.calls;
            w.calls <= calls && |w.calls| < |calls| <= |w.calls| + 3
  {
    MigrateCalls(w, t);
    MigrateShape(w, t);
    var (m, mem) := MigrateName(w, Backfilled(w.pipeline), t);
    match m.answer
    case NoAnswer =>
    case NotOk(err) => HandleApiErrorShape(m.world, mem, err, t);
    case Ok(_) =>
      var u := CallUpsert(m.world, t.upsert);
      if u.answer.NotOk? {
        HandleApiErrorShape(u.world, mem, u.answer.err, t);
      }
  }

  /** One reconcile issues at most three upsert and delete calls, the dry-run included. */
  lemma AtMostThreeCalls(w: World, t: Turns)
    ensures w.calls <= Reconcile(w, t).world.calls
    ensures |Reconcile(w, t).world.calls| <= |w.calls| + 3
  {
    if Active(w.pipeline) && !Skips(w) && !w.pipeline.IsReadOnly() {
      NormalCalls(w, t);
    }
  }

  predicate WhileReadOnly(w: World, e: Event) {
    w.pipeline.IsReadOnly()
  }

  /** No step of a run taken while the pipeline is read-only upserts or deletes, finalisation included. */
  lemma {:induction false} ReadOnlyRunIssuesNothing(w: World, es: seq<Event>)
    requires AllAlong(WhileReadOnly, w, es)
    ensures ApplyAll(w, es).calls == w.calls
    decreases |es|
  {
    if es != [] {
      assert Apply(w, es[0]).calls == w.calls;
      ReadOnlyRunIssuesNothing(Apply(w, es[0]), es[1..]);
    }
  }

  // ----- The observed-generation skip -----

  function LastApplied(calls: seq<Call>): Option<Call> {
    if calls == [] then None
    else
      var c := calls[|calls| - 1];
      if !c.DryRun? && c.applied then Some(c) else LastApplied(calls[..|calls| - 1])
  }

  /** The desired name does not change between an applied Fleet write and the status recording it. */
  predicate NameFrozen(w: World, e: Event) {
    w.unrecorded && !e.Run? ==> Apply(w, e).Desired() == w.Desired()
  }

  predicate ReadySynced(s: Status) {
    s.ready == Some(Ready(true, Synced))
  }

  /** Fleet last received, from this pipeline, the current spec under this name. */
  predicate LastWroteCurrent(w: World, name: string) {
    match LastApplied(w.calls)
    case Some(UpsertCall(n, body, applied)) => n == name && applied && Conveys(body, w.pipeline.spec.body)
    case _ => false
  }

  predicate SkipReady(w: World) {
    var p, s := w.pipeline, w.pipeline.status;
    && p.key.name != "" && s.observedGeneration <= p.generation
    && (ReadySynced(s) ==> s.id != 0 && s.syncedName != "")
    && (ReadySynced(s) && s.observedGeneration == p.generation && !p.deleting ==>
          if w.unrecorded then w.Desired() != s.syncedName else LastWroteCurrent(w, s.syncedName))
  }

  lemma UpsertIsLast(w: World, t: Turn)
    requires t.reply.Applied()
    ensures LastWroteCurrent(CallUpsert(w, t).world, w.Desired())
  {
    var calls := CallUpsert(w, t).world.calls;
    assert calls[|calls| - 1] == UpsertCall(w.Desired(), w.pipeline.RequestBody(), true);
  }

  /** Calls of a reconcile that got past the guard leave the stored status behind the desired name,
      or behind the generation, until a success status is stored. */
  ghost predicate Behind(w: World) {
    var s := w.pipeline.status;
    && w.pipeline.key.name != "" && s.observedGeneration <= w.pipeline.generation
    && (ReadySynced(s) ==> s.id != 0 && s.syncedName != "")
    && (ReadySynced(s) && s.observedGeneration == w.pipeline.generation ==> w.Desired() != s.syncedName)
  }

  lemma ErrorStatusIsSkipReady(w: World, mem: Status, reason: Reason, err: Err, write: StatusWrite)
    requires mem.observedGeneration <= w.pipeline.generation
    requires !write.Stored? ==> SkipReady(w)
    requires w.pipeline.key.name != ""
    ensures SkipReady(UpdateStatusError(w, mem, reason, err, write).world)
  {}

  /** Past the guard, an applied call makes the world unrecorded, so Behind is enough. */
  ghost predicate Settling(w0: World, w: World) {
    && w.pipeline == w0.pipeline && w.scope == w0.scope
    && (w.unrecorded || (!w0.unrecorded && LastApplied(w.calls) == LastApplied(w0.calls)))
  }

  lemma SettlingIsSkipReady(w0: World, w: World)
    requires SkipReady(w0) && Behind(w0) && Settling(w0, w)
    ensures SkipReady(w)
  {}

  lemma UnappliedIsInvisible(calls: seq<Call>, c: Call)
    requires c.DryRun? || !c.applied
    ensures LastApplied(calls + [c]) == LastApplied(calls)
  {
    assert (calls + [c])[..|calls|] == calls;
  }

  lemma CallsSettle(w0: World, w: World, id: nat, t: Turn)
    requires Settling(w0, w)
    ensures Settling(w0, CallDryRun(w, t).world)
    ensures Settling(w0, CallUpsert(w, t).world)
    ensures Settling(w0, CallDelete(w, id, t).world)
  {
    UnappliedIsInvisible(w.calls, DryRun(w.Desired(), w.pipeline.RequestBody()));
    UnappliedIsInvisible(w.calls, UpsertCall(w.Desired(), w.pipeline.RequestBody(), false));
    UnappliedIsInvisible(w.calls, DeleteCall(id, false));
  }

  lemma SuccessIsSkipReady(w0: World, w: World, mem: Status, id: nat, write: StatusWrite)
    requires SkipReady(w0) && Behind(w0) && Settling(w0, w)
    requires id != 0 && LastWroteCurrent(w, w.Desired())
    ensures SkipReady(UpdateStatusSuccess(w, mem, id, write).world)
  {
    SettlingIsSkipReady(w0, w);
    DesiredIsNonEmpty(w);
  }

  lemma HandleErrorIsSkipReady(w0: World, w: World, mem: Status, err: Err, t: Turns)
    requires SkipReady(w0) && Behind(w0) && Settling(w0, w) && Consistent(w.fleet)
    requires mem.observedGeneration <= w.pipeline.generation
    ensures SkipReady(HandleApiError(w, mem, err, t).world)
    decreases mem.id
  {
    SettlingIsSkipReady(w0, w);
    if err == Http(404) && mem.id != 0 {
      var c := CallUpsert(w, t.recreate);
      CallsSettle(w0, w, 0, t.recreate);
      SettlingIsSkipReady(w0, c.world);
      CallsKeepConsistent(w, 0, t.recreate);
      match c.answer {
        case Ok(id) =>
          UpsertIsLast(w, t.recreate);
          SuccessIsSkipReady(w0, c.world, mem.(id := 0), id, t.statusWrite);
        case NotOk(again) => HandleErrorIsSkipReady(w0, c.world, mem.(id := 0), again, t);
        case NoAnswer =>
      }
    } else {
      ErrorStatusIsSkipReady(w, mem, ValidationError, err, t.statusWrite);
      ErrorStatusIsSkipReady(w, mem, SyncFailed, err, t.statusWrite);
    }
  }

  lemma MigrateSettles(w: World, t: Turns)
    requires Consistent(w.fleet)
    ensures var (m, mem) := MigrateName(w, Backfilled(w.pipeline), t);
            && Settling(w, m.world) && Consistent(m.world.fleet)
            && mem.observedGeneration == w.pipeline.status.observedGeneration
  {
    var mem := Backfilled(w.pipeline);
    if w.RenamePending(mem) {
      var d := CallDryRun(w, t.dryRun);
      CallsSettle(w, w, 0, t.dryRun);
      CallsKeepConsistent(w, 0, t.dryRun);
      if d.answer.Ok? {
        CallsSettle(w, d.world, mem.id, t.delete);
        CallsKeepConsistent(d.world, mem.id, t.delete);
      }
    }
  }

  lemma ReconcileNormalIsSkipReady(w: World, t: Turns)
    requires SkipReady(w) && Behind(w) && Consistent(w.fleet)
    ensures SkipReady(ReconcileNormal(w, Backfilled(w.pipeline), t).world)
  {
    MigrateSettles(w, t);
    var (m, mem) := MigrateName(w, Backfilled(w.pipeline), t);
    SettlingIsSkipReady(w, m.world);
    match m.answer
    case NoAnswer =>
    case NotOk(err) => HandleErrorIsSkipReady(w, m.world, mem, err, t);
    case Ok(_) =>
      var u := CallUpsert(m.world, t.upsert);
      CallsSettle(w, m.world, 0, t.upsert);
      SettlingIsSkipReady(w, u.world);
      CallsKeepConsistent(m.world, 0, t.upsert);
      match u.answer {
        case Ok(id) =>
          UpsertIsLast(m.world, t.upsert);
          SuccessIsSkipReady(w, u.world, mem, id, t.statusWrite);
        case NotOk(err) => HandleErrorIsSkipReady(w, u.world, mem, err, t);
        case NoAnswer =>
      }
  }

  /** Getting past the guard while writable means the status is behind. */
  lemma NotSkippedIsBehind(w: World)
    requires SkipReady(w) && !w.pipeline.IsReadOnly() && !Skips(w)
    ensures Behind(w)
  {}

  lemma DeleteIsSkipReady(w: World, t: Turns)
    requires SkipReady(w) && w.pipeline.deleting
    ensures SkipReady(ReconcileDelete(w, t).world)
  {
    ErrorStatusIsSkipReady(w, w.pipeline.status, DeleteFailed, Transport, t.statusWrite);
  }

  lemma ReadOnlyIsSkipReady(w: World, t: Turns)
    requires SkipReady(w)
    ensures SkipReady(ReconcileReadOnly(w, Backfilled(w.pipeline), t).world)
  {
    var mem, seen := Backfilled(w.pipeline), w.(fleet := ForeignAll(w.fleet, t.get.before));
    ErrorStatusIsSkipReady(w, mem, ValidationError, Transport, t.statusWrite);
    assert SkipReady(seen);
    match t.get.reply
    case Crashed(_) =>
    case Refused(err, _) =>
      ErrorStatusIsSkipReady(seen, mem, ValidationError, err, t.statusWrite);
      ErrorStatusIsSkipReady(seen, mem, ReadOnly, err, t.statusWrite);
    case Done =>
      var observed := Status(w.pipeline.ReadOnlyId(), mem.syncedName, w.pipeline.generation,
                             Some(Ready(true, ReadOnly)));
      StoredReadOnly(seen, observed, t.statusWrite);
  }

  lemma StoredReadOnly(w: World, s: Status, write: StatusWrite)
    requires SkipReady(w) && !ReadySynced(s) && s.observedGeneration <= w.pipeline.generation
    ensures SkipReady(StoreStatus(w, s, write))
  {}

  lemma RunIsSkipReady(w: World, t: Turns)
    requires SkipReady(w) && Consistent(w.fleet)
    ensures SkipReady(Reconcile(w, t).world)
  {
    if w.pipeline.deleting {
      DeleteIsSkipReady(w, t);
    } else if Active(w.pipeline) && !Skips(w) {
      if w.pipeline.IsReadOnly() {
        ReadOnlyIsSkipReady(w, t);
      } else {
        NotSkippedIsBehind(w);
        ReconcileNormalIsSkipReady(w, t);
      }
    }
  }

  lemma StepKeepsSkipReady(w: World, e: Event)
    requires SkipReady(w) && Consistent(w.fleet) && NameFrozen(w, e)
    ensures SkipReady(Apply(w, e))
  {
    match e
    case Run(t) => RunIsSkipReady(w, t);
    case _ =>
  }

  lemma {:induction false} RunKeepsSkipReady(w: World, es: seq<Event>)
    requires SkipReady(w) && Consistent(w.fleet) && AllAlong(NameFrozen, w, es)
    ensures SkipReady(ApplyAll(w, es))
    decreases |es|
  {
    if es != [] {
      StepKeepsSkipReady(w, es[0]);
      StepKeepsConsistent(w, es[0]);
      RunKeepsSkipReady(Apply(w, es[0]), es[1..]);
    }
  }

  /** When a reconcile is skipped with Ready=True/Synced, the last Fleet write this pipeline made is the
      current generation's spec under the desired name, and nothing was deleted since. */
  lemma SkipIsSound(w: World, es: seq<Event>, t: Turns)
    requires SkipReady(w) && Consistent(w.fleet) && AllAlong(NameFrozen, w, es)
    requires Reconcile(ApplyAll(w, es), t).outcome == Skipped
    requires ReadySynced(ApplyAll(w, es).pipeline.status)
    ensures LastWroteCurrent(ApplyAll(w, es), ApplyAll(w, es).Desired())
  {
    RunKeepsSkipReady(w, es);
    SkippedOutcome(ApplyAll(w, es), t);
  }

  lemma SkippedOutcome(w: World, t: Turns)
    requires Reconcile(w, t).outcome == Skipped
    ensures Active(w.pipeline) && Skips(w)
  {
    if Active(w.pipeline) && !Skips(w) && !w.pipeline.IsReadOnly() {
      var (m, mem) := MigrateName(w, Backfilled(w.pipeline), t);
      if m.answer.NotOk? {
        ErrorIsNotSkip(m.world, mem, m.answer.err, t);
      }
      var u := CallUpsert(m.world, t.upsert);
      if u.answer.NotOk? {
        ErrorIsNotSkip(u.world, mem, u.answer.err, t);
      }
    }
  }

  lemma ErrorIsNotSkip(w: World, mem: Status, err: Err, t: Turns)
    ensures HandleApiError(w, mem, err, t).outcome != Skipped
    ensures HandleApiError(w, mem, err, t).outcome != NoOp
  {}

  /** A never-reconciled resource starts such a run. */
  lemma FreshIsSkipReady(w: World)
    requires w.pipeline.key.name != "" && w.pipeline.status == Status(0, "", 0, None)
    ensures SkipReady(w)
  {}

  // ----- Retryable failures -----

  predicate GenerationGap(w: World) {
    w.pipeline.status.observedGeneration < w.pipeline.generation
  }

  /** The reconcile neither succeeded nor failed for good. */
  predicate Unsettled(o: Outcome) {
    !o.Succeeded? && !o.Recreated? && !o.Observed? && (o.Failed? ==> o.retryable)
  }

  predicate LeavesUnobserved(w: World, e: Event) {
    e.Run? ==> Unsettled(Reconcile(w, e.turns).outcome)
  }

  lemma ErrorKeepsGap(w: World, mem: Status, err: Err, t: Turns)
    requires GenerationGap(w) && mem.observedGeneration < w.pipeline.generation
    requires Unsettled(HandleApiError(w, mem, err, t).outcome)
    ensures GenerationGap(HandleApiError(w, mem, err, t).world)
    decreases mem.id
  {
    if err == Http(404) && mem.id != 0 {
      var c := CallUpsert(w, t.recreate);
      if c.answer.NotOk? {
        ErrorKeepsGap(c.world, mem.(id := 0), c.answer.err, t);
      }
    }
  }

  lemma NormalKeepsGap(w: World, t: Turns)
    requires GenerationGap(w) && Unsettled(ReconcileNormal(w, Backfilled(w.pipeline), t).outcome)
    ensures GenerationGap(ReconcileNormal(w, Backfilled(w.pipeline), t).world)
  {
    MigrateShape(w, t);
    var (m, mem) := MigrateName(w, Backfilled(w.pipeline), t);
    match m.answer
    case NoAnswer =>
    case NotOk(err) => ErrorKeepsGap(m.world, mem, err, t);
    case Ok(_) =>
      var u := CallUpsert(m.world, t.upsert);
      if u.answer.NotOk? {
        ErrorKeepsGap(u.world, mem, u.answer.err, t);
      }
  }

  /** An unsettled reconcile leaves the gap open. */
  lemma UnsettledKeepsGap(w: World, t: Turns)
    requires GenerationGap(w) && Unsettled(Reconcile(w, t).outcome)
    ensures GenerationGap(Reconcile(w, t).world)
  {
    if Active(w.pipeline) && !Skips(w) && !w.pipeline.IsReadOnly() {
      NormalKeepsGap(w, t);
    }
  }

  lemma {:induction false} RunKeepsGap(w: World, es: seq<Event>)
    requires GenerationGap(w) && AllAlong(LeavesUnobserved, w, es)
    ensures GenerationGap(ApplyAll(w, es))
    decreases |es|
  {
    if es != [] {
      if es[0].Run? {
        UnsettledKeepsGap(w, es[0].turns);
      }
      RunKeepsGap(Apply(w, es[0]), es[1..]);
    }
  }

  /** So whatever is edited and however many more reconciles fail to settle, the next one is not skipped:
      it calls Fleet. */
  lemma {:induction false} RetryableFailureIsRetried(w: World, t: Turns, reason: Reason, es: seq<Event>, next: Turns)
    requires GenerationGap(w) && Reconcile(w, t).outcome == Failed(reason, true)
    requires AllAlong(LeavesUnobserved, Reconcile(w, t).world, es)
    ensures var v := ApplyAll(Reconcile(w, t).world, es);
            && Reconcile(v, next).outcome != Skipped
            && (Active(v.pipeline) && !v.pipeline.IsReadOnly() ==> |Reconcile(v, next).world.calls| > |v.calls|)
  {
    UnsettledKeepsGap(w, t);
    RunKeepsGap(Reconcile(w, t).world, es);
    var v := ApplyAll(Reconcile(w, t).world, es);
    if Reconcile(v, next).outcome == Skipped {
      SkippedOutcome(v, next);
    }
    if Active(v.pipeline) && !v.pipeline.IsReadOnly() {
      NormalCalls(v, next);
    }
  }

  // ----- Retryable failures at an observed generation -----

  /** With a rename pending: the dry-run answered 404, or it passed and the old pipeline was deleted. */
  predicate MigrationClearsId(t: Turns) {
    var gone := t.delete.reply.Refused? && t.delete.reply.err == Http(404);
    DryRun404(t) || (t.dryRun.reply.Done? && (t.delete.reply.Done? || gone))
  }

  /** A retryable failure of this reconcile is its last attempt. */
  predicate GivesUp(w: World, t: Turns) {
    && Active(w.pipeline) && t.statusWrite.Stored?
    && w.pipeline.status.observedGeneration == w.pipeline.generation
    && if w.pipeline.IsReadOnly() then w.pipeline.status.id in [0, w.pipeline.ReadOnlyId()]
       else w.RenamePending(Backfilled(w.pipeline)) ==> MigrationClearsId(t)
  }

  /** The status a retryable failure leaves in memory: the id kept or cleared, the generation as it was. */
  ghost predicate FailedStatus(w: World, v: World, mem: Status, cleared: bool, reason: Reason, write: StatusWrite) {
    && SameSubject(w, v)
    && v.pipeline.status == if !write.Stored? then w.pipeline.status
                            else mem.(id := if cleared then 0 else mem.id, ready := Some(Ready(false, reason)))
  }

  lemma RetryableErrorShape(w: World, mem: Status, err: Err, t: Turns, reason: Reason)
    requires HandleApiError(w, mem, err, t).outcome == Failed(reason, true)
    ensures reason == SyncFailed
    ensures FailedStatus(w, HandleApiError(w, mem, err, t).world, mem, err == Http(404), reason, t.statusWrite)
    decreases mem.id
  {
    if err == Http(404) && mem.id != 0 {
      var c := CallUpsert(w, t.recreate);
      if c.answer.NotOk? {
        RetryableErrorShape(c.world, mem.(id := 0), c.answer.err, t, reason);
      }
    }
  }

  lemma MigrateClearsId(w: World, t: Turns)
    requires w.RenamePending(Backfilled(w.pipeline))
    ensures var m := MigrateName(w, Backfilled(w.pipeline), t).0;
            && (m.answer.Ok? ==> MigrationClearsId(t))
            && (m.answer.NotOk? ==> (m.answer.err == Http(404) <==> MigrationClearsId(t)))
  {}

  lemma RetryableNormalShape(w: World, t: Turns, reason: Reason)
    requires ReconcileNormal(w, Backfilled(w.pipeline), t).outcome == Failed(reason, true)
    ensures var mem := Backfilled(w.pipeline); var v := ReconcileNormal(w, mem, t).world;
            && reason == SyncFailed
            && exists cleared :: FailedStatus(w, v, mem, cleared, reason, t.statusWrite)
                                 && (w.RenamePending(mem) ==> cleared == MigrationClearsId(t))
  {
    var mem := Backfilled(w.pipeline);
    MigrateShape(w, t);
    var (m, mem') := MigrateName(w, mem, t);
    var v := ReconcileNormal(w, mem, t).world;
    var cleared: bool;
    if w.RenamePending(mem) {
      MigrateClearsId(w, t);
    }
    match m.answer {
      case NoAnswer =>
      case NotOk(err) =>
        RetryableErrorShape(m.world, mem', err, t, reason);
        cleared := err == Http(404);
      case Ok(_) =>
        var u := CallUpsert(m.world, t.upsert);
        if u.answer.NotOk? {
          RetryableErrorShape(u.world, mem', u.answer.err, t, reason);
          cleared := w.RenamePending(mem) || u.answer.err == Http(404);
        }
    }
    assert FailedStatus(w, v, mem, cleared, reason, t.statusWrite);
  }

  lemma SkippedExactly(w: World, t: Turns)
    ensures Reconcile(w, t).outcome == Skipped <==> Active(w.pipeline) && Skips(w)
  {
    if Reconcile(w, t).outcome == Skipped {
      SkippedOutcome(w, t);
    }
  }

  lemma WritableFailureSkips(w: World, v: World, cleared: bool, t: Turns)
    requires Active(w.pipeline) && !w.pipeline.IsReadOnly() && !Skips(w)
    requires FailedStatus(w, v, Backfilled(w.pipeline), cleared, SyncFailed, t.statusWrite)
    requires w.RenamePending(Backfilled(w.pipeline)) ==> cleared == MigrationClearsId(t)
    ensures Active(v.pipeline) && Skips(v) <==> GivesUp(w, t)
  {
    SameSubjectSameName(w, v);
  }

  lemma ReadOnlyFailureSkips(w: World, t: Turns, reason: Reason)
    requires Active(w.pipeline) && w.pipeline.IsReadOnly() && !Skips(w)
    requires ReconcileReadOnly(w, Backfilled(w.pipeline), t).outcome == Failed(reason, true)
    ensures var v := ReconcileReadOnly(w, Backfilled(w.pipeline), t).world;
            Active(v.pipeline) && Skips(v) <==> GivesUp(w, t)
  {}

  /** A retryable failure is not retried if and only if its status was stored at an already observed
      generation and either the pipeline is read-only, or no rename was pending, or it lost the recorded id. */
  lemma RetryAbandonedExactly(w: World, t: Turns, reason: Reason, next: Turns)
    requires Reconcile(w, t).outcome == Failed(reason, true)
    ensures Reconcile(Reconcile(w, t).world, next).outcome == Skipped <==> GivesUp(w, t)
  {
    var v := Reconcile(w, t).world;
    SkippedExactly(v, next);
    if w.pipeline.deleting {
      DeleteShape(w, t);
    } else if w.pipeline.IsReadOnly() {
      ReadOnlyFailureSkips(w, t, reason);
    } else {
      RetryableNormalShape(w, t, reason);
      var cleared :| FailedStatus(w, v, Backfilled(w.pipeline), cleared, reason, t.statusWrite)
                     && (w.RenamePending(Backfilled(w.pipeline)) ==> cleared == MigrationClearsId(t));
      WritableFailureSkips(w, v, cleared, t);
    }
  }

  /** Such an input: the pipeline was observed read-only and becomes writable by its annotation, which does
      not bump the generation. The upsert fails once, and no later reconcile tries again. */
  lemma LeavingReadOnlyIsNotRetried(w: World, t: Turns)
    requires Active(w.pipeline) && w.pipeline.IsReadOnly() && w.pipeline.status.id == w.pipeline.ReadOnlyId() != 0
    requires w.pipeline.status.observedGeneration == w.pipeline.generation
    requires w.pipeline.status.ready == Some(Ready(true, ReadOnly))
    requires var x := Apply(w, EditAnnotations(w.pipeline.annotations.(importMode := None)));
             !x.pipeline.IsReadOnly() && !x.RenamePending(Backfilled(x.pipeline))
    requires t.upsert == Turn([], Refused(Http(503), false)) && t.statusWrite.Stored?
    ensures var x := Apply(w, EditAnnotations(w.pipeline.annotations.(importMode := None)));
            var v := Reconcile(x, t).world;
            && Reconcile(x, t).outcome == Failed(SyncFailed, true) && v.fleet == w.fleet
            && forall next :: Reconcile(v, next) == Ended(v, Skipped)
  {
    var x := Apply(w, EditAnnotations(w.pipeline.annotations.(importMode := None)));
    assert !Skips(x) && Reconcile(x, t) == ReconcileNormal(x, Backfilled(x.pipeline), t);
    var v := Reconcile(x, t).world;
    forall next ensures Reconcile(v, next) == Ended(v, Skipped) {
      RetryAbandonedExactly(x, t, SyncFailed, next);
      SkippedExactly(v, next);
    }
  }
}
