/** Many pipelines of one namespace-scoped cluster over one shared Fleet. */
module PipelineTenancy {
  import opened Common
  import opened Pipelines
  import opened FleetStore
  import opened FleetCalls
  import opened PipelineReconcile
  import opened PipelineRuns

  datatype Cluster = Cluster(fleet: Fleet, pipelines: map<Key, Pipeline>)

  datatype Event =
    | Reconciled(key: Key, turns: Turns)
    | Edited(key: Key, pipeline: Pipeline)
    | Others(acts: seq<ForeignAct>)

  function WorldOf(c: Cluster, k: Key): World
    requires k in c.pipelines
  {
    World(c.fleet, c.pipelines[k], SCOPE_NAMESPACE, [], false)
  }

  function ApplyEvent(c: Cluster, e: Event): Cluster {
    match e
    case Reconciled(k, t) =>
      if k !in c.pipelines then c
      else
        var v := Reconcile(WorldOf(c, k), t).world;
        Cluster(v.fleet, c.pipelines[k := v.pipeline])
    case Edited(k, p) => c.(pipelines := c.pipelines[k := p])
    case Others(acts) => c.(fleet := ForeignAll(c.fleet, acts))
  }

  function ApplyEvents(c: Cluster, es: seq<Event>): Cluster
    decreases |es|
  {
    if es == [] then c else ApplyEvents(ApplyEvent(c, es[0]), es[1..])
  }

  /** A tenant is scoped for the whole run; a guarded pipeline is scoped or an admitted opt-out. Both
      stay writable. Pipelines without a role may be anything. */
  datatype Role = Tenant | Guarded

  ghost predicate Plays(p: Pipeline, role: Role) {
    && !p.IsReadOnly()
    && match role
       case Tenant => Scoped(p, SCOPE_NAMESPACE)
       case Guarded => Scoped(p, SCOPE_NAMESPACE) || OptedOut(p, SCOPE_NAMESPACE)
  }

  /** A name this role may leave in status. */
  ghost predicate AtHome(role: Role, namespace: string, name: string) {
    match role
    case Tenant => InTerritory(namespace, name)
    case Guarded => forall ns | IsLabel(ns) && ns != namespace :: !InTerritory(ns, name)
  }

  /** The recorded id, if any, belongs to the recorded name only, and that name is at home. */
  ghost predicate Recorded(f: Fleet, p: Pipeline, role: Role) {
    p.status.id != 0 ==>
      && p.status.id < f.nextId && IdOnlyNames(f, p.status.id, p.status.syncedName)
      && p.status.syncedName != "" && AtHome(role, p.key.namespace, p.status.syncedName)
  }

  ghost predicate Housed(c: Cluster, roles: map<Key, Role>) {
    && Consistent(c.fleet)
    && forall k | k in roles ::
         && k in c.pipelines && c.pipelines[k].key == k && IsLabel(k.namespace) && k.name != ""
         && Plays(c.pipelines[k], roles[k]) && Recorded(c.fleet, c.pipelines[k], roles[k])
  }

  /** Users edit specs and annotations, not status, and a pipeline with a role keeps it. */
  ghost predicate Admissible(c: Cluster, roles: map<Key, Role>, e: Event) {
    e.Edited? && e.key in roles ==>
      && e.key in c.pipelines && e.pipeline.key == e.key && e.pipeline.status == c.pipelines[e.key].status
      && Plays(e.pipeline, roles[e.key])
  }

  ghost predicate AdmissibleRun(c: Cluster, roles: map<Key, Role>, es: seq<Event>)
    decreases |es|
  {
    es == [] || (Admissible(c, roles, es[0]) && AdmissibleRun(ApplyEvent(c, es[0]), roles, es[1..]))
  }

  // ----- Ids never move to another name -----

  ghost predicate Evolves(f: Fleet, g: Fleet) {
    && f.nextId <= g.nextId
    && forall n | n in g.pipelines && g.pipelines[n].id < f.nextId ::
         n in f.pipelines && f.pipelines[n].id == g.pipelines[n].id
  }

  lemma EvolvesTransitive(f: Fleet, g: Fleet, h: Fleet)
    requires Evolves(f, g) && Evolves(g, h)
    ensures Evolves(f, h)
  {}

  lemma {:induction false} ForeignEvolves(f: Fleet, acts: seq<ForeignAct>)
    ensures Evolves(f, ForeignAll(f, acts))
  {
    if acts != [] {
      ForeignEvolves(f, acts[..|acts| - 1]);
      EvolvesTransitive(f, ForeignAll(f, acts[..|acts| - 1]), ForeignAll(f, acts));
    }
  }

  lemma CallsEvolve(w: World, id: nat, t: Turn)
    ensures Evolves(w.fleet, CallDryRun(w, t).world.fleet)
    ensures Evolves(w.fleet, CallUpsert(w, t).world.fleet)
    ensures Evolves(w.fleet, CallDelete(w, id, t).world.fleet)
  {
    ForeignEvolves(w.fleet, t.before);
    var seen := ForeignAll(w.fleet, t.before);
    EvolvesTransitive(w.fleet, seen, CallUpsert(w, t).world.fleet);
    EvolvesTransitive(w.fleet, seen, CallDelete(w, id, t).world.fleet);
  }

  lemma MigrateEvolves(w: World, t: Turns)
    ensures Evolves(w.fleet, MigrateName(w, Backfilled(w.pipeline), t).0.world.fleet)
  {
    var mem := Backfilled(w.pipeline);
    var d := CallDryRun(w, t.dryRun).world;
    CallsEvolve(w, 0, t.dryRun);
    CallsEvolve(d, mem.id, t.delete);
    EvolvesTransitive(w.fleet, d.fleet, CallDelete(d, mem.id, t.delete).world.fleet);
  }

  lemma NormalEvolves(w: World, t: Turns)
    ensures Evolves(w.fleet, ReconcileNormal(w, Backfilled(w.pipeline), t).world.fleet)
  {
    MigrateEvolves(w, t);
    var (m, mem) := MigrateName(w, Backfilled(w.pipeline), t);
    var v := ReconcileNormal(w, Backfilled(w.pipeline), t).world;
    match m.answer
    case NoAnswer =>
    case NotOk(err) =>
      HandleApiErrorShape(m.world, mem, err, t);
      CallsEvolve(m.world, 0, t.recreate);
      EvolvesTransitive(w.fleet, m.world.fleet, v.fleet);
    case Ok(_) =>
      var u := CallUpsert(m.world, t.upsert);
      CallsEvolve(m.world, 0, t.upsert);
      EvolvesTransitive(w.fleet, m.world.fleet, u.world.fleet);
      if u.answer.NotOk? {
        HandleApiErrorShape(u.world, mem, u.answer.err, t);
        CallsEvolve(u.world, 0, t.recreate);
        EvolvesTransitive(w.fleet, u.world.fleet, v.fleet);
      }
  }

  lemma ReconcileEvolves(w: World, t: Turns)
    ensures Evolves(w.fleet, Reconcile(w, t).world.fleet)
  {
    if w.pipeline.deleting {
      CallsEvolve(w, w.pipeline.status.id, t.delete);
    } else if Active(w.pipeline) && !Skips(w) {
      if w.pipeline.IsReadOnly() {
        ForeignEvolves(w.fleet, t.get.before);
      } else {
        NormalEvolves(w, t);
      }
    }
  }

  // ----- What a reconcile leaves in status -----

  /** The stored id was there before, or is clear, or names the entry now held under the desired name. */
  predicate StatusFollows(w: World, v: World) {
    var s := v.pipeline.status;
    || s.id == 0
    || (s.id == w.pipeline.status.id
        && s.syncedName in [w.pipeline.status.syncedName, Backfilled(w.pipeline).syncedName])
    || (s.syncedName == w.Desired() && w.Desired() in v.fleet.pipelines && v.fleet.pipelines[w.Desired()].id == s.id)
  }

  lemma HandleErrorFollows(w0: World, w: World, mem: Status, err: Err, t: Turns)
    requires SameSubject(w0, w) && w.pipeline == w0.pipeline
    requires mem.id == 0 || mem == Backfilled(w0.pipeline)
    ensures StatusFollows(w0, HandleApiError(w, mem, err, t).world)
    decreases mem.id
  {
    if err == Http(404) && mem.id != 0 {
      var c := CallUpsert(w, t.recreate);
      if c.answer.NotOk? {
        HandleErrorFollows(w0, c.world, mem.(id := 0), c.answer.err, t);
      }
    }
  }

  lemma NormalFollows(w: World, t: Turns)
    ensures StatusFollows(w, ReconcileNormal(w, Backfilled(w.pipeline), t).world)
  {
    MigrateShape(w, t);
    var (m, mem) := MigrateName(w, Backfilled(w.pipeline), t);
    match m.answer
    case NoAnswer =>
    case NotOk(err) => HandleErrorFollows(w, m.world, mem, err, t);
    case Ok(_) =>
      var u := CallUpsert(m.world, t.upsert);
      if u.answer.NotOk? {
        HandleErrorFollows(w, u.world, mem, u.answer.err, t);
      }
  }

  lemma ReconcileFollows(w: World, t: Turns)
    requires !w.pipeline.IsReadOnly()
    ensures StatusFollows(w, Reconcile(w, t).world)
    ensures Reconcile(w, t).world.pipeline.key == w.pipeline.key
    ensures Reconcile(w, t).world.pipeline.spec == w.pipeline.spec
    ensures Reconcile(w, t).world.pipeline.annotations == w.pipeline.annotations
  {
    if w.pipeline.deleting {
    } else if Active(w.pipeline) && !Skips(w) {
      NormalFollows(w, t);
      MigrateShape(w, t);
      var (m, mem) := MigrateName(w, Backfilled(w.pipeline), t);
      if m.answer.NotOk? {
        HandleApiErrorShape(m.world, mem, m.answer.err, t);
      }
      var u := CallUpsert(m.world, t.upsert);
      if u.answer.NotOk? {
        HandleApiErrorShape(u.world, mem, u.answer.err, t);
      }
    }
  }

  // ----- Housing is invariant -----

  lemma EvolutionKeepsRecorded(f: Fleet, g: Fleet, p: Pipeline, role: Role)
    requires Evolves(f, g) && Recorded(f, p, role)
    ensures Recorded(g, p, role)
  {}

  lemma DesiredAtHome(p: Pipeline, role: Role)
    requires Plays(p, role) && IsLabel(p.key.namespace) && p.key.name != ""
    ensures AtHome(role, p.key.namespace, p.DesiredFleetName(SCOPE_NAMESPACE))
    ensures p.DesiredFleetName(SCOPE_NAMESPACE) != ""
  {
    var name := p.DesiredFleetName(SCOPE_NAMESPACE);
    forall ns | IsLabel(ns) && ns != p.key.namespace ensures !InTerritory(ns, name) {
      if InTerritory(ns, name) {
        if Scoped(p, SCOPE_NAMESPACE) {
          assert InTerritory(p.key.namespace, name);
          TerritoriesDisjoint(ns, p.key.namespace, name);
        } else {
          ReservedPrefixMeansTerritory(p.spec.name);
        }
      }
    }
  }

  lemma OwnReconcileKeepsRecorded(w: World, t: Turns, role: Role)
    requires Consistent(w.fleet) && w.scope == SCOPE_NAMESPACE
    requires Plays(w.pipeline, role) && IsLabel(w.pipeline.key.namespace) && w.pipeline.key.name != ""
    requires Recorded(w.fleet, w.pipeline, role)
    ensures Plays(Reconcile(w, t).world.pipeline, role)
    ensures Recorded(Reconcile(w, t).world.fleet, Reconcile(w, t).world.pipeline, role)
  {
    var v := Reconcile(w, t).world;
    ReconcileEvolves(w, t);
    ReconcileFollows(w, t);
    EvolutionKeepsRecorded(w.fleet, v.fleet, w.pipeline, role);
    DesiredAtHome(w.pipeline, role);
    StepKeepsConsistent(w, Run(t));
    assert v.fleet == Apply(w, Run(t)).fleet;
  }

  lemma EventKeepsHoused(c: Cluster, roles: map<Key, Role>, e: Event)
    requires Housed(c, roles) && Admissible(c, roles, e)
    ensures Housed(ApplyEvent(c, e), roles)
  {
    var d := ApplyEvent(c, e);
    match e
    case Edited(_, _) =>
    case Others(acts) =>
      ForeignConsistent(c.fleet, acts);
      ForeignEvolves(c.fleet, acts);
      forall k | k in roles ensures Recorded(d.fleet, d.pipelines[k], roles[k]) {
        EvolutionKeepsRecorded(c.fleet, d.fleet, c.pipelines[k], roles[k]);
      }
    case Reconciled(key, t) =>
      if key in c.pipelines {
        var w := WorldOf(c, key);
        StepKeepsConsistent(w, Run(t));
        assert d.fleet == Apply(w, Run(t)).fleet;
        ReconcileEvolves(w, t);
        forall k | k in roles
          ensures Plays(d.pipelines[k], roles[k]) && Recorded(d.fleet, d.pipelines[k], roles[k])
          ensures d.pipelines[k].key == k
        {
          if k == key {
            OwnReconcileKeepsRecorded(w, t, roles[k]);
            ReconcileFollows(w, t);
          } else {
            EvolutionKeepsRecorded(c.fleet, d.fleet, c.pipelines[k], roles[k]);
          }
        }
      }
  }

  lemma {:induction false} RunKeepsHoused(c: Cluster, roles: map<Key, Role>, es: seq<Event>)
    requires Housed(c, roles) && AdmissibleRun(c, roles, es)
    ensures Housed(ApplyEvents(c, es), roles)
    decreases |es|
  {
    if es != [] {
      EventKeepsHoused(c, roles, es[0]);
      RunKeepsHoused(ApplyEvent(c, es[0]), roles, es[1..]);
    }
  }

  // ----- A reconcile stays at home -----

  predicate SameAt(f: Fleet, g: Fleet, n: string) {
    && (n in f.pipelines <==> n in g.pipelines)
    && (n in f.pipelines ==> f.pipelines[n] == g.pipelines[n])
  }

  ghost predicate LocalTo(role: Role, namespace: string, f: Fleet, g: Fleet) {
    forall n | !AtHome(role, namespace, n) :: SameAt(f, g, n)
  }

  lemma UpsertIsLocal(w: World, t: Turn, role: Role, namespace: string)
    requires t.before == [] && AtHome(role, namespace, w.Desired())
    ensures LocalTo(role, namespace, w.fleet, CallUpsert(w, t).world.fleet)
  {}

  lemma DeleteIsLocal(w: World, id: nat, t: Turn, role: Role, namespace: string, name: string)
    requires t.before == [] && IdOnlyNames(w.fleet, id, name) && AtHome(role, namespace, name)
    ensures LocalTo(role, namespace, w.fleet, CallDelete(w, id, t).world.fleet)
  {}

  lemma NormalIsLocal(w: World, t: Turns, role: Role)
    requires NoInterference(t) && Recorded(w.fleet, w.pipeline, role)
    requires AtHome(role, w.pipeline.key.namespace, w.Desired())
    ensures LocalTo(role, w.pipeline.key.namespace, w.fleet,
                    ReconcileNormal(w, Backfilled(w.pipeline), t).world.fleet)
  {
    var ns, mem := w.pipeline.key.namespace, Backfilled(w.pipeline);
    MigrateShape(w, t);
    var (m, mem') := MigrateName(w, mem, t);
    if w.RenamePending(mem) {
      DeleteIsLocal(CallDryRun(w, t.dryRun).world, mem.id, t.delete, role, ns, mem.syncedName);
    }
    assert LocalTo(role, ns, w.fleet, m.world.fleet);
    assert m.world.Desired() == w.Desired();
    match m.answer
    case NoAnswer =>
    case NotOk(err) =>
      HandleApiErrorShape(m.world, mem', err, t);
      UpsertIsLocal(m.world, t.recreate, role, ns);
    case Ok(_) =>
      var u := CallUpsert(m.world, t.upsert);
      UpsertIsLocal(m.world, t.upsert, role, ns);
      if u.answer.NotOk? {
        HandleApiErrorShape(u.world, mem', u.answer.err, t);
        UpsertIsLocal(u.world, t.recreate, role, ns);
      }
  }

  lemma ReconcileIsLocal(w: World, t: Turns, role: Role)
    requires NoInterference(t) && !w.pipeline.IsReadOnly() && Recorded(w.fleet, w.pipeline, role)
    requires AtHome(role, w.pipeline.key.namespace, w.Desired())
    ensures LocalTo(role, w.pipeline.key.namespace, w.fleet, Reconcile(w, t).world.fleet)
  {
    if w.pipeline.deleting {
      if w.pipeline.status.id != 0 {
        var s := w.pipeline.status;
        DeleteIsLocal(w, s.id, t.delete, role, w.pipeline.key.namespace, s.syncedName);
      }
    } else if Active(w.pipeline) && !Skips(w) {
      NormalIsLocal(w, t, role);
    }
  }

  lemma TenantReconcileIsLocal(w: World, t: Turns)
    requires NoInterference(t) && w.scope == SCOPE_NAMESPACE
    requires Plays(w.pipeline, Tenant) && Recorded(w.fleet, w.pipeline, Tenant)
    ensures forall n | !InTerritory(w.pipeline.key.namespace, n) :: SameAt(w.fleet, Reconcile(w, t).world.fleet, n)
  {
    ReconcileIsLocal(w, t, Tenant);
    assert forall n :: AtHome(Tenant, w.pipeline.key.namespace, n) == InTerritory(w.pipeline.key.namespace, n);
  }

  /** Over every run of a namespace-scoped cluster, with edits, other Fleet writers, crashes and any other
      pipelines in between, reconciling or finalising a tenant or a guarded opt-out touches nothing that
      lies in another namespace's territory. */
  lemma ForeignTerritoryUntouched(c0: Cluster, roles: map<Key, Role>, es: seq<Event>, k: Key, t: Turns,
                                  namespace: string, n: string)
    requires Housed(c0, roles) && AdmissibleRun(c0, roles, es)
    requires k in roles && NoInterference(t)
    requires IsLabel(namespace) && namespace != k.namespace && InTerritory(namespace, n)
    ensures var c := ApplyEvents(c0, es);
            SameAt(c.fleet, ApplyEvent(c, Reconciled(k, t)).fleet, n)
  {
    RunKeepsHoused(c0, roles, es);
    var c := ApplyEvents(c0, es);
    DesiredAtHome(c.pipelines[k], roles[k]);
    ReconcileIsLocal(WorldOf(c, k), t, roles[k]);
    if AtHome(roles[k], k.namespace, n) && roles[k].Tenant? {
      TerritoriesDisjoint(namespace, k.namespace, n);
    }
  }

  /** Over every run of a namespace-scoped cluster, with edits, other Fleet writers, crashes and any
      other pipelines in between, reconciling or finalising a tenant neither overwrites nor deletes
      another namespace's Fleet pipeline: not the one under a desired name, for any scoped or admitted
      opted-out pipeline, and not the one a guarded pipeline's status records, by name or by id. */
  lemma TenantsNeverCollide(c0: Cluster, roles: map<Key, Role>, es: seq<Event>, k: Key, t: Turns, other: Key)
    requires Housed(c0, roles) && AdmissibleRun(c0, roles, es)
    requires k in roles && roles[k] == Tenant && NoInterference(t)
    requires other in ApplyEvents(c0, es).pipelines && other.namespace != k.namespace && IsLabel(other.namespace)
    requires ApplyEvents(c0, es).pipelines[other].key == other
    ensures var c := ApplyEvents(c0, es);
            var d := ApplyEvent(c, Reconciled(k, t));
            var q := c.pipelines[other];
            && (Scoped(q, SCOPE_NAMESPACE) || OptedOut(q, SCOPE_NAMESPACE) ==>
                  SameAt(c.fleet, d.fleet, q.DesiredFleetName(SCOPE_NAMESPACE)))
            && (other in roles && q.status.id != 0 ==>
                  && SameAt(c.fleet, d.fleet, q.status.syncedName)
                  && forall n | n in c.fleet.pipelines && c.fleet.pipelines[n].id == q.status.id ::
                       SameAt(c.fleet, d.fleet, n))
  {
    RunKeepsHoused(c0, roles, es);
    var c := ApplyEvents(c0, es);
    var q := c.pipelines[other];
    TenantReconcileIsLocal(WorldOf(c, k), t);
    if Scoped(q, SCOPE_NAMESPACE) || OptedOut(q, SCOPE_NAMESPACE) {
      ScopedNameIsPrivate(c.pipelines[k], q);
    }
    if other in roles && q.status.id != 0 {
      if InTerritory(k.namespace, q.status.syncedName) && roles[other].Tenant? {
        TerritoriesDisjoint(k.namespace, other.namespace, q.status.syncedName);
      }
    }
  }

  /** A cluster whose pipelines were never reconciled starts such a run. */
  lemma FreshClusterIsHoused(c: Cluster, roles: map<Key, Role>)
    requires Consistent(c.fleet)
    requires forall k | k in roles ::
               && k in c.pipelines && c.pipelines[k].key == k && IsLabel(k.namespace) && k.name != ""
               && Plays(c.pipelines[k], roles[k]) && c.pipelines[k].status == Status(0, "", 0, None)
    ensures Housed(c, roles)
  {}
}
