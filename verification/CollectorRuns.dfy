/** Whole runs of one Collector: reconciles, changing layers, foreign writers and lost status writes in any
    order. */
module CollectorRuns {
  import opened Common
  import opened Strings
  import opened Sorting
  import opened JsonPointer
  import opened AttributeDiff
  import opened AttributeMerge
  import opened SelectorMatch
  import opened CollectorLayers
  import opened FleetCalls
  import opened CollectorReconcile

  datatype Event =
    | Run(turns: Turns)
    | SetInputs(inputs: Inputs, generation: nat)
    | Report(mirror: Mirror, localAttributes: Attrs)
    | Other(write: ForeignWrite)

  ghost function Apply(e: Engine, w: World, ev: Event): World {
    match ev
    case Run(t) => Reconcile(e, w, t)
    case SetInputs(inputs, generation) => w.(inputs := inputs, generation := generation)
    case Report(mirror, localAttributes) => w.(mirror := mirror, localAttributes := localAttributes)
    case Other(f) => Foreign(w, f)
  }

  ghost function ApplyAll(e: Engine, w: World, es: seq<Event>): World
    decreases |es|
  {
    if es == [] then w else ApplyAll(e, Apply(e, w, es[0]), es[1..])
  }

  ghost predicate PossibleEvent(e: Engine, w: World, ev: Event) {
    ev.Run? ==> Computed(e, w, ev.turns)
  }

  ghost predicate Possible(e: Engine, w: World, es: seq<Event>)
    decreases |es|
  {
    es == [] || (PossibleEvent(e, w, es[0]) && Possible(e, Apply(e, w, es[0]), es[1..]))
  }

  // ----- What a patch does to one key -----

  lemma {:induction false} KeyNotAddressed(m: Attrs, ops: seq<Op>, k: string)
    requires ApplyOps(m, ops).Some? && forall op | op in ops :: KeyOf(op.path) != Some(k)
    ensures At(ApplyOps(m, ops).value, k) == At(m, k)
    decreases |ops|
  {
    if ops != [] {
      assert ops[0] in ops;
      assert forall op | op in ops[1..] :: op in ops;
      KeyNotAddressed(ApplyOp(m, ops[0]).value, ops[1..], k);
    }
  }

  /** All operations on the key are this one. */
  ghost predicate OnlyOp(ops: seq<Op>, op: Op, k: string) {
    op in ops && KeyOf(op.path) == Some(k) && forall o | o in ops && KeyOf(o.path) == Some(k) :: o == op
  }

  lemma {:induction false} KeyAddressed(m: Attrs, ops: seq<Op>, op: Op, k: string)
    requires ApplyOps(m, ops).Some? && OnlyOp(ops, op, k)
    ensures At(ApplyOps(m, ops).value, k) == Effect(op)
    decreases |ops|
  {
    assert ops[0] in ops;
    assert forall o | o in ops[1..] :: o in ops;
    var m' := ApplyOp(m, ops[0]).value;
    if op in ops[1..] {
      KeyAddressed(m', ops[1..], op, k);
    } else {
      assert ops[0] == op;
      KeyNotAddressed(m', ops[1..], k);
    }
  }

  lemma OpOnKey(ops: seq<Op>, desired: Attrs, observed: Attrs, owned: seq<string>, op: Op, k: string)
    requires IsDiff(ops, desired, observed, owned) && op in ops && KeyOf(op.path) == Some(k)
    ensures OpFor(op, k, desired, observed, owned)
  {
    DiffMembers(ops, desired, observed, owned);
    var j :| OpFor(op, j, desired, observed, owned);
    PathDecodesToKey(j);
  }

  /** A diff has one operation on a key at most. */
  lemma DiffOnKey(ops: seq<Op>, desired: Attrs, observed: Attrs, owned: seq<string>, op: Op, k: string)
    requires IsDiff(ops, desired, observed, owned) && OpFor(op, k, desired, observed, owned)
    ensures OnlyOp(ops, op, k)
  {
    OpForIsEmitted(ops, desired, observed, owned, op, k);
    PathDecodesToKey(k);
    forall o | o in ops && KeyOf(o.path) == Some(k) ensures o == op {
      OpOnKey(ops, desired, observed, owned, o, k);
    }
  }

  lemma DiffOffKey(ops: seq<Op>, desired: Attrs, observed: Attrs, owned: seq<string>, k: string)
    requires IsDiff(ops, desired, observed, owned)
    requires !Wants(desired, observed, k) && !(k in owned && Dropped(desired, observed, k))
    ensures forall op | op in ops :: KeyOf(op.path) != Some(k)
  {
    forall op | op in ops ensures KeyOf(op.path) != Some(k) {
      if KeyOf(op.path) == Some(k) {
        OpOnKey(ops, desired, observed, owned, op, k);
      }
    }
  }

  /** A successful patch with a diff, key by key, whatever it is applied to. */
  lemma PatchOnKey(m: Attrs, ops: seq<Op>, desired: Attrs, observed: Attrs, owned: seq<string>, k: string)
    requires IsDiff(ops, desired, observed, owned) && ApplyOps(m, ops).Some?
    ensures var n := ApplyOps(m, ops).value;
            && (Wants(desired, observed, k) ==> At(n, k) == Some(desired[k]) && k in SetKeys(ops))
            && (k in owned && Dropped(desired, observed, k) ==> k !in n && k in TouchedKeys(ops) && k !in SetKeys(ops))
            && (!Wants(desired, observed, k) && !(k in owned && Dropped(desired, observed, k)) ==>
                  At(n, k) == At(m, k) && k !in TouchedKeys(ops) && k !in SetKeys(ops))
  {
    if Wants(desired, observed, k) {
      var op := SetOp(desired, observed, k);
      DiffOnKey(ops, desired, observed, owned, op, k);
      KeyAddressed(m, ops, op, k);
    } else if k in owned && Dropped(desired, observed, k) {
      var op := Remove(RemoteAttrPath(k));
      DiffOnKey(ops, desired, observed, owned, op, k);
      KeyAddressed(m, ops, op, k);
    } else {
      DiffOffKey(ops, desired, observed, owned, k);
      KeyNotAddressed(m, ops, k);
    }
  }

  // ----- What one reconcile can do -----

  ghost predicate SameStore(v: World, w: World) {
    v.remote == w.remote && v.mine == w.mine && v.foreign == w.foreign
  }

  /** What a reconcile leaves alone. */
  ghost predicate SameResource(v: World, w: World) {
    && v.mirror == w.mirror && v.localAttributes == w.localAttributes && v.id == w.id
    && v.generation == w.generation && v.inputs == w.inputs
  }

  /** The attributes others have been writing meanwhile. */
  lemma {:induction false} ForeignAllShape(w: World, fs: seq<ForeignWrite>)
    ensures var v := ForeignAll(w, fs);
            && SameResource(v, w) && v.status == w.status && v.mine <= w.mine
            && (w.mine <= w.remote.Keys ==> v.mine <= v.remote.Keys)
            && forall k | At(w.remote, k) == At(w.foreign, k) :: At(v.remote, k) == At(v.foreign, k)
  {
    if fs != [] {
      ForeignAllShape(w, fs[..|fs| - 1]);
    }
  }

  ghost predicate OnlyStatus(v: World, w: World) {
    v == w.(status := v.status)
  }

  /** Ready=True is only ever what a success write left. */
  ghost predicate ReadyOk(s: Status) {
    s.ready.Some? && s.ready.value.ok ==>
      && s.registered
      && s.ready.value == Condition(true, Synced, SyncedNote, s.observedGeneration)
      && s.synced == Some(Condition(true, Synced, Reconciled(|s.effective|), s.observedGeneration))
  }

  /** Only the status changed, and neither its owners nor the wholeness of its Ready. */
  ghost predicate KeepsOwners(v: World, w: World) {
    OnlyStatus(v, w) && v.status.owners == w.status.owners && (ReadyOk(w.status) ==> ReadyOk(v.status))
  }

  lemma StatusErrorShape(w: World, reason: Reason, err: Err, write: StatusWrite)
    ensures KeepsOwners(UpdateStatusError(w, reason, err, write), w)
  {}

  lemma NotRegisteredShape(w: World, write: StatusWrite)
    ensures KeepsOwners(UpdateStatusNotRegistered(w, write), w)
  {}

  lemma ErrorShape(w: World, err: Err, write: StatusWrite)
    ensures KeepsOwners(HandleApiError(w, err, write), w)
  {
    StatusErrorShape(w, ValidationError, err, write);
    StatusErrorShape(w, SyncFailed, err, write);
  }

  lemma SuccessShape(w: World, desired: Attrs, owners: seq<KeyOwnership>, write: StatusWrite)
    ensures var v := UpdateStatusSuccess(w, desired, owners, write);
            OnlyStatus(v, w) && (v.status.owners == w.status.owners || v.status.owners == owners)
            && (ReadyOk(w.status) ==> ReadyOk(v.status))
  {}

  /** The ends a reconcile can come to: nothing done; others wrote meanwhile; the patch took effect. */
  ghost predicate RunEnds(v: World, w: World, t: Turns) {
    var seen := ForeignAll(w, t.meanwhile);
    var patched := Patched(seen, t.ops);
    var kept := v.status.owners == w.status.owners;
    || (SameStore(v, w) && kept)
    || (t.Answered() && SameStore(v, seen) && (kept || (t.ops == [] && v.status.owners == t.owners)))
    || (t.Answered() && patched.Some? && SameStore(v, patched.value) && (kept || v.status.owners == t.owners))
  }

  lemma RunShape(e: Engine, w: World, t: Turns)
    ensures SameResource(Reconcile(e, w, t), w) && RunEnds(Reconcile(e, w, t), w, t)
    ensures ReadyOk(w.status) ==> ReadyOk(Reconcile(e, w, t).status)
  {
    var seen := ForeignAll(w, t.meanwhile);
    ForeignAllShape(w, t.meanwhile);
    match t.get
    case GetFailed(err) =>
      NotRegisteredShape(w, t.statusWrite);
      ErrorShape(w, err, t.statusWrite);
    case GetDied =>
    case Found =>
      StatusErrorShape(w, SyncFailed, Transport, t.statusWrite);
      if t.listed {
        FoundShape(e, w, t);
      }
  }

  lemma FoundShape(e: Engine, w: World, t: Turns)
    requires t.Answered()
    ensures SameResource(ReconcileFound(e, w, t), w) && RunEnds(ReconcileFound(e, w, t), w, t)
    ensures ReadyOk(w.status) ==> ReadyOk(ReconcileFound(e, w, t).status)
  {
    var seen := ForeignAll(w, t.meanwhile);
    ForeignAllShape(w, t.meanwhile);
    SuccessShape(seen, w.Desired(e), t.owners, t.statusWrite);
    var patched := Patched(seen, t.ops);
    assert patched.Some? ==> SameResource(patched.value, seen) && patched.value.status == seen.status;
    PatchShape(seen, patched, w.Desired(e), t);
  }

  lemma PatchShape(seen: World, patched: Option<World>, desired: Attrs, t: Turns)
    requires patched.Some? ==> SameResource(patched.value, seen) && patched.value.status == seen.status
    ensures var v := Patch(seen, patched, desired, t); var kept := v.status.owners == seen.status.owners;
            && SameResource(v, seen) && (ReadyOk(seen.status) ==> ReadyOk(v.status))
            && (|| (SameStore(v, seen) && kept)
                || (patched.Some? && SameStore(v, patched.value) && (kept || v.status.owners == t.owners)))
  {
    var after := if patched.Some? && t.bulk.Applied() then patched.value else seen;
    match t.bulk
    case Crashed(_) =>
    case Refused(err, _) => ErrorShape(after, err, t.statusWrite);
    case Done =>
      if patched.None? {
        ErrorShape(seen, Http(400), t.statusWrite);
      } else {
        SuccessShape(after, desired, t.owners, t.statusWrite);
      }
  }

  // ----- Keys nobody desires -----

  /** Whenever the controller runs, no layer wants the key. */
  ghost predicate NeverDesired(e: Engine, w: World, es: seq<Event>, k: string)
    decreases |es|
  {
    es == [] || ((es[0].Run? ==> k !in w.Desired(e)) && NeverDesired(e, Apply(e, w, es[0]), es[1..], k))
  }

  ghost predicate Unrecorded(w: World, k: string) {
    k !in Keys(w.status.owners)
  }

  lemma UndesiredIsUntouched(m: Attrs, e: Engine, w: World, t: Turns, k: string)
    requires Computed(e, w, t) && t.Answered() && Unrecorded(w, k) && k !in w.Desired(e)
    ensures k !in Keys(t.owners)
    ensures ApplyOps(m, t.ops).Some? ==>
              At(ApplyOps(m, t.ops).value, k) == At(m, k) && k !in TouchedKeys(t.ops) && k !in SetKeys(t.ops)
  {
    OwnedKeysMembers(w.status);
    assert forall i | 0 <= i < |t.owners| :: t.owners[i] in t.owners;
    if ApplyOps(m, t.ops).Some? {
      PatchOnKey(m, t.ops, w.Desired(e), w.remote, OwnedKeys(w.status), k);
    }
  }

  ghost predicate ForeignValue(w: World, k: string) {
    At(w.remote, k) == At(w.foreign, k)
  }

  lemma RunKeepsForeignValue(e: Engine, w: World, t: Turns, k: string)
    requires Computed(e, w, t) && Unrecorded(w, k) && ForeignValue(w, k) && k !in w.Desired(e)
    ensures Unrecorded(Reconcile(e, w, t), k) && ForeignValue(Reconcile(e, w, t), k)
  {
    RunShape(e, w, t);
    ForeignAllShape(w, t.meanwhile);
    if t.Answered() {
      UndesiredIsUntouched(ForeignAll(w, t.meanwhile).remote, e, w, t, k);
    }
  }

  lemma StepKeepsForeignValue(e: Engine, w: World, ev: Event, k: string)
    requires PossibleEvent(e, w, ev) && Unrecorded(w, k) && ForeignValue(w, k) && (ev.Run? ==> k !in w.Desired(e))
    ensures Unrecorded(Apply(e, w, ev), k) && ForeignValue(Apply(e, w, ev), k)
  {
    if ev.Run? {
      RunKeepsForeignValue(e, w, ev.turns, k);
    }
  }

  /** A key never desired by any layer always has the value the other writers alone would have left. */
  lemma {:induction false} ForeignKeysKept(e: Engine, w: World, es: seq<Event>, k: string)
    requires Possible(e, w, es) && NeverDesired(e, w, es, k)
    requires Unrecorded(w, k) && ForeignValue(w, k)
    ensures ForeignValue(ApplyAll(e, w, es), k)
    decreases |es|
  {
    if es != [] {
      StepKeepsForeignValue(e, w, es[0], k);
      ForeignKeysKept(e, Apply(e, w, es[0]), es[1..], k);
    }
  }

  // ----- Keys the controller wrote -----

  ghost predicate Recorded(e: Engine, w: World) {
    && w.mine <= w.remote.Keys
    && StrictlySorted(Keys(w.status.owners))
    && forall k | k in w.mine :: k in Keys(w.status.owners) || k in w.Desired(e)
  }

  /** The run drops no key while the controller's write of it is unrecorded. */
  ghost predicate DropsOnlyRecorded(e: Engine, w: World, es: seq<Event>)
    decreases |es|
  {
    es == [] ||
    var v := Apply(e, w, es[0]);
    && (forall k | k in w.mine && k in w.Desired(e) && k !in v.Desired(e) :: k in Keys(w.status.owners))
    && DropsOnlyRecorded(e, v, es[1..])
  }

  /** What a reconcile leaves of a key the controller wrote: with nothing to do, it was desired; after the
      patch, it is there and desired. */
  lemma WrittenKeyAfterRun(e: Engine, w: World, t: Turns, k: string)
    requires Recorded(e, w) && Computed(e, w, t) && t.Answered()
    ensures var seen := ForeignAll(w, t.meanwhile); var p := Patched(seen, t.ops);
            && (t.ops == [] && k in seen.mine ==> k in w.Desired(e))
            && (p.Some? && k in p.value.mine ==> k in p.value.remote && k in w.Desired(e))
  {
    var seen, owned := ForeignAll(w, t.meanwhile), OwnedKeys(w.status);
    ForeignAllShape(w, t.meanwhile);
    OwnedKeysMembers(w.status);
    if k in seen.mine && k !in w.Desired(e) {
      OpForIsEmitted(t.ops, w.Desired(e), w.remote, owned, Remove(RemoteAttrPath(k)), k);
    }
    if Patched(seen, t.ops).Some? {
      PatchOnKey(seen.remote, t.ops, w.Desired(e), w.remote, owned, k);
    }
  }

  lemma OwnersMembers(e: Engine, w: World, owners: seq<KeyOwnership>, k: string)
    requires Owns(w.LayersOf(e), w.Desired(e), owners)
    ensures k in Keys(owners) <==> k in w.Desired(e)
  {
    assert forall i | 0 <= i < |owners| :: owners[i] in owners;
  }

  lemma RunKeepsRecorded(e: Engine, w: World, t: Turns)
    requires Recorded(e, w) && Computed(e, w, t)
    ensures Recorded(e, Reconcile(e, w, t))
  {
    var v := Reconcile(e, w, t);
    RunShape(e, w, t);
    ForeignAllShape(w, t.meanwhile);
    assert v.Desired(e) == w.Desired(e);
    if t.Answered() {
      forall k | k in v.mine ensures k in v.remote && (k in Keys(v.status.owners) || k in w.Desired(e)) {
        WrittenKeyAfterRun(e, w, t, k);
        OwnersMembers(e, w, t.owners, k);
      }
    }
  }

  lemma StepKeepsRecorded(e: Engine, w: World, ev: Event)
    requires Recorded(e, w) && PossibleEvent(e, w, ev)
    requires var v := Apply(e, w, ev);
             forall k | k in w.mine && k in w.Desired(e) && k !in v.Desired(e) :: k in Keys(w.status.owners)
    ensures Recorded(e, Apply(e, w, ev))
  {
    match ev
    case Run(t) => RunKeepsRecorded(e, w, t);
    case _ =>
  }

  /** Over every run in which no key is dropped while the write of it is unrecorded, every key the
      controller wrote that is still in Fleet is recorded as owned or still desired. */
  lemma {:induction false} WritesAreRecorded(e: Engine, w: World, es: seq<Event>)
    requires Recorded(e, w) && Possible(e, w, es) && DropsOnlyRecorded(e, w, es)
    ensures Recorded(e, ApplyAll(e, w, es))
    decreases |es|
  {
    if es != [] {
      StepKeepsRecorded(e, w, es[0]);
      WritesAreRecorded(e, Apply(e, w, es[0]), es[1..]);
    }
  }

  // ----- A reconcile without interference -----

  /** Every call is answered and nobody else writes; the status write may still be lost. */
  ghost predicate Clean(t: Turns) {
    t.get.Found? && t.listed && t.meanwhile == [] && t.bulk.Done?
  }

  lemma OwnedOnce(w: World, desired: Attrs)
    requires StrictlySorted(Keys(w.status.owners))
    ensures DroppedOnce(desired, w.remote, OwnedKeys(w.status))
  {
    OwnedKeysSorted(w.status);
    var owned := OwnedKeys(w.status);
    forall k | Dropped(desired, w.remote, k) ensures multiset(owned)[k] <= 1 {
      if multiset(owned)[k] >= 2 {
        CountedTwice(owned, k);
        StrictlySortedDistinct(owned);
      }
    }
  }

  lemma CleanPatch(e: Engine, w: World, t: Turns)
    requires StrictlySorted(Keys(w.status.owners)) && Computed(e, w, t) && t.Answered()
    ensures ApplyOps(w.remote, t.ops) == Some(Target(w.Desired(e), w.remote, OwnedKeys(w.status)))
  {
    OwnedOnce(w, w.Desired(e));
    ApplyInAnyOrder(t.ops, w.Desired(e), w.remote, OwnedKeys(w.status), t.ops);
  }

  lemma NothingToPatch(w: World, ops: seq<Op>)
    requires ops == []
    ensures Patched(w, ops) == Some(w)
  {
    assert TouchedKeys(ops) == {} && SetKeys(ops) == {};
    assert w.mine - TouchedKeys(ops) + SetKeys(ops) == w.mine;
  }

  lemma CleanFinish(e: Engine, w: World, t: Turns, patched: World)
    requires Clean(t) && Patched(w, t.ops) == Some(patched)
    ensures Reconcile(e, w, t) == UpdateStatusSuccess(patched, w.Desired(e), t.owners, t.statusWrite)
  {
    if t.ops == [] {
      NothingToPatch(w, t.ops);
    }
  }

  /** It leaves observed, overridden by desired, without the recorded keys nobody desires. */
  lemma CleanRunReaches(e: Engine, w: World, t: Turns)
    requires StrictlySorted(Keys(w.status.owners)) && Computed(e, w, t) && Clean(t)
    ensures Patched(w, t.ops).Some?
    ensures Patched(w, t.ops).value.remote == Target(w.Desired(e), w.remote, OwnedKeys(w.status))
    ensures Reconcile(e, w, t) == UpdateStatusSuccess(Patched(w, t.ops).value, w.Desired(e), t.owners, t.statusWrite)
  {
    CleanPatch(e, w, t);
    CleanFinish(e, w, t, Patched(w, t.ops).value);
  }

  lemma CleanRunRemote(e: Engine, w: World, t: Turns)
    requires StrictlySorted(Keys(w.status.owners)) && Computed(e, w, t) && Clean(t)
    ensures Reconcile(e, w, t).remote == Target(w.Desired(e), w.remote, OwnedKeys(w.status))
  {
    CleanRunReaches(e, w, t);
    SuccessShape(Patched(w, t.ops).value, w.Desired(e), t.owners, t.statusWrite);
  }

  /** End to end: every key some contributor claims gets the value of its first claimant in the flat order,
      recorded keys nobody claims are gone, and every other key is as it was. */
  lemma FleetGetsFirstClaims(e: Engine, w: World, t: Turns, k: string)
    requires StrictlySorted(Keys(w.status.owners)) && Computed(e, w, t) && Clean(t)
    ensures var flat := Resolve(FlatClaims(e, w.inputs, w.id, w.localAttributes));
            At(Reconcile(e, w, t).remote, k) ==
            if k in flat then Some(flat[k]) else if !Unrecorded(w, k) then None else At(w.remote, k)
  {
    CleanRunRemote(e, w, t);
    LayeredIsFlat(e, w.inputs, w.id, w.localAttributes);
    OwnedKeysMembers(w.status);
  }

  /** After such a run, a key dropped from all layers is gone from Fleet with the next clean reconcile. */
  lemma DroppedKeyIsRemoved(e: Engine, w: World, es: seq<Event>, t: Turns, k: string)
    requires Recorded(e, w) && Possible(e, w, es) && DropsOnlyRecorded(e, w, es)
    requires var v := ApplyAll(e, w, es); Computed(e, v, t) && Clean(t) && k in v.mine && k !in v.Desired(e)
    ensures k !in Reconcile(e, ApplyAll(e, w, es), t).remote
  {
    var v := ApplyAll(e, w, es);
    WritesAreRecorded(e, w, es);
    OwnedKeysMembers(v.status);
    CleanRunRemote(e, v, t);
  }

  /** Whatever came before, a clean reconcile removes an undesired key the controller wrote exactly when
      status records it. */
  lemma RemovedExactlyWhenRecorded(e: Engine, w: World, t: Turns, k: string)
    requires w.mine <= w.remote.Keys && StrictlySorted(Keys(w.status.owners))
    requires Computed(e, w, t) && Clean(t) && k in w.mine && k !in w.Desired(e)
    ensures k !in Reconcile(e, w, t).remote <==> !Unrecorded(w, k)
  {
    OwnedKeysMembers(w.status);
    CleanRunRemote(e, w, t);
  }

  // ----- The leak -----

  /** Nobody writes between reading and patching. */
  ghost predicate Undisturbed(t: Turns) {
    t.Answered() && t.meanwhile == []
  }

  /** Fleet has the value the controller wrote, and status does not list the key. */
  ghost predicate WrittenUnrecorded(w: World, k: string, value: string) {
    k in w.mine && At(w.remote, k) == Some(value) && Unrecorded(w, k)
  }

  /** The patch took effect, but it was not answered or the status was not stored. */
  predicate LosesRecord(t: Turns) {
    t.bulk.Applied() && !(t.bulk.Done? && t.statusWrite.Stored?)
  }

  lemma WantedKeyPatch(e: Engine, w: World, t: Turns, k: string)
    requires StrictlySorted(Keys(w.status.owners)) && Computed(e, w, t) && Undisturbed(t)
    requires Wants(w.Desired(e), w.remote, k)
    ensures t.ops != [] && Patched(w, t.ops).Some?
    ensures var p := Patched(w, t.ops).value;
            p.status == w.status && k in p.mine && At(p.remote, k) == Some(w.Desired(e)[k])
  {
    CleanPatch(e, w, t);
    PatchOnKey(w.remote, t.ops, w.Desired(e), w.remote, OwnedKeys(w.status), k);
  }

  lemma SuccessRecords(p: World, desired: Attrs, owners: seq<KeyOwnership>, write: StatusWrite, k: string)
    requires k in Keys(owners) && Unrecorded(p, k)
    ensures Unrecorded(UpdateStatusSuccess(p, desired, owners, write), k) <==> !write.Stored?
  {
    if OwnerSlicesEqual(p.status.owners, owners) {
      EqualSlicesShareKeys(p.status.owners, owners, k);
    }
  }

  /** An undisturbed reconcile that wants an unrecorded key leaves it written and unrecorded exactly when the
      patch took effect without an answer, or with one and without the status being stored. */
  lemma WrittenUnrecordedExactly(e: Engine, w: World, t: Turns, k: string)
    requires StrictlySorted(Keys(w.status.owners)) && Computed(e, w, t) && Undisturbed(t)
    requires Unrecorded(w, k) && Wants(w.Desired(e), w.remote, k)
    ensures WrittenUnrecorded(Reconcile(e, w, t), k, w.Desired(e)[k]) <==> LosesRecord(t)
  {
    WantedKeyPatch(e, w, t, k);
    OwnersMembers(e, w, t.owners, k);
    var p := Patched(w, t.ops);
    assert Reconcile(e, w, t) == Patch(w, p, w.Desired(e), t);
    var after := if t.bulk.Applied() then p.value else w;
    match t.bulk
    case Crashed(_) =>
    case Refused(err, _) => ErrorShape(after, err, t.statusWrite);
    case Done => SuccessRecords(after, w.Desired(e), t.owners, t.statusWrite, k);
  }

  /** A layer then drops the key before the next reconcile: the write stays unrecorded. */
  lemma UnrecordedWriteThenDropLeaks(e: Engine, w: World, t: Turns, inputs: Inputs, generation: nat, k: string)
    requires StrictlySorted(Keys(w.status.owners)) && Computed(e, w, t) && Undisturbed(t) && LosesRecord(t)
    requires Unrecorded(w, k) && Wants(w.Desired(e), w.remote, k) && k !in w.(inputs := inputs).Desired(e)
    ensures var v := ApplyAll(e, w, [Run(t), SetInputs(inputs, generation)]);
            WrittenUnrecorded(v, k, w.Desired(e)[k]) && k !in v.Desired(e)
  {
    WrittenUnrecordedExactly(e, w, t, k);
    RunShape(e, w, t);
    ThenInputs(e, w, t, inputs, generation);
  }

  lemma ThenInputs(e: Engine, w: World, t: Turns, inputs: Inputs, generation: nat)
    ensures ApplyAll(e, w, [Run(t), SetInputs(inputs, generation)]) ==
            Reconcile(e, w, t).(inputs := inputs, generation := generation)
  {
    var es := [Run(t), SetInputs(inputs, generation)];
    var x := Apply(e, w, es[0]);
    assert es[1..] == [SetInputs(inputs, generation)] && es[1..][1..] == [];
    assert ApplyAll(e, x, es[1..]) == ApplyAll(e, Apply(e, x, es[1]), []);
  }

  predicate WritesKey(f: ForeignWrite, k: string) {
    f.key == k
  }

  ghost predicate OthersLeave(ev: Event, k: string) {
    match ev
    case Run(t) => forall f | f in t.meanwhile :: !WritesKey(f, k)
    case Other(f) => !WritesKey(f, k)
    case _ => true
  }

  lemma {:induction false} ForeignElsewhere(w: World, fs: seq<ForeignWrite>, k: string)
    requires forall f | f in fs :: !WritesKey(f, k)
    ensures At(ForeignAll(w, fs).remote, k) == At(w.remote, k)
  {
    if fs != [] {
      ForeignElsewhere(w, fs[..|fs| - 1], k);
      assert fs[|fs| - 1] in fs;
    }
  }

  lemma StepKeepsLeak(e: Engine, w: World, ev: Event, k: string)
    requires PossibleEvent(e, w, ev) && OthersLeave(ev, k) && Unrecorded(w, k) && (ev.Run? ==> k !in w.Desired(e))
    ensures Unrecorded(Apply(e, w, ev), k) && At(Apply(e, w, ev).remote, k) == At(w.remote, k)
  {
    if ev.Run? {
      RunShape(e, w, ev.turns);
      ForeignElsewhere(w, ev.turns.meanwhile, k);
      ForeignAllShape(w, ev.turns.meanwhile);
      if ev.turns.Answered() {
        UndesiredIsUntouched(ForeignAll(w, ev.turns.meanwhile).remote, e, w, ev.turns, k);
      }
    }
  }

  /** An unrecorded key no layer wants stays in Fleet, with its value, over every run. */
  lemma {:induction false} LeakStays(e: Engine, w: World, es: seq<Event>, k: string)
    requires Possible(e, w, es) && NeverDesired(e, w, es, k) && Unrecorded(w, k)
    requires forall ev | ev in es :: OthersLeave(ev, k)
    ensures At(ApplyAll(e, w, es).remote, k) == At(w.remote, k)
    decreases |es|
  {
    if es != [] {
      assert es[0] in es;
      assert forall ev | ev in es[1..] :: ev in es;
      StepKeepsLeak(e, w, es[0], k);
      LeakStays(e, Apply(e, w, es[0]), es[1..], k);
    }
  }

  // ----- The suppressed status write -----

  lemma StepKeepsReadyOk(e: Engine, w: World, ev: Event)
    requires ReadyOk(w.status)
    ensures ReadyOk(Apply(e, w, ev).status)
  {
    if ev.Run? {
      RunShape(e, w, ev.turns);
    }
  }

  /** Over every run Ready=True is only ever what a success write left. */
  lemma {:induction false} ReadyIsWhole(e: Engine, w: World, es: seq<Event>)
    requires ReadyOk(w.status)
    ensures ReadyOk(ApplyAll(e, w, es).status)
    decreases |es|
  {
    if es != [] {
      StepKeepsReadyOk(e, w, es[0]);
      ReadyIsWhole(e, Apply(e, w, es[0]), es[1..]);
    }
  }

  /** So the status write is suppressed exactly when it would change nothing. */
  lemma NoopIsExact(w: World, desired: Attrs, owners: seq<KeyOwnership>)
    requires ReadyOk(w.status) && StrictlySorted(Keys(w.status.owners)) && StrictlySorted(Keys(owners))
    ensures NoopStatus(w, desired, owners) <==> SuccessStatus(w, desired, owners) == w.status
  {
    OwnerSlicesEqualIsEquality(w.status.owners, owners);
  }

  /** After a clean reconcile whose status was stored, another one has nothing to do. */
  lemma SecondReconcileIsIdle(e: Engine, w: World, t: Turns, u: Turns)
    requires StrictlySorted(Keys(w.status.owners)) && ReadyOk(w.status)
    requires Computed(e, w, t) && Clean(t) && t.statusWrite.Stored?
    requires Computed(e, Reconcile(e, w, t), u) && Clean(u)
    ensures u.ops == [] && Reconcile(e, Reconcile(e, w, t), u) == Reconcile(e, w, t)
  {
    var v := Reconcile(e, w, t);
    StoredRunSettles(e, w, t);
    OwnersDeterministic(w.LayersOf(e), w.Desired(e), t.owners, u.owners);
    forall k ensures k in Keys(v.status.owners) <==> k in v.Desired(e) {
      OwnersMembers(e, w, t.owners, k);
    }
    SettledHasNoOps(e, v, u);
    NothingToPatch(v, u.ops);
    CleanFinish(e, v, u, v);
    SettledIsNoop(v, w.Desired(e), u.owners);
  }

  /** What a clean, stored reconcile leaves. */
  lemma StoredRunSettles(e: Engine, w: World, t: Turns)
    requires StrictlySorted(Keys(w.status.owners)) && ReadyOk(w.status)
    requires Computed(e, w, t) && Clean(t) && t.statusWrite.Stored?
    ensures var v := Reconcile(e, w, t);
            && v.LayersOf(e) == w.LayersOf(e) && v.remote == Target(w.Desired(e), w.remote, OwnedKeys(w.status))
            && v.status == SuccessStatus(v, w.Desired(e), t.owners)
  {
    CleanRunReaches(e, w, t);
    var patched := Patched(w, t.ops).value;
    NoopIsExact(patched, w.Desired(e), t.owners);
    StoredStatus(patched, w.Desired(e), t.owners);
  }

  lemma StoredStatus(p: World, desired: Attrs, owners: seq<KeyOwnership>)
    requires NoopStatus(p, desired, owners) <==> SuccessStatus(p, desired, owners) == p.status
    ensures var v := UpdateStatusSuccess(p, desired, owners, Stored);
            && v == p.(status := SuccessStatus(p, desired, owners))
            && SuccessStatus(v, desired, owners) == v.status
  {}

  lemma SettledIsNoop(v: World, desired: Attrs, owners: seq<KeyOwnership>)
    requires v.status == SuccessStatus(v, desired, owners) && StrictlySorted(Keys(owners))
    ensures NoopStatus(v, desired, owners)
  {
    OwnerSlicesEqualIsEquality(v.status.owners, owners);
  }

  /** Nothing to set and nothing to drop: no operations. */
  lemma SettledHasNoOps(e: Engine, v: World, u: Turns)
    requires Computed(e, v, u) && u.Answered()
    requires forall k | k in v.Desired(e) :: At(v.remote, k) == Some(v.Desired(e)[k])
    requires forall k | k in Keys(v.status.owners) :: k in v.Desired(e)
    ensures u.ops == []
  {
    OwnedKeysMembers(v.status);
    assert |u.ops| > 0 ==> u.ops[0] in u.ops;
    assert forall op, k :: !OpFor(op, k, v.Desired(e), v.remote, OwnedKeys(v.status));
    DiffMembers(u.ops, v.Desired(e), v.remote, OwnedKeys(v.status));
  }

  /** A new resource starts such runs, whatever is in Fleet. */
  lemma FreshStartsRecorded(e: Engine, w: World)
    requires w.mine == {} && w.foreign == w.remote && w.status.owners == [] && w.status.ready == None
    ensures Recorded(e, w) && ReadyOk(w.status) && forall k :: Unrecorded(w, k) && ForeignValue(w, k)
  {
    assert Keys(w.status.owners) == [];
  }

  // ----- What a stored reconcile reports -----

  /** The status as it was, but for the generation and two conditions that say the same. */
  ghost predicate ReportsError(v: World, w: World, reason: Reason, note: Note) {
    var c := Some(Condition(false, reason, note, w.generation));
    v == w.(status := w.status.(observedGeneration := w.generation, ready := c, synced := c))
  }

  /** What an API error leaves: nothing for a 429, a validation error for a 400, a failed sync for the rest. */
  ghost predicate ReportsApiError(v: World, w: World, err: Err) {
    if err == Http(429) then v == w
    else ReportsError(v, w, if err == Http(400) then ValidationError else SyncFailed, Problem(err))
  }

  lemma ApiErrorReported(w: World, err: Err)
    ensures ReportsApiError(HandleApiError(w, err, Stored), w, err)
  {
    ErrorStatusInPlace(w, ValidationError, Problem(err));
    ErrorStatusInPlace(w, SyncFailed, Problem(err));
  }

  /** A collector Fleet does not know is reported as not registered, and keeps its records. */
  lemma NotRegisteredReported(e: Engine, w: World, t: Turns)
    requires t.get == GetFailed(Http(404)) && t.statusWrite.Stored?
    ensures var c := Some(Condition(false, NotRegistered, Waiting, w.generation));
            Reconcile(e, w, t) == w.(status := w.status.(registered := false, observedGeneration := w.generation,
                                                         ready := c, synced := c))
  {}

  /** Any other failing read, and a failing list of syncs or policies, changes nothing in Fleet and is reported. */
  lemma FailedReadReported(e: Engine, w: World, t: Turns)
    requires t.statusWrite.Stored?
    ensures t.get.GetFailed? && t.get.err != Http(404) ==> ReportsApiError(Reconcile(e, w, t), w, t.get.err)
    ensures t.get.Found? && !t.listed ==> ReportsError(Reconcile(e, w, t), w, SyncFailed, Problem(Transport))
  {
    if t.get.GetFailed? {
      ApiErrorReported(w, t.get.err);
    }
  }

  /** An undisturbed refusal of the patch is reported, over Fleet as the patch left it. */
  lemma RefusedPatchReported(e: Engine, w: World, t: Turns, err: Err, applied: bool)
    requires StrictlySorted(Keys(w.status.owners)) && Computed(e, w, t) && Undisturbed(t)
    requires t.ops != [] && t.bulk == Refused(err, applied) && t.statusWrite.Stored?
    ensures Patched(w, t.ops).Some?
    ensures ReportsApiError(Reconcile(e, w, t), if applied then Patched(w, t.ops).value else w, err)
  {
    CleanPatch(e, w, t);
    ApiErrorReported(if applied then Patched(w, t.ops).value else w, err);
  }

  /** A clean, stored reconcile reports the collector, every desired value and its owner, and is Ready. */
  lemma CleanRunReports(e: Engine, w: World, t: Turns)
    requires StrictlySorted(Keys(w.status.owners)) && ReadyOk(w.status)
    requires Computed(e, w, t) && Clean(t) && t.statusWrite.Stored?
    ensures var s := Reconcile(e, w, t).status;
            && s.registered && s.mirror == w.mirror && s.localAttributes == w.localAttributes
            && s.lastPing == (if w.mirror.updatedAt.Some? then w.mirror.updatedAt else w.status.lastPing)
            && s.effective == w.Desired(e) && s.owners == t.owners && s.observedGeneration == w.generation
            && s.ready == Some(Condition(true, Synced, SyncedNote, w.generation))
            && s.synced == Some(Condition(true, Synced, Reconciled(|w.Desired(e)|), w.generation))
  {
    CleanRunReaches(e, w, t);
    var p := Patched(w, t.ops).value;
    NoopIsExact(p, w.Desired(e), t.owners);
    StoredStatus(p, w.Desired(e), t.owners);
  }
}
