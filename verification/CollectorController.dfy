/** The Collector reconciler in its own form: it updates its copy of the status field by field between the
    calls to Fleet. Each method is proved against the function it carries out. */
module CollectorController {
  import opened Common
  import opened Strings
  import opened Sorting
  import opened JsonPointer
  import opened AttributeDiff
  import opened AttributeMerge
  import opened SelectorMatch
  import opened CollectorLayers
  import opened FleetCalls
  import Spec = CollectorReconcile
  import opened CollectorReconcile
  import Finalizer = CollectorFinalizer

  method AllOwnedKeys(owners: seq<KeyOwnership>) returns (keys: seq<string>)
    ensures keys == Sort(AtMost, Keys(owners))
  {
    keys := [];
    for i := 0 to |owners|
      invariant keys == Keys(owners)[..i]
    {
      keys := keys + [owners[i].key];
    }
    assert keys == Keys(owners);
    keys := Sort(AtMost, keys);
  }

  /** The record last listed under each key of `a`. */
  ghost predicate Indexed(a: seq<KeyOwnership>, idx: map<string, KeyOwnership>) {
    && (forall k | k in idx :: exists i :: LastOf(a, k, i) && a[i] == idx[k])
    && (forall i | 0 <= i < |a| :: a[i].key in idx)
  }

  lemma IndexedExtend(a: seq<KeyOwnership>, idx: map<string, KeyOwnership>, o: KeyOwnership)
    requires Indexed(a, idx)
    ensures Indexed(a + [o], idx[o.key := o])
  {
    var b, more := a + [o], idx[o.key := o];
    forall k | k in more ensures exists i :: LastOf(b, k, i) && b[i] == more[k] {
      if k == o.key {
        assert LastOf(b, k, |a|);
      } else {
        var i :| LastOf(a, k, i) && a[i] == idx[k];
        assert LastOf(b, k, i);
      }
    }
  }

  lemma IndexedFinds(a: seq<KeyOwnership>, idx: map<string, KeyOwnership>, o: KeyOwnership)
    requires Indexed(a, idx)
    ensures (exists i :: LastOf(a, o.key, i) && a[i] == o) <==> o.key in idx && idx[o.key] == o
  {
    if i :| LastOf(a, o.key, i) && a[i] == o {
      var j :| LastOf(a, o.key, j) && a[j] == idx[o.key];
      assert i == j;
    }
  }

  method IndexByKey(a: seq<KeyOwnership>) returns (idx: map<string, KeyOwnership>)
    ensures Indexed(a, idx)
  {
    idx := map[];
    for i := 0 to |a|
      invariant Indexed(a[..i], idx)
    {
      IndexedExtend(a[..i], idx, a[i]);
      assert a[..i + 1] == a[..i] + [a[i]];
      idx := idx[a[i].key := a[i]];
    }
    assert a[..|a|] == a;
  }

  method SameOwners(a: seq<KeyOwnership>, b: seq<KeyOwnership>) returns (equal: bool)
    ensures equal <==> OwnerSlicesEqual(a, b)
  {
    if |a| != |b| {
      return false;
    }
    var idx := IndexByKey(a);
    for i := 0 to |b|
      invariant forall j | 0 <= j < i :: b[j].key in idx && idx[b[j].key] == b[j]
    {
      IndexedFinds(a, idx, b[i]);
      if b[i].key !in idx || idx[b[i].key] != b[i] {
        assert b[i] in b;
        return false;
      }
    }
    forall o | o in b ensures exists i :: LastOf(a, o.key, i) && a[i] == o {
      IndexedFinds(a, idx, o);
    }
    equal := true;
  }

  method MapsEqual(a: Attrs, b: Attrs) returns (equal: bool)
    ensures equal <==> a == b
  {
    if |a| != |b| {
      return false;
    }
    var todo := a.Keys;
    while todo != {}
      invariant todo <= a.Keys
      invariant forall k | k in a && k !in todo :: At(b, k) == Some(a[k])
      decreases todo
    {
      var k :| k in todo;
      if k !in b || b[k] != a[k] {
        return false;
      }
      todo := todo - {k};
    }
    assert b.Keys == a.Keys + (b.Keys - a.Keys);
    assert |b.Keys - a.Keys| == 0;
    equal := true;
  }

  class CollectorReconciler {
    const engine: Engine
    const id: string
    var inputs: Inputs
    var generation: nat
    var stored: Status
    var finalizer: bool

    // The Fleet collector.
    var remote: Attrs
    var mirror: Mirror
    var localAttributes: Attrs

    // The status of the copy that Get returned.
    var copy: Status

    ghost var mine: set<string>
    ghost var foreign: Attrs

    ghost function Now(): World
      reads `inputs, `generation, `stored, `remote, `mirror, `localAttributes, `mine, `foreign
    {
      World(remote, mirror, localAttributes, id, generation, inputs, stored, mine, foreign)
    }

    constructor (engine: Engine, id: string, inputs: Inputs, generation: nat, stored: Status,
                 remote: Attrs, mirror: Mirror, localAttributes: Attrs)
      ensures this.engine == engine && copy == stored && finalizer
      ensures Now() == World(remote, mirror, localAttributes, id, generation, inputs, stored, {}, remote)
    {
      this.engine, this.id, this.inputs, this.generation := engine, id, inputs, generation;
      this.stored, this.copy, finalizer := stored, stored, true;
      this.remote, this.mirror, this.localAttributes := remote, mirror, localAttributes;
      mine, foreign := {}, remote;
    }

    method WriteStatus(write: StatusWrite)
      modifies `stored
      ensures Now() == StoreStatus(old(Now()), copy, write)
    {
      if write.Stored? {
        stored := copy;
      }
    }

    method UpdateStatusError(reason: Reason, err: Err, write: StatusWrite)
      requires copy == stored
      modifies `copy, `stored
      ensures Now() == Spec.UpdateStatusError(old(Now()), reason, err, write)
    {
      var c := Some(Condition(false, reason, Problem(err), generation));
      ErrorStatusInPlace(Now(), reason, Problem(err));
      if copy.observedGeneration == generation && copy.ready == c && copy.synced == c {
        return;
      }
      copy := copy.(observedGeneration := generation);
      copy := copy.(ready := c);
      copy := copy.(synced := c);
      assert copy == ErrorStatus(old(Now()), reason, Problem(err));
      WriteStatus(write);
    }

    method UpdateStatusNotRegistered(write: StatusWrite)
      requires copy == stored
      modifies `copy, `stored
      ensures Now() == Spec.UpdateStatusNotRegistered(old(Now()), write)
    {
      var c := Some(Condition(false, NotRegistered, Waiting, generation));
      if copy.observedGeneration == generation && !copy.registered && copy.ready == c && copy.synced == c {
        return;
      }
      copy := copy.(observedGeneration := generation, registered := false);
      copy := copy.(ready := c);
      copy := copy.(synced := c);
      WriteStatus(write);
    }

    method HandleApiError(err: Err, write: StatusWrite)
      requires copy == stored
      modifies `copy, `stored
      ensures Now() == Spec.HandleApiError(old(Now()), err, write)
    {
      if err == Http(400) {
        UpdateStatusError(ValidationError, err, write);
      } else if err != Http(429) {
        UpdateStatusError(SyncFailed, err, write);
      }
    }

    /** The comparison that suppresses the status write. */
    method NothingNew(desired: Attrs, newOwners: seq<KeyOwnership>) returns (noop: bool)
      requires copy == stored
      ensures noop <==> NoopStatus(Now(), desired, newOwners)
    {
      var newLastPing := if mirror.updatedAt.Some? then mirror.updatedAt else copy.lastPing;
      var readyNow := copy.ready.Some? && copy.ready.value.ok && copy.ready.value.generation == generation;
      var sameLocal := MapsEqual(copy.localAttributes, localAttributes);
      var sameEffective := MapsEqual(copy.effective, desired);
      var sameOwners := SameOwners(copy.owners, newOwners);
      noop := readyNow && copy.observedGeneration == generation && copy.registered && copy.mirror == mirror
              && copy.lastPing == newLastPing && sameLocal && sameEffective && sameOwners;
    }

    method UpdateStatusSuccess(desired: Attrs, newOwners: seq<KeyOwnership>, write: StatusWrite)
      requires copy == stored
      modifies `copy, `stored
      ensures Now() == Spec.UpdateStatusSuccess(old(Now()), desired, newOwners, write)
    {
      var noop := NothingNew(desired, newOwners);
      if noop {
        return;
      }
      copy := copy.(observedGeneration := generation, registered := true, mirror := mirror);
      copy := copy.(localAttributes := localAttributes, effective := desired, owners := newOwners);
      if mirror.updatedAt.Some? {
        copy := copy.(lastPing := mirror.updatedAt);
      }
      copy := copy.(ready := Some(Condition(true, Synced, SyncedNote, generation)));
      copy := copy.(synced := Some(Condition(true, Synced, Reconciled(|desired|), generation)));
      WriteStatus(write);
    }

    /** Other writers of the same collector. */
    method OthersWrite(fs: seq<ForeignWrite>)
      modifies `remote, `mine, `foreign
      ensures Now() == ForeignAll(old(Now()), fs)
    {
      for i := 0 to |fs|
        invariant Now() == ForeignAll(old(Now()), fs[..i])
      {
        assert fs[..i + 1][..i] == fs[..i];
        match fs[i]
        case ForeignSet(k, v) => remote, foreign, mine := remote[k := v], foreign[k := v], mine - {k};
        case ForeignRemove(k) => remote, foreign, mine := remote - {k}, foreign - {k}, mine - {k};
      }
      assert fs[..|fs|] == fs;
    }

    method BulkUpdateCollectors(ops: seq<Op>, bulk: Reply) returns (reply: Reply)
      modifies `remote, `mine
      ensures var patched := Patched(old(Now()), ops);
              && Now() == (if patched.Some? && bulk.Applied() then patched.value else old(Now()))
              && reply == if bulk.Done? && patched.None? then Refused(Http(400), false) else bulk
    {
      var applied := ApplyOps(remote, ops);
      if applied.None? {
        return if bulk.Done? then Refused(Http(400), false) else bulk;
      }
      if bulk.Applied() {
        remote := applied.value;
        mine := (mine - TouchedKeys(ops)) + SetKeys(ops);
      }
      reply := bulk;
    }

    method Layered() returns (desired: Attrs, newOwners: seq<KeyOwnership>)
      ensures desired == Now().Desired(engine) && Owns(Now().LayersOf(engine), desired, newOwners)
    {
      var external := ExternalSyncLayer(inputs.syncs, id);
      var policy := PolicyLayer(engine, inputs.policies, id, localAttributes);
      desired, newOwners := Merge([external, inputs.spec, policy]);
    }

    method ReconcileFound(t: Turns) returns (ghost used: Turns)
      requires copy == stored && t.Answered()
      modifies this
      ensures used == t.(ops := used.ops, owners := used.owners) && Computed(engine, old(Now()), used)
      ensures Now() == Spec.ReconcileFound(engine, old(Now()), used)
    {
      var desired, newOwners := Layered();
      var previouslyOwned := AllOwnedKeys(copy.owners);
      var ops := Diff(desired, remote, previouslyOwned);
      used := t.(ops := ops, owners := newOwners);
      OthersWrite(t.meanwhile);
      if |ops| > 0 {
        var reply := BulkUpdateCollectors(ops, t.bulk);
        match reply {
          case Done =>
          case Refused(err, _) =>
            HandleApiError(err, t.statusWrite);
            return;
          case Crashed(_) => return;
        }
      }
      UpdateStatusSuccess(desired, newOwners, t.statusWrite);
    }

    /** One reconcile: the whole new world is the one the function gives, with operations and owners that
        meet the contracts of Diff and Merge. */
    method ReconcileNormal(t: Turns) returns (ghost used: Turns)
      modifies this
      ensures used == t.(ops := used.ops, owners := used.owners) && Computed(engine, old(Now()), used)
      ensures Now() == Spec.Reconcile(engine, old(Now()), used)
    {
      copy := stored;
      used := t;
      match t.get
      case GetDied =>
      case GetFailed(err) =>
        if err == Http(404) {
          UpdateStatusNotRegistered(t.statusWrite);
        } else {
          HandleApiError(err, t.statusWrite);
        }
      case Found =>
        if !t.listed {
          UpdateStatusError(SyncFailed, Transport, t.statusWrite);
        } else {
          used := ReconcileFound(t);
        }
    }

    method DropFinalizer(update: StatusWrite)
      requires finalizer
      modifies `finalizer
      ensures Finalizer.Held(Now(), finalizer) == Finalizer.Released(old(Now()), update)
    {
      if update.Stored? {
        finalizer := false;
      }
    }

    method BuildRemovals(owned: seq<string>) returns (ops: seq<Op>)
      ensures ops == Finalizer.FinalizerOps(owned)
    {
      ops := [];
      for i := 0 to |owned|
        invariant |ops| == i && forall j | 0 <= j < i :: ops[j] == Remove(FinalizerPath(owned[j]))
      {
        ops := ops + [Remove(PREFIX + owned[i])];
      }
    }

    /** Deletion: the recorded keys go first, then the finaliser. */
    method ReconcileDelete(t: Finalizer.DeleteTurns)
      modifies this
      ensures Finalizer.Held(Now(), finalizer) ==
              if old(finalizer) then Finalizer.ReconcileDelete(old(Now()), t) else Finalizer.Held(old(Now()), false)
    {
      copy := stored;
      if !finalizer {
        return;
      }
      var owned := AllOwnedKeys(copy.owners);
      if |owned| > 0 {
        var ops := BuildRemovals(owned);
        OthersWrite(t.meanwhile);
        var reply := BulkUpdateCollectors(ops, t.bulk);
        match reply {
          case Done =>
          case Refused(err, _) =>
            if err != Http(404) {
              UpdateStatusError(DeleteFailed, err, t.statusWrite);
              return;
            }
          case Crashed(_) => return;
        }
      }
      DropFinalizer(t.update);
    }
  }
}
