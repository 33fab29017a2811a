/** One reconcile of a Collector: layers in, one atomic patch out, ownership recorded in status. */
module CollectorReconcile {
  import opened Common
  import opened Strings
  import opened Sorting
  import opened StringSort
  import opened JsonPointer
  import opened AttributeDiff
  import opened AttributeMerge
  import opened SelectorMatch
  import opened CollectorLayers
  import opened FleetCalls

  datatype Reason = Synced | SyncFailed | NotRegistered | ValidationError | DeleteFailed

  datatype Note = SyncedNote | Reconciled(count: nat) | Waiting | Problem(err: Err)

  datatype Condition = Condition(ok: bool, reason: Reason, note: Note, generation: nat)

  /** The fields of the Fleet collector that status repeats. */
  datatype Mirror = Mirror(name: string, enabled: Option<bool>, collectorType: string,
                           createdAt: Option<int>, updatedAt: Option<int>, markedInactiveAt: Option<int>)

  datatype Status = Status(observedGeneration: nat, registered: bool, mirror: Mirror, lastPing: Option<int>,
                           localAttributes: Attrs, effective: Attrs, owners: seq<KeyOwnership>,
                           ready: Option<Condition>, synced: Option<Condition>)

  datatype ForeignWrite = ForeignSet(key: string, value: string) | ForeignRemove(key: string)

  /** The Fleet collector, the stored status, and what the layers come from. Three histories: `mine` are
      the keys whose current value this controller wrote, `foreign` is what the other writers alone
      would have left, `generation` is the resource's. */
  datatype World = World(remote: Attrs, mirror: Mirror, localAttributes: Attrs,
                         id: string, generation: nat, inputs: Inputs, status: Status,
                         mine: set<string>, foreign: Attrs)
  {
    function LayersOf(e: Engine): seq<Layer> {
      Layers(e, inputs, id, localAttributes)
    }

    function Desired(e: Engine): Attrs {
      Resolve(LayersOf(e))
    }
  }

  /** allOwnedKeys: every key status records, sorted. */
  function OwnedKeys(s: Status): seq<string> {
    Sort(AtMost, Keys(s.owners))
  }

  function Foreign(w: World, f: ForeignWrite): World {
    match f
    case ForeignSet(k, v) => w.(remote := w.remote[k := v], foreign := w.foreign[k := v], mine := w.mine - {k})
    case ForeignRemove(k) => w.(remote := w.remote - {k}, foreign := w.foreign - {k}, mine := w.mine - {k})
  }

  function ForeignAll(w: World, fs: seq<ForeignWrite>): World {
    if fs == [] then w else Foreign(ForeignAll(w, fs[..|fs| - 1]), fs[|fs| - 1])
  }

  datatype Get = Found | GetFailed(err: Err) | GetDied

  /** The fate of each call, the foreign writes between reading and patching, and what Diff and Merge
      returned. */
  datatype Turns = Turns(get: Get, listed: bool, meanwhile: seq<ForeignWrite>, bulk: Reply, statusWrite: StatusWrite,
                         ops: seq<Op>, owners: seq<KeyOwnership>)
  {
    /** The collector was found and the layers were listed. */
    predicate Answered() {
      get.Found? && listed
    }
  }

  /** Diff and Merge return what their contracts say. */
  ghost predicate Computed(e: Engine, w: World, t: Turns) {
    t.Answered() ==>
    && IsDiff(t.ops, w.Desired(e), w.remote, OwnedKeys(w.status))
    && Owns(w.LayersOf(e), w.Desired(e), t.owners)
  }

  function StoreStatus(w: World, s: Status, write: StatusWrite): World {
    if write.Stored? then w.(status := s) else w
  }

  function ErrorStatus(w: World, reason: Reason, note: Note): Status {
    var c := Some(Condition(false, reason, note, w.generation));
    w.status.(observedGeneration := w.generation, ready := c, synced := c)
  }

  predicate Reported(w: World, c: Option<Condition>) {
    w.status.observedGeneration == w.generation && w.status.ready == c && w.status.synced == c
  }

  /** Three fields decide whether an error status is already in place. */
  lemma ErrorStatusInPlace(w: World, reason: Reason, note: Note)
    ensures ErrorStatus(w, reason, note) == w.status <==>
            Reported(w, Some(Condition(false, reason, note, w.generation)))
  {}

  /** An error status already in place is not written again. */
  function UpdateStatusError(w: World, reason: Reason, err: Err, write: StatusWrite): World {
    var s := ErrorStatus(w, reason, Problem(err));
    if s == w.status then w else StoreStatus(w, s, write)
  }

  function HandleApiError(w: World, err: Err, write: StatusWrite): World {
    if err == Http(400) then UpdateStatusError(w, ValidationError, err, write)
    else if err == Http(429) then w
    else UpdateStatusError(w, SyncFailed, err, write)
  }

  function UpdateStatusNotRegistered(w: World, write: StatusWrite): World {
    var s := ErrorStatus(w, NotRegistered, Waiting).(registered := false);
    if s == w.status then w else StoreStatus(w, s, write)
  }

  function NewLastPing(w: World): Option<int> {
    if w.mirror.updatedAt.Some? then w.mirror.updatedAt else w.status.lastPing
  }

  function SuccessStatus(w: World, desired: Attrs, owners: seq<KeyOwnership>): Status {
    Status(w.generation, true, w.mirror, NewLastPing(w), w.localAttributes, desired, owners,
           Some(Condition(true, Synced, SyncedNote, w.generation)),
           Some(Condition(true, Synced, Reconciled(|desired|), w.generation)))
  }

  /** Go's comparison of ownership records: equally many, and each record of `b` has the record of `a`
      last listed under its key. */
  ghost predicate OwnerSlicesEqual(a: seq<KeyOwnership>, b: seq<KeyOwnership>) {
    && |a| == |b|
    && forall o | o in b :: exists i :: LastOf(a, o.key, i) && a[i] == o
  }

  ghost predicate LastOf(a: seq<KeyOwnership>, k: string, i: int) {
    && 0 <= i < |a| && a[i].key == k
    && forall j | i < j < |a| :: a[j].key != k
  }

  /** The status write is suppressed when nothing observable changed. */
  ghost predicate NoopStatus(w: World, desired: Attrs, owners: seq<KeyOwnership>) {
    var s := w.status;
    && s.ready.Some? && s.ready.value.ok && s.ready.value.generation == w.generation
    && s.observedGeneration == w.generation && s.registered
    && s.mirror == w.mirror && s.lastPing == NewLastPing(w)
    && s.localAttributes == w.localAttributes && s.effective == desired
    && OwnerSlicesEqual(s.owners, owners)
  }

  ghost function UpdateStatusSuccess(w: World, desired: Attrs, owners: seq<KeyOwnership>, write: StatusWrite): World {
    if NoopStatus(w, desired, owners) then w else StoreStatus(w, SuccessStatus(w, desired, owners), write)
  }

  function TouchedKeys(ops: seq<Op>): set<string> {
    set op | op in ops && KeyOf(op.path).Some? :: KeyOf(op.path).value
  }

  function SetKeys(ops: seq<Op>): set<string> {
    set op | op in ops && !op.Remove? && KeyOf(op.path).Some? :: KeyOf(op.path).value
  }

  /** The bulk update is atomic: all operations or none, and none when one does not apply. */
  function Patched(w: World, ops: seq<Op>): Option<World> {
    match ApplyOps(w.remote, ops)
    case None => None
    case Some(remote) => Some(w.(remote := remote, mine := (w.mine - TouchedKeys(ops)) + SetKeys(ops)))
  }

  /** The call that patches, and the status that follows; `patched` is the world with the patch applied. */
  ghost function Patch(seen: World, patched: Option<World>, desired: Attrs, t: Turns): World {
    var after := if patched.Some? && t.bulk.Applied() then patched.value else seen;
    match t.bulk
    case Crashed(_) => after
    case Refused(err, _) => HandleApiError(after, err, t.statusWrite)
    case Done =>
      if patched.None? then HandleApiError(seen, Http(400), t.statusWrite)
      else UpdateStatusSuccess(after, desired, t.owners, t.statusWrite)
  }

  /** Reading, merging, diffing, patching and recording. The layers and the operations were computed from
      what Get returned; others may have written since. */
  ghost function ReconcileFound(e: Engine, w: World, t: Turns): World {
    var seen := ForeignAll(w, t.meanwhile);
    if t.ops == [] then UpdateStatusSuccess(seen, w.Desired(e), t.owners, t.statusWrite)
    else Patch(seen, Patched(seen, t.ops), w.Desired(e), t)
  }

  ghost function Reconcile(e: Engine, w: World, t: Turns): World {
    match t.get
    case GetDied => w
    case GetFailed(err) =>
      if err == Http(404) then UpdateStatusNotRegistered(w, t.statusWrite) else HandleApiError(w, err, t.statusWrite)
    case Found =>
      if !t.listed then UpdateStatusError(w, SyncFailed, Transport, t.statusWrite) else ReconcileFound(e, w, t)
  }

  // ----- Ownership records -----

  lemma SortedOwnersUnique(a: seq<KeyOwnership>, k: string, i: int, j: int)
    requires StrictlySorted(Keys(a)) && 0 <= i < |a| && 0 <= j < |a| && a[i].key == k && a[j].key == k
    ensures i == j
  {
    StrictlySortedDistinct(Keys(a));
    assert Keys(a)[i] == Keys(a)[j] == k;
  }

  lemma KeysCount(a: seq<KeyOwnership>, b: seq<KeyOwnership>)
    requires StrictlySorted(Keys(a)) && StrictlySorted(Keys(b)) && |a| == |b|
    requires forall k | k in Keys(b) :: k in Keys(a)
    ensures Keys(a) == Keys(b)
  {
    var ka, kb := set k | k in Keys(a), set k | k in Keys(b);
    DistinctCount(Keys(a));
    DistinctCount(Keys(b));
    assert ka == kb + (ka - kb);
    assert ka == kb;
    assert forall k :: k in Keys(a) <==> k in ka;
    StrictlySortedUnique(Keys(a), Keys(b));
  }

  lemma {:induction false} DistinctCount(s: seq<string>)
    requires StrictlySorted(s)
    ensures |set k | k in s| == |s|
  {
    if s != [] {
      StrictlySortedDistinct(s);
      DistinctCount(s[1..]);
      assert (set k | k in s) == {s[0]} + (set k | k in s[1..]);
    }
  }

  lemma EqualSlicesShareKeys(a: seq<KeyOwnership>, b: seq<KeyOwnership>, k: string)
    requires OwnerSlicesEqual(a, b) && k in Keys(b)
    ensures k in Keys(a)
  {
    var j :| 0 <= j < |b| && b[j].key == k;
    assert b[j] in b;
    var i :| LastOf(a, k, i) && a[i] == b[j];
    assert Keys(a)[i] == k;
  }

  /** For records in key order the comparison is equality. */
  lemma OwnerSlicesEqualIsEquality(a: seq<KeyOwnership>, b: seq<KeyOwnership>)
    requires StrictlySorted(Keys(a)) && StrictlySorted(Keys(b))
    ensures OwnerSlicesEqual(a, b) <==> a == b
  {
    if OwnerSlicesEqual(a, b) {
      forall k | k in Keys(b) ensures k in Keys(a) {
        EqualSlicesShareKeys(a, b, k);
      }
      KeysCount(a, b);
      forall j | 0 <= j < |b| ensures a[j] == b[j] {
        assert b[j] in b && Keys(a)[j] == Keys(b)[j];
        var i :| LastOf(a, b[j].key, i) && a[i] == b[j];
        SortedOwnersUnique(a, b[j].key, i, j);
      }
    }
    if a == b {
      forall o | o in b ensures exists i :: LastOf(a, o.key, i) && a[i] == o {
        var i :| 0 <= i < |b| && b[i] == o;
        forall j | i < j < |a| ensures a[j].key != o.key {
          if a[j].key == o.key {
            SortedOwnersUnique(a, o.key, i, j);
          }
        }
        assert LastOf(a, o.key, i);
      }
    }
  }

  lemma OwnedKeysMembers(s: Status)
    ensures forall k :: k in OwnedKeys(s) <==> k in Keys(s.owners)
  {
    StringOrderIsTotal();
    SortMembers(AtMost, Keys(s.owners));
  }

  /** Records in key order are already what sorting gives. */
  lemma OwnedKeysSorted(s: Status)
    requires StrictlySorted(Keys(s.owners))
    ensures OwnedKeys(s) == Keys(s.owners)
  {
    StrictlySortedDistinct(Keys(s.owners));
    assert NoDuplicates(Keys(s.owners));
    SortedDistinct(Keys(s.owners));
    StrictlySortedUnique(OwnedKeys(s), Keys(s.owners));
  }
}
