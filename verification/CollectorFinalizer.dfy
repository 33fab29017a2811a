/** Deleting a Collector: the keys status records are removed from Fleet, by paths built from the raw keys. */
module CollectorFinalizer {
  import opened Common
  import opened Strings
  import opened JsonPointer
  import opened AttributeDiff
  import opened AttributeMerge
  import opened FleetCalls
  import opened CollectorReconcile
  import opened CollectorRuns

  function FinalizerOps(owned: seq<string>): seq<Op> {
    seq(|owned|, i requires 0 <= i < |owned| => Remove(FinalizerPath(owned[i])))
  }

  /** The world, and whether the finaliser still holds the resource. */
  datatype Held = Held(world: World, finalizer: bool)

  datatype DeleteTurns = DeleteTurns(meanwhile: seq<ForeignWrite>, bulk: Reply, statusWrite: StatusWrite,
                                     update: StatusWrite)

  function Released(w: World, update: StatusWrite): Held {
    Held(w, !update.Stored?)
  }

  /** A collector already gone from Fleet needs no removal. */
  function DeleteRefused(w: World, err: Err, t: DeleteTurns): Held {
    if err == Http(404) then Released(w, t.update)
    else Held(UpdateStatusError(w, DeleteFailed, err, t.statusWrite), true)
  }

  function ReconcileDelete(w: World, t: DeleteTurns): Held {
    var ops := FinalizerOps(OwnedKeys(w.status));
    if ops == [] then Released(w, t.update)
    else
      var seen := ForeignAll(w, t.meanwhile);
      var patched := Patched(seen, ops);
      var after := if patched.Some? && t.bulk.Applied() then patched.value else seen;
      match t.bulk
      case Crashed(_) => Held(after, true)
      case Refused(err, _) => DeleteRefused(after, err, t)
      case Done => if patched.None? then DeleteRefused(after, Http(400), t) else Released(after, t.update)
  }

  // ----- Which keys the raw paths address -----

  predicate HasPair(s: string, a: char, b: char) {
    exists i :: 0 <= i < |s| - 1 && s[i] == a && s[i + 1] == b
  }

  lemma {:induction false} ReplacePairShortens(s: string, a: char, b: char, with: char)
    ensures |ReplacePair(s, a, b, with)| <= |s|
    ensures if HasPair(s, a, b) then |ReplacePair(s, a, b, with)| < |s| else ReplacePair(s, a, b, with) == s
  {
    if |s| >= 2 {
      if s[0] == a && s[1] == b {
        ReplacePairShortens(s[2..], a, b, with);
      } else {
        ReplacePairShortens(s[1..], a, b, with);
        PairInTail(s, a, b);
        assert s == [s[0]] + s[1..];
      }
    }
  }

  lemma PairInTail(s: string, a: char, b: char)
    requires |s| >= 2 && !(s[0] == a && s[1] == b)
    ensures HasPair(s, a, b) <==> HasPair(s[1..], a, b)
  {
    if i :| 0 <= i < |s| - 1 && s[i] == a && s[i + 1] == b {
      assert s[1..][i - 1] == a && s[1..][i] == b;
    }
    if i :| 0 <= i < |s[1..]| - 1 && s[1..][i] == a && s[1..][i + 1] == b {
      assert s[i + 1] == a && s[i + 2] == b;
    }
  }

  /** No slash and no escape sequence. */
  predicate PlainKey(key: string) {
    '/' !in key && !HasPair(key, '~', '0') && !HasPair(key, '~', '1')
  }

  lemma UnescapeShortens(key: string)
    ensures |Unescape(key)| <= |key|
    ensures if HasPair(key, '~', '0') || HasPair(key, '~', '1') then |Unescape(key)| < |key| else Unescape(key) == key
  {
    ReplacePairShortens(key, '~', '1', '/');
    ReplacePairShortens(ReplacePair(key, '~', '1', '/'), '~', '0', '~');
  }

  /** A slash hides the key; otherwise the path addresses the decoded key. */
  lemma FinalizerAddresses(key: string)
    ensures KeyOf(FinalizerPath(key)) == if '/' in key then None else Some(Unescape(key))
    ensures KeyOf(FinalizerPath(key)) == Some(key) <==> PlainKey(key)
  {
    assert FinalizerPath(key)[|PREFIX|..] == key;
    UnescapeShortens(key);
  }

  // ----- What the removal achieves -----

  function KeySet(keys: seq<string>): set<string> {
    set k | k in keys
  }

  ghost function Addressed(keys: seq<string>): set<string> {
    set k | k in keys :: Unescape(k)
  }

  lemma OpsSplit(keys: seq<string>)
    requires keys != []
    ensures FinalizerOps(keys)[0] == Remove(FinalizerPath(keys[0]))
    ensures FinalizerOps(keys)[1..] == FinalizerOps(keys[1..])
  {}

  /** Removals that apply remove what they address, which was there. */
  lemma {:induction false} RemovalsRemove(m: Attrs, keys: seq<string>)
    requires ApplyOps(m, FinalizerOps(keys)).Some?
    ensures Addressed(keys) <= m.Keys && (forall k | k in keys :: '/' !in k)
    ensures ApplyOps(m, FinalizerOps(keys)).value == m - Addressed(keys)
    ensures |Addressed(keys)| == |keys|
    decreases |keys|
  {
    if keys != [] {
      OpsSplit(keys);
      FinalizerAddresses(keys[0]);
      var rest := m - {Unescape(keys[0])};
      RemovalsRemove(rest, keys[1..]);
      assert Unescape(keys[0]) !in Addressed(keys[1..]);
      assert Addressed(keys) == {Unescape(keys[0])} + Addressed(keys[1..]);
      assert m - Addressed(keys) == rest - Addressed(keys[1..]);
    }
  }

  lemma {:induction false} PlainRemovalsApply(m: Attrs, keys: seq<string>)
    requires StrictlySorted(keys) && (forall k | k in keys :: k in m && PlainKey(k))
    ensures ApplyOps(m, FinalizerOps(keys)) == Some(m - KeySet(keys))
    decreases |keys|
  {
    if keys == [] {
      assert m - KeySet(keys) == m;
    } else {
      OpsSplit(keys);
      assert keys[0] in keys;
      FinalizerAddresses(keys[0]);
      StrictlySortedDistinct(keys);
      var rest := m - {keys[0]};
      PlainRemovalsApply(rest, keys[1..]);
      assert KeySet(keys) == {keys[0]} + KeySet(keys[1..]);
      assert m - KeySet(keys) == rest - KeySet(keys[1..]);
    }
  }

  function Longest(keys: seq<string>): (n: nat)
    ensures forall k | k in keys :: |k| <= n
  {
    if keys == [] then 0
    else
      var rest := Longest(keys[1..]);
      assert forall k | k in keys :: k == keys[0] || k in keys[1..];
      if |keys[0]| > rest then |keys[0]| else rest
  }

  /** If decoding permutes the keys, it changes none: a changed key is the decoding of a longer one. */
  lemma {:induction false} DecodingFixes(keys: seq<string>, k: string)
    requires k in keys && (forall j | j in keys :: exists i :: i in keys && Unescape(i) == j)
    ensures Unescape(k) == k
    decreases Longest(keys) - |k|
  {
    UnescapeShortens(k);
    if Unescape(k) != k {
      var i :| i in keys && Unescape(i) == k;
      UnescapeShortens(i);
      DecodingFixes(keys, i);
    }
  }

  /** Removing what is addressed leaves what removing the keys would: then the two are the same keys. */
  lemma AddressedAreTheKeys(remote: Attrs, keys: seq<string>)
    requires StrictlySorted(keys) && ApplyOps(remote, FinalizerOps(keys)) == Some(remote - KeySet(keys))
    ensures Addressed(keys) == KeySet(keys) && KeySet(keys) <= remote.Keys
  {
    RemovalsRemove(remote, keys);
    DistinctCount(keys);
    forall a | a in Addressed(keys) ensures a in KeySet(keys) {
      assert a in remote && a !in remote - KeySet(keys);
    }
    assert KeySet(keys) == Addressed(keys) + (KeySet(keys) - Addressed(keys));
  }

  lemma PermutedKeysArePlain(keys: seq<string>)
    requires Addressed(keys) == KeySet(keys) && forall k | k in keys :: '/' !in k
    ensures forall k | k in keys :: PlainKey(k)
  {
    forall j | j in keys ensures exists i :: i in keys && Unescape(i) == j {
      assert j in KeySet(keys) && j in Addressed(keys);
    }
    forall k | k in keys ensures PlainKey(k) {
      DecodingFixes(keys, k);
      UnescapeShortens(k);
    }
  }

  /** The finaliser's patch applies and removes exactly the recorded keys if and only if they are all still in
      Fleet and none contains a slash or an escape sequence. */
  lemma FinalizerRemovesExactly(remote: Attrs, keys: seq<string>)
    requires StrictlySorted(keys)
    ensures ApplyOps(remote, FinalizerOps(keys)) == Some(remote - KeySet(keys))
       <==> forall k | k in keys :: k in remote && PlainKey(k)
  {
    if ApplyOps(remote, FinalizerOps(keys)) == Some(remote - KeySet(keys)) {
      RemovalsRemove(remote, keys);
      AddressedAreTheKeys(remote, keys);
      PermutedKeysArePlain(keys);
      assert forall k | k in keys :: k in KeySet(keys);
    }
    if forall k | k in keys :: k in remote && PlainKey(k) {
      PlainRemovalsApply(remote, keys);
    }
  }

  /** Every call answered, nobody else writing. */
  predicate CleanDelete(t: DeleteTurns) {
    t.meanwhile == [] && t.bulk.Done? && t.update.Stored?
  }

  lemma CleanDeleteShape(w: World, t: DeleteTurns)
    requires CleanDelete(t)
    ensures var ops := FinalizerOps(OwnedKeys(w.status)); var h := ReconcileDelete(w, t);
            && (ApplyOps(w.remote, ops).Some? ==> !h.finalizer && h.world.remote == ApplyOps(w.remote, ops).value)
            && (ApplyOps(w.remote, ops).None? ==> h.finalizer)
  {}

  /** A clean deletion releases the resource and leaves exactly the other keys if and only if every recorded
      key is still in Fleet and plain. */
  lemma DeletionCleansUp(w: World, t: DeleteTurns)
    requires StrictlySorted(Keys(w.status.owners)) && CleanDelete(t)
    ensures (&& !ReconcileDelete(w, t).finalizer
             && ReconcileDelete(w, t).world.remote == w.remote - KeySet(Keys(w.status.owners)))
       <==> forall k | k in Keys(w.status.owners) :: k in w.remote && PlainKey(k)
  {
    OwnedKeysSorted(w.status);
    CleanDeleteShape(w, t);
    FinalizerRemovesExactly(w.remote, OwnedKeys(w.status));
  }

  // ----- Keys that hold the resource -----

  /** A key with a slash, which nothing addresses, or a plain key that is no longer in Fleet. */
  predicate Blocks(remote: Attrs, k: string) {
    '/' in k || (PlainKey(k) && k !in remote)
  }

  lemma BlockedPatch(m: Attrs, keys: seq<string>, k: string)
    requires k in keys && Blocks(m, k)
    ensures ApplyOps(m, FinalizerOps(keys)).None?
  {
    if ApplyOps(m, FinalizerOps(keys)).Some? {
      UnescapeShortens(k);
      assert Unescape(k) in Addressed(keys);
      RemovalsRemove(m, keys);
    }
  }

  ghost function DeleteAll(w: World, ts: seq<DeleteTurns>): Held
    decreases |ts|
  {
    if ts == [] then Held(w, true)
    else
      var h := ReconcileDelete(w, ts[0]);
      if h.finalizer then DeleteAll(h.world, ts[1..]) else h
  }

  predicate NotGone(t: DeleteTurns) {
    !(t.bulk.Refused? && t.bulk.err == Http(404))
  }

  /** An attempt with a blocking key removes nothing and keeps the finaliser. */
  lemma BlockedOnce(w: World, t: DeleteTurns, k: string)
    requires k in Keys(w.status.owners) && NotGone(t) && Blocks(ForeignAll(w, t.meanwhile).remote, k)
    ensures var h := ReconcileDelete(w, t);
            && h.finalizer && h.world.status.owners == w.status.owners
            && h.world.remote == ForeignAll(w, t.meanwhile).remote
  {
    OwnedKeysMembers(w.status);
    var owned, seen := OwnedKeys(w.status), ForeignAll(w, t.meanwhile);
    assert k in owned;
    assert |FinalizerOps(owned)| == |owned| > 0;
    ForeignAllShape(w, t.meanwhile);
    BlockedPatch(seen.remote, owned, k);
  }

  ghost predicate OthersLeaveKey(t: DeleteTurns, k: string) {
    forall f | f in t.meanwhile :: !WritesKey(f, k)
  }

  /** A recorded key that blocks, and that nobody writes again, holds the resource through any number of
      attempts, for as long as the collector exists in Fleet. */
  lemma {:induction false} BlockedKeyNeverReleased(w: World, ts: seq<DeleteTurns>, k: string)
    requires k in Keys(w.status.owners) && Blocks(w.remote, k)
    requires forall t | t in ts :: NotGone(t) && OthersLeaveKey(t, k)
    ensures DeleteAll(w, ts).finalizer
    decreases |ts|
  {
    if ts != [] {
      assert ts[0] in ts;
      ForeignElsewhere(w, ts[0].meanwhile, k);
      BlockedOnce(w, ts[0], k);
      assert forall t | t in ts[1..] :: t in ts;
      BlockedKeyNeverReleased(ReconcileDelete(w, ts[0]).world, ts[1..], k);
    }
  }

  /** For a key with a slash it does not even matter what others write. */
  lemma {:induction false} SlashedKeyNeverReleased(w: World, ts: seq<DeleteTurns>, k: string)
    requires k in Keys(w.status.owners) && '/' in k && forall t | t in ts :: NotGone(t)
    ensures DeleteAll(w, ts).finalizer
    decreases |ts|
  {
    if ts != [] {
      assert ts[0] in ts;
      BlockedOnce(w, ts[0], k);
      assert forall t | t in ts[1..] :: t in ts;
      SlashedKeyNeverReleased(ReconcileDelete(w, ts[0]).world, ts[1..], k);
    }
  }

  // ----- When the resource is released -----

  /** The removals, if there are any, were applied, or the collector is gone from Fleet. */
  predicate Removed(w: World, t: DeleteTurns) {
    || w.status.owners == []
    || (t.bulk.Refused? && t.bulk.err == Http(404))
    || (t.bulk.Done? && ApplyOps(ForeignAll(w, t.meanwhile).remote, FinalizerOps(OwnedKeys(w.status))).Some?)
  }

  lemma NoOwnersNoOps(w: World)
    ensures FinalizerOps(OwnedKeys(w.status)) == [] <==> w.status.owners == []
  {
    OwnedKeysMembers(w.status);
    assert |w.status.owners| > 0 ==> Keys(w.status.owners)[0] in OwnedKeys(w.status);
    assert |OwnedKeys(w.status)| > 0 ==> OwnedKeys(w.status)[0] in Keys(w.status.owners);
    assert |FinalizerOps(OwnedKeys(w.status))| == |OwnedKeys(w.status)|;
  }

  /** The failed deletion is reported at the current generation. */
  predicate DeletionReported(s: Status, generation: nat) {
    && s.ready.Some? && !s.ready.value.ok && s.ready.value.reason == DeleteFailed
    && s.synced == s.ready && s.observedGeneration == generation
  }

  lemma RefusedShape(w: World, err: Err, t: DeleteTurns)
    ensures var h := DeleteRefused(w, err, t);
            && (!h.finalizer <==> t.update.Stored? && err == Http(404)) && h.world.status.owners == w.status.owners
            && (err != Http(404) && t.statusWrite.Stored? ==> DeletionReported(h.world.status, w.generation))
  {}

  /** The world after the bulk call, whether it took effect or not. */
  lemma CalledShape(w: World, t: DeleteTurns, ops: seq<Op>)
    ensures var seen := ForeignAll(w, t.meanwhile); var patched := Patched(seen, ops);
            && (patched.Some? <==> ApplyOps(seen.remote, ops).Some?)
            && seen.status == w.status && seen.generation == w.generation
            && (patched.Some? ==> patched.value.status == w.status && patched.value.generation == w.generation)
  {
    ForeignAllShape(w, t.meanwhile);
  }

  /** Whatever is answered and whoever interferes, deletion releases the resource if and only if its update is
      stored and nothing was recorded, or the removals were applied and answered, or the collector is gone from
      Fleet. Any other answer is reported, with the records in place for the next attempt. */
  lemma ReleasedExactly(w: World, t: DeleteTurns)
    ensures var h := ReconcileDelete(w, t);
            && (!h.finalizer <==> t.update.Stored? && Removed(w, t))
            && h.world.status.owners == w.status.owners
            && (!Removed(w, t) && !t.bulk.Crashed? && t.statusWrite.Stored? ==>
                  DeletionReported(h.world.status, w.generation))
  {
    NoOwnersNoOps(w);
    var ops := FinalizerOps(OwnedKeys(w.status));
    CalledShape(w, t, ops);
    var seen := ForeignAll(w, t.meanwhile);
    var patched := Patched(seen, ops);
    var after := if patched.Some? && t.bulk.Applied() then patched.value else seen;
    if ops != [] {
      match t.bulk
      case Crashed(_) =>
      case Refused(err, _) => RefusedShape(after, err, t);
      case Done => RefusedShape(after, Http(400), t);
    }
  }
}
