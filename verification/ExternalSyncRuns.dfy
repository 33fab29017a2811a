/** What every run of one ExternalAttributeSync keeps: fetches, failures, stalls, overflows, skipped and
    lost status writes, and spec edits in any order. */
module ExternalSyncRuns {
  import opened Common
  import opened Strings
  import opened ExternalSource
  import opened ExternalSync

  datatype Event =
    | Reconcile(attempt: Attempt, stored: bool)
    | EditSpec(allowEmptyResults: bool, mapping: Mapping)
    | MarkDeleted

  /** The resource, and the complete projection of every fetch so far. */
  datatype World = World(sync: Sync, past: seq<seq<OwnedEntry>>)

  ghost predicate PossibleEvent(e: Event) {
    e.Reconcile? ==> Possible(e.attempt)
  }

  ghost function Apply(w: World, e: Event): World
    requires PossibleEvent(e)
  {
    match e
    case Reconcile(a, stored) =>
      World(After(w.sync, a, stored),
            if a.Fetch? then w.past + [EntriesOf(Project(a.records, w.sync.mapping, a.matched))] else w.past)
    case EditSpec(empty, mapping) =>
      w.(sync := w.sync.(generation := w.sync.generation + 1, allowEmptyResults := empty, mapping := mapping))
    case MarkDeleted => w.(sync := w.sync.(deleting := true))
  }

  ghost function ApplyAll(w: World, es: seq<Event>): World
    requires forall e | e in es :: PossibleEvent(e)
    decreases |es|
  {
    if es == [] then w
    else
      assert es[0] in es;
      ApplyAll(Apply(w, es[0]), es[1..])
  }

  /** The claim is in order, within the cap, backed by applied records, and real. */
  ghost predicate ClaimOk(s: Status) {
    && StrictlySorted(Ids(s.ownedKeys))
    && |s.ownedKeys| <= MAX_OWNED_KEYS && |s.ownedKeys| <= s.recordsApplied
    && (IsTrue(s.truncated) ==> s.ownedKeys == [])
    && forall e | e in s.ownedKeys :: e.collectorId != "" && e.attributes != map[]
  }

  /** Ready=True is only ever what a success write left, whole. */
  ghost predicate ReadyOk(s: Sync) {
    IsTrue(s.status.ready) ==>
      && 0 <= s.status.recordsSeen < 0x8000_0000 && 0 <= s.status.recordsApplied < 0x8000_0000
      && s.status == SuccessStatus(s.(generation := s.status.observedGeneration),
                                   s.status.recordsSeen, s.status.recordsApplied, s.status.ownedKeys)
  }

  /** A Ready that reports an overflow is what the overflow write left, whole. */
  ghost predicate OverflowOk(s: Sync) {
    s.status.ready.Some? && s.status.ready.value.reason == OwnedKeysExceeded ==>
      && 0 <= s.status.recordsSeen < 0x8000_0000 && 0 <= s.status.recordsApplied < 0x8000_0000
      && s.status.ready.value.note.ExceededNote? && s.status.ready.value.note.collectors >= 0
      && s.status == ExceededStatus(s.(generation := s.status.observedGeneration), s.status.recordsSeen,
                                    s.status.recordsApplied, s.status.ready.value.note.collectors)
  }

  ghost predicate Sound(w: World) {
    && ClaimOk(w.sync.status) && ReadyOk(w.sync) && OverflowOk(w.sync)
    && (w.sync.status.ownedKeys == [] || w.sync.status.ownedKeys in w.past)
  }

  lemma ProjectionClaim(s: Sync, records: seq<Record>, matched: set<string>)
    requires Possible(Fetch(records, matched))
    ensures var owned := Project(records, s.mapping, matched); var entries := EntriesOf(owned);
            && StrictlySorted(Ids(entries)) && |entries| == |owned|
            && |owned| <= AppliedCount(records, s.mapping, matched) <= |records|
            && (forall e | e in entries :: e.collectorId != "" && e.attributes != map[])
  {
    var owned := Project(records, s.mapping, matched);
    EntriesSorted(owned);
    ClaimsAtMostApplied(records, s.mapping, matched, owned);
    forall e | e in EntriesOf(owned) ensures e.collectorId != "" && e.attributes != map[] {
      ClaimsAreReal(records, s.mapping, matched, e.collectorId);
    }
  }

  lemma SuccessIsSound(s: Sync, seen: nat, applied: nat, entries: seq<OwnedEntry>)
    requires seen < 0x8000_0000 && applied < 0x8000_0000
    requires StrictlySorted(Ids(entries)) && |entries| <= MAX_OWNED_KEYS && |entries| <= applied
    requires forall e | e in entries :: e.collectorId != "" && e.attributes != map[]
    ensures var s' := s.(status := SuccessStatus(s, seen, applied, entries));
            ClaimOk(s'.status) && ReadyOk(s') && OverflowOk(s')
  {
    Int32Exact(seen);
    Int32Exact(applied);
  }

  /** The statuses a fetch can write, given the size of its projection and what it holds. */
  ghost predicate FetchWrites(s: Sync, status: Status, seen: nat, applied: nat, entries: seq<OwnedEntry>) {
    || status == s.status
    || (exists text :: status == UpdateStatusError(s, SourceFailed, text))
    || status == StallStatus(s)
    || (|entries| > MAX_OWNED_KEYS && status == ExceededStatus(s, seen, applied, |entries|))
    || (|entries| <= MAX_OWNED_KEYS && status == SuccessStatus(s, seen, applied, entries))
  }

  lemma FetchWritesOne(s: Sync, seen: nat, applied: nat, entries: seq<OwnedEntry>, stored: bool)
    ensures var s' := Stored(s, FetchWritten(s, seen, applied, entries), stored);
            s' == s.(status := s'.status) && FetchWrites(s, s'.status, seen, applied, entries)
  {}

  lemma FetchWriteIsSound(s: Sync, status: Status, seen: nat, applied: nat, entries: seq<OwnedEntry>)
    requires ClaimOk(s.status) && ReadyOk(s) && OverflowOk(s) && FetchWrites(s, status, seen, applied, entries)
    requires seen < 0x8000_0000 && applied < 0x8000_0000
    requires StrictlySorted(Ids(entries)) && |entries| <= applied
    requires forall e | e in entries :: e.collectorId != "" && e.attributes != map[]
    ensures ClaimOk(status) && ReadyOk(s.(status := status)) && OverflowOk(s.(status := status))
    ensures status.ownedKeys == s.status.ownedKeys || status.ownedKeys == [] || status.ownedKeys == entries
  {
    Int32Exact(seen);
    Int32Exact(applied);
    if |entries| <= MAX_OWNED_KEYS && status == SuccessStatus(s, seen, applied, entries) {
      SuccessIsSound(s, seen, applied, entries);
    }
  }

  lemma FetchKeepsSound(w: World, records: seq<Record>, matched: set<string>, stored: bool)
    requires Sound(w) && Possible(Fetch(records, matched))
    ensures Sound(Apply(w, Reconcile(Fetch(records, matched), stored)))
  {
    var s := w.sync;
    var entries := EntriesOf(Project(records, s.mapping, matched));
    ProjectionClaim(s, records, matched);
    FetchApplies(w, records, matched, stored);
    var applied := AppliedCount(records, s.mapping, matched);
    FetchWritesOne(s, |records|, applied, entries, stored);
    var s' := Stored(s, FetchWritten(s, |records|, applied, entries), stored);
    FetchWriteIsSound(s, s'.status, |records|, applied, entries);
    PastGrows(w, s', entries);
  }

  lemma FetchApplies(w: World, records: seq<Record>, matched: set<string>, stored: bool)
    requires Possible(Fetch(records, matched))
    ensures var s := w.sync; var entries := EntriesOf(Project(records, s.mapping, matched));
            Apply(w, Reconcile(Fetch(records, matched), stored)) ==
            World(Stored(s, FetchWritten(s, |records|, AppliedCount(records, s.mapping, matched), entries), stored),
                  w.past + [entries])
  {}

  lemma PastGrows(w: World, s: Sync, entries: seq<OwnedEntry>)
    requires Sound(w) && ClaimOk(s.status) && ReadyOk(s) && OverflowOk(s)
    requires s.status.ownedKeys == w.sync.status.ownedKeys || s.status.ownedKeys == [] || s.status.ownedKeys == entries
    ensures Sound(World(s, w.past + [entries]))
  {
    assert entries in w.past + [entries];
    assert forall p | p in w.past :: p in w.past + [entries];
  }

  lemma StepKeepsSound(w: World, e: Event)
    requires Sound(w) && PossibleEvent(e)
    ensures Sound(Apply(w, e))
  {
    match e
    case Reconcile(a, stored) =>
      if a.Fetch? {
        FetchKeepsSound(w, a.records, a.matched, stored);
      }
    case _ =>
  }

  /** Over every run the claim is strictly sorted, within the cap, no longer than the applied records,
      empty while Truncated is set, and either empty or the complete projection of one past fetch. */
  lemma {:induction false} ClaimInvariant(w: World, es: seq<Event>)
    requires Sound(w) && forall e | e in es :: PossibleEvent(e)
    ensures Sound(ApplyAll(w, es))
    decreases |es|
  {
    if es != [] {
      assert es[0] in es;
      StepKeepsSound(w, es[0]);
      ClaimInvariant(Apply(w, es[0]), es[1..]);
    }
  }

  /** A new resource starts such a run. */
  lemma FreshIsSound(s: Sync)
    requires s.status == Status([], 0, 0, 0, None, None, None, None)
    ensures Sound(World(s, []))
  {}

  /** Unless the spec allows empty results, a fetch of nothing never changes the claim. */
  lemma EmptyFetchKeepsClaim(w: World, es: seq<Event>, matched: set<string>, stored: bool)
    requires Sound(w) && forall e | e in es :: PossibleEvent(e)
    requires !ApplyAll(w, es).sync.allowEmptyResults
    ensures var v := ApplyAll(w, es);
            Apply(v, Reconcile(Fetch([], matched), stored)).sync.status.ownedKeys == v.sync.status.ownedKeys
  {
    ClaimInvariant(w, es);
    var s := ApplyAll(w, es).sync;
    assert Project([], s.mapping, matched) == map[];
    EntriesSorted(map[]);
    assert EntriesOf(map[]) == [];
  }

  /** On reachable statuses the success write would change nothing but timestamps exactly when the no-op
      check skips it and no published entry lost an attribute with an empty value. */
  lemma SkipIsExact(w: World, es: seq<Event>, records: seq<Record>, matched: set<string>)
    requires Sound(w) && forall e | e in es :: PossibleEvent(e)
    requires Possible(Fetch(records, matched))
    ensures var s := ApplyAll(w, es).sync;
            var applied := AppliedCount(records, s.mapping, matched);
            var entries := EntriesOf(Project(records, s.mapping, matched));
            SuccessStatus(s, |records|, applied, entries) == s.status <==>
              StatusUnchanged(s, |records|, applied, entries) && !EmptyAttributeLost(s.status.ownedKeys, entries)
  {
    ClaimInvariant(w, es);
    var s := ApplyAll(w, es).sync;
    var applied := AppliedCount(records, s.mapping, matched);
    var entries := EntriesOf(Project(records, s.mapping, matched));
    ProjectionClaim(s, records, matched);
    SkipIsExactFor(s, |records|, applied, entries);
  }

  lemma SkipIsExactFor(s: Sync, seen: nat, applied: nat, entries: seq<OwnedEntry>)
    requires ReadyOk(s) && seen < 0x8000_0000 && applied < 0x8000_0000
    ensures SuccessStatus(s, seen, applied, entries) == s.status <==>
              StatusUnchanged(s, seen, applied, entries) && !EmptyAttributeLost(s.status.ownedKeys, entries)
  {
    Int32Exact(seen);
    Int32Exact(applied);
    if StatusUnchanged(s, seen, applied, entries) {
      EntriesEqualUnlessLost(s.status.ownedKeys, entries);
      assert s.(generation := s.status.observedGeneration) == s;
    }
    if SuccessStatus(s, seen, applied, entries) == s.status {
      EntriesEqualSelf(entries);
    }
  }

  lemma EntriesEqualSelf(a: seq<OwnedEntry>)
    ensures EntriesEqual(a, a) && !EmptyAttributeLost(a, a)
  {}

  /** On reachable statuses the overflow write would change nothing but timestamps exactly when its check
      skips it and the message in place already counts as many collectors: a different overflow with the same
      record counts is skipped, and the old count stays. */
  lemma OverflowSkipExactly(w: World, es: seq<Event>, records: seq<Record>, matched: set<string>)
    requires Sound(w) && forall e | e in es :: PossibleEvent(e)
    requires Possible(Fetch(records, matched))
    ensures var s := ApplyAll(w, es).sync;
            var applied := AppliedCount(records, s.mapping, matched);
            var collectors := |EntriesOf(Project(records, s.mapping, matched))|;
            ExceededStatus(s, |records|, applied, collectors) == s.status <==>
              ExceededUnchanged(s, |records|, applied) && s.status.ready.value.note == ExceededNote(collectors)
  {
    ClaimInvariant(w, es);
    var s := ApplyAll(w, es).sync;
    ProjectionClaim(s, records, matched);
    OverflowSkipFor(s, |records|, AppliedCount(records, s.mapping, matched),
                    |EntriesOf(Project(records, s.mapping, matched))|);
  }

  lemma OverflowSkipFor(s: Sync, seen: nat, applied: nat, collectors: nat)
    requires OverflowOk(s) && seen < 0x8000_0000 && applied < 0x8000_0000
    ensures ExceededStatus(s, seen, applied, collectors) == s.status <==>
              ExceededUnchanged(s, seen, applied) && s.status.ready.value.note == ExceededNote(collectors)
  {
    Int32Exact(seen);
    Int32Exact(applied);
    if ExceededUnchanged(s, seen, applied) {
      assert s.(generation := s.status.observedGeneration) == s;
    }
  }

  // ----- What a stored fetch leaves -----

  /** The empty-result guard. */
  predicate Guarded(s: Sync, records: seq<Record>) {
    !s.allowEmptyResults && records == [] && s.status.recordsApplied > 0
  }

  /** The condition is set to this value at the resource's current generation. */
  predicate Current(c: Option<Condition>, ok: bool, generation: nat) {
    c.Some? && c.value.ok == ok && c.value.generation == generation
  }

  /** The published entries are these, or still the old ones, which compare equal although one of them lost
      an attribute with an empty value. */
  ghost predicate Publishes(before: seq<OwnedEntry>, after: seq<OwnedEntry>, entries: seq<OwnedEntry>) {
    after == entries || (after == before && EntriesEqual(before, entries) && EmptyAttributeLost(before, entries))
  }

  /** The whole projection is published, and every condition says so at the current generation. */
  ghost predicate Published(s: Sync, t: Sync, seen: int, applied: int, entries: seq<OwnedEntry>) {
    && Publishes(s.status.ownedKeys, t.status.ownedKeys, entries)
    && t.status.recordsSeen == seen && t.status.recordsApplied == applied
    && t.status.observedGeneration == t.generation
    && Current(t.status.ready, true, t.generation) && Current(t.status.synced, true, t.generation)
    && !IsTrue(t.status.stalled) && !IsTrue(t.status.truncated)
  }

  /** Nothing is published, and Truncated, Ready and Synced say so at the current generation. */
  ghost predicate FailedClosed(t: Sync, seen: int, applied: int) {
    && t.status.ownedKeys == [] && t.status.recordsSeen == seen && t.status.recordsApplied == applied
    && t.status.observedGeneration == t.generation && Current(t.status.truncated, true, t.generation)
    && Current(t.status.ready, false, t.generation) && Current(t.status.synced, false, t.generation)
    && !IsTrue(t.status.stalled)
  }

  /** The claim and what backs it are kept, and Stalled, Ready and Synced say so at the current generation. */
  ghost predicate Kept(s: Sync, t: Sync) {
    && t.status.ownedKeys == s.status.ownedKeys && t.status.recordsApplied == s.status.recordsApplied
    && t.status.recordsSeen == 0 && t.status.truncated == s.status.truncated
    && t.status.observedGeneration == t.generation && Current(t.status.stalled, true, t.generation)
    && Current(t.status.ready, false, t.generation) && Current(t.status.synced, false, t.generation)
  }

  lemma PublishedFor(s: Sync, seen: nat, applied: nat, entries: seq<OwnedEntry>)
    requires ReadyOk(s) && seen < 0x8000_0000 && applied < 0x8000_0000 && s.mapping.collectorIdField != ""
    requires s.allowEmptyResults || seen > 0 || s.status.recordsApplied <= 0
    ensures var t := Stored(s, FetchWritten(s, seen, applied, entries), true);
            if |entries| <= MAX_OWNED_KEYS then Published(s, t, seen, applied, entries)
            else FailedClosed(t, seen, applied)
  {
    Int32Exact(seen);
    Int32Exact(applied);
    if StatusUnchanged(s, seen, applied, entries) {
      EntriesEqualUnlessLost(s.status.ownedKeys, entries);
    }
  }

  /** Over every run, a stored fetch with a usable mapping publishes its whole projection, or nothing when it
      is over the cap, unless the source returned nothing where records were applied before and the spec does
      not allow that; then the claim stays. Stalled says exactly which. */
  lemma StoredFetchPublishes(w: World, es: seq<Event>, records: seq<Record>, matched: set<string>)
    requires Sound(w) && (forall e | e in es :: PossibleEvent(e)) && Possible(Fetch(records, matched))
    requires ApplyAll(w, es).sync.mapping.collectorIdField != ""
    ensures var s := ApplyAll(w, es).sync;
            var t := Apply(ApplyAll(w, es), Reconcile(Fetch(records, matched), true)).sync;
            var entries := EntriesOf(Project(records, s.mapping, matched));
            var applied := AppliedCount(records, s.mapping, matched);
            && t == s.(status := t.status)
            && (Guarded(s, records) ==> Kept(s, t))
            && (!Guarded(s, records) && |entries| <= 1000 ==> Published(s, t, |records|, applied, entries))
            && (!Guarded(s, records) && |entries| > 1000 ==> FailedClosed(t, |records|, applied))
            && (IsTrue(t.status.stalled) <==> Guarded(s, records))
  {
    ClaimInvariant(w, es);
    var v := ApplyAll(w, es);
    var s := v.sync;
    ProjectionClaim(s, records, matched);
    FetchApplies(v, records, matched, true);
    if !Guarded(s, records) {
      PublishedFor(s, |records|, AppliedCount(records, s.mapping, matched),
                   EntriesOf(Project(records, s.mapping, matched)));
    }
  }

  /** A stored failure, or a fetch with an unusable mapping, keeps everything but Ready and Synced. */
  lemma FailureKeepsClaim(w: World, a: Attempt)
    requires Possible(a) && !a.Abandoned?
    requires a.Fetch? ==> w.sync.mapping.collectorIdField == ""
    ensures var s := w.sync; var t := Apply(w, Reconcile(a, true)).sync;
            && Current(t.status.ready, false, t.generation) && Current(t.status.synced, false, t.generation)
            && t == s.(status := s.status.(observedGeneration := s.generation, ready := t.status.ready,
                                           synced := t.status.synced))
  {}
}
