/** The ExternalAttributeSync reconciler in its own form, updating its copy of the status field by field. */
module ExternalSyncController {
  import opened Common
  import opened Strings
  import opened Sorting
  import opened StringSort
  import opened ExternalSource
  import Spec = ExternalSync
  import opened ExternalSync

  /** The keys of a map, collected in no particular order and sorted. */
  method SortedIds(owned: Claims) returns (ids: seq<string>)
    ensures ids == SortedOf(owned.Keys)
  {
    ids := [];
    var todo := owned.Keys;
    ghost var done: set<string> := {};
    while todo != {}
      invariant done + todo == owned.Keys && done !! todo
      invariant NoDuplicates(ids) && forall x :: x in ids <==> x in done
      decreases todo
    {
      var id :| id in todo;
      assert forall i | 0 <= i < |ids| :: ids[i] in ids && ids[i] != id;
      ids, todo, done := ids + [id], todo - {id}, done + {id};
    }
    assert done == owned.Keys;
    SortedDistinctIs(ids, owned.Keys);
    ids := Sort(AtMost, ids);
  }

  method BuildEntries(ids: seq<string>, owned: Claims) returns (entries: seq<OwnedEntry>)
    requires forall i | 0 <= i < |ids| :: ids[i] in owned
    ensures |entries| == |ids|
    ensures forall i | 0 <= i < |ids| :: entries[i] == OwnedEntry(ids[i], owned[ids[i]])
  {
    entries := [];
    for i := 0 to |ids|
      invariant |entries| == i
      invariant forall j | 0 <= j < i :: entries[j] == OwnedEntry(ids[j], owned[ids[j]])
    {
      entries := entries + [OwnedEntry(ids[i], owned[ids[i]])];
    }
  }

  lemma EntriesAre(owned: Claims, ids: seq<string>, entries: seq<OwnedEntry>)
    requires ids == SortedOf(owned.Keys) && |entries| == |ids|
    requires forall i | 0 <= i < |ids| :: ids[i] in owned && entries[i] == OwnedEntry(ids[i], owned[ids[i]])
    ensures entries == EntriesOf(owned)
  {}

  /** Sorted by collector id; past the cap nothing is published at all. */
  method OwnedKeysToStatus(owned: Claims) returns (entries: seq<OwnedEntry>, exceeded: bool)
    ensures exceeded <==> |owned| > MAX_OWNED_KEYS
    ensures entries == if exceeded then [] else EntriesOf(owned)
  {
    if |owned| > MAX_OWNED_KEYS {
      return [], true;
    }
    var ids := SortedIds(owned);
    assert forall i | 0 <= i < |ids| :: ids[i] in ids;
    entries := BuildEntries(ids, owned);
    EntriesAre(owned, ids, entries);
    exceeded := false;
  }

  class ExternalSyncReconciler {
    var sync: Sync

    // The status of the copy that Get returned.
    var ownedKeys: seq<OwnedEntry>
    var recordsSeen: int
    var recordsApplied: int
    var observedGeneration: nat
    var ready: Option<Condition>
    var synced: Option<Condition>
    var stalled: Option<Condition>
    var truncated: Option<Condition>

    constructor (sync: Sync)
      ensures this.sync == sync
    {
      this.sync := sync;
      ownedKeys, recordsSeen, recordsApplied, observedGeneration := [], 0, 0, 0;
      ready, synced, stalled, truncated := None, None, None, None;
    }

    function Mem(): Status
      reads this
    {
      Status(ownedKeys, recordsSeen, recordsApplied, observedGeneration, ready, synced, stalled, truncated)
    }

    method Load()
      modifies this
      ensures sync == old(sync) && Mem() == sync.status
    {
      var s := sync.status;
      ownedKeys, recordsSeen, recordsApplied := s.ownedKeys, s.recordsSeen, s.recordsApplied;
      observedGeneration, ready, synced, stalled, truncated :=
        s.observedGeneration, s.ready, s.synced, s.stalled, s.truncated;
    }

    method WriteStatus(stored: bool)
      modifies this
      ensures sync == Stored(old(sync), Some(old(Mem())), stored) && Mem() == old(Mem())
    {
      if stored {
        sync := sync.(status := Mem());
      }
    }

    method UpdateStatusError(reason: Reason, text: string, stored: bool)
      requires Mem() == sync.status
      modifies this
      ensures sync == Stored(old(sync), Some(Spec.UpdateStatusError(old(sync), reason, text)), stored)
    {
      observedGeneration := sync.generation;
      ready := Some(Condition(false, reason, Problem(text), sync.generation));
      synced := Some(Condition(false, reason, Problem(text), sync.generation));
      WriteStatus(stored);
    }

    /** The empty-result guard: the previous claim and its count stay. */
    method WriteStall(stored: bool)
      requires Mem() == sync.status
      modifies this
      ensures sync == Stored(old(sync), Some(StallStatus(old(sync))), stored)
    {
      recordsSeen, observedGeneration := 0, sync.generation;
      stalled := Some(Condition(true, Stalled, ClaimPreserved, sync.generation));
      ready := Some(Condition(false, Stalled, ClaimPreserved, sync.generation));
      synced := Some(Condition(false, Stalled, NoRecords, sync.generation));
      WriteStatus(stored);
    }

    /** Fail closed: the claim is cleared. */
    method WriteExceeded(seen: nat, applied: nat, collectors: nat, stored: bool)
      requires Mem() == sync.status
      modifies this
      ensures sync == Stored(old(sync), Some(ExceededStatus(old(sync), seen, applied, collectors)), stored)
    {
      recordsSeen, recordsApplied := Int32(seen), Int32(applied);
      ownedKeys, observedGeneration := [], sync.generation;
      truncated := Some(Condition(true, OwnedKeysExceeded, ExceededNote(collectors), sync.generation));
      stalled := NotStalledCondition(sync);
      ready := Some(Condition(false, OwnedKeysExceeded, ExceededNote(collectors), sync.generation));
      synced := Some(Condition(false, OwnedKeysExceeded, ExceededNote(collectors), sync.generation));
      WriteStatus(stored);
    }

    method WriteSuccess(seen: nat, applied: nat, entries: seq<OwnedEntry>, stored: bool)
      requires Mem() == sync.status
      modifies this
      ensures sync == Stored(old(sync), Some(SuccessStatus(old(sync), seen, applied, entries)), stored)
    {
      recordsSeen, recordsApplied := Int32(seen), Int32(applied);
      ownedKeys, observedGeneration := entries, sync.generation;
      truncated := Some(Condition(false, NotTruncated, NoNote, sync.generation));
      stalled := NotStalledCondition(sync);
      ready := Some(Condition(true, Synced, FetchedNote(seen, applied, |entries|), sync.generation));
      synced := Some(Condition(true, Synced, SourceSynced, sync.generation));
      WriteStatus(stored);
    }

    /** Everything after a successful fetch and the listing of the matched collectors. */
    method ReconcileFetched(records: seq<Record>, matched: set<string>, stored: bool)
      requires Mem() == sync.status && AllTyped(records)
      modifies this
      ensures sync == After(old(sync), Fetch(records, matched), stored)
    {
      if sync.mapping.collectorIdField == "" {
        UpdateStatusError(SourceFailed, "spec.mapping.collectorIDField is empty", stored);
        return;
      }
      var owned, applied := ProjectRecords(records, sync.mapping, matched);
      PublishClaim(|records|, applied, owned, stored);
    }

    /** The empty-result guard, the cap, the no-op checks and the writes. */
    method PublishClaim(seen: nat, applied: nat, owned: Claims, stored: bool)
      requires Mem() == sync.status && sync.mapping.collectorIdField != ""
      modifies this
      ensures sync == Stored(old(sync), FetchWritten(old(sync), seen, applied, EntriesOf(owned)), stored)
    {
      ghost var whole := EntriesOf(owned);
      assert |whole| == |owned| by {
        EntriesSorted(owned);
      }
      if !sync.allowEmptyResults && seen == 0 && recordsApplied > 0 {
        WriteStall(stored);
        return;
      }
      var entries, exceeded := OwnedKeysToStatus(owned);
      if exceeded {
        if !ExceededUnchanged(sync, seen, applied) {
          WriteExceeded(seen, applied, |owned|, stored);
        }
      } else if !StatusUnchanged(sync, seen, applied, entries) {
        WriteSuccess(seen, applied, entries, stored);
      }
    }

    /** One reconcile leaves exactly the resource the function gives. */
    method Reconcile(a: Attempt, stored: bool)
      requires a.Fetch? ==> AllTyped(a.records)
      modifies this
      ensures sync == After(old(sync), a, stored)
    {
      Load();
      match a
      case Abandoned =>
      case Failure(reason, text) =>
        UpdateStatusError(reason, text, stored);
      case Fetch(records, matched) =>
        ReconcileFetched(records, matched, stored);
    }
  }
}
