/** The ExternalAttributeSync controller: what a reconcile writes into status, and when it writes nothing. */
module ExternalSync {
  import opened Common
  import opened Strings
  import opened ExternalSource

  const MAX_OWNED_KEYS := 1000

  datatype Reason = Synced | SourceFailed | Stalled | InvalidSchedule | OwnedKeysExceeded | NotTruncated

  /** The message of a condition, by what it reports. */
  datatype Note = FetchedNote(records: int, applied: int, collectors: int) | SourceSynced
                | ExceededNote(collectors: int)
                | ClaimPreserved | NoRecords | NotStalled | NoNote | Problem(text: string)

  datatype Condition = Condition(ok: bool, reason: Reason, note: Note, generation: nat)

  datatype OwnedEntry = OwnedEntry(collectorId: string, attributes: Attrs)

  /** The status without its two timestamps. */
  datatype Status = Status(ownedKeys: seq<OwnedEntry>, recordsSeen: int, recordsApplied: int, observedGeneration: nat,
                           ready: Option<Condition>, synced: Option<Condition>,
                           stalled: Option<Condition>, truncated: Option<Condition>)

  datatype Sync = Sync(namespace: string, name: string, generation: nat, deleting: bool,
                       allowEmptyResults: bool, mapping: Mapping, status: Status)

  predicate IsTrue(c: Option<Condition>) {
    c.Some? && c.value.ok
  }

  // ----- The claim -----

  function Ids(entries: seq<OwnedEntry>): seq<string> {
    seq(|entries|, i requires 0 <= i < |entries| => entries[i].collectorId)
  }

  /** The projection as status carries it: one entry per collector, in id order. */
  ghost function EntriesOf(owned: Claims): seq<OwnedEntry> {
    var ids := SortedOf(owned.Keys);
    seq(|ids|, i requires 0 <= i < |ids| => OwnedEntry(ids[i], owned[ids[i]]))
  }

  lemma EntriesSorted(owned: Claims)
    ensures StrictlySorted(Ids(EntriesOf(owned))) && |EntriesOf(owned)| == |owned|
    ensures forall e | e in EntriesOf(owned) :: e.collectorId in owned && e.attributes == owned[e.collectorId]
  {
    assert Ids(EntriesOf(owned)) == SortedOf(owned.Keys);
  }

  /** Go's comparison: a key missing on the right reads as the empty string. */
  predicate AttrsEqual(a: Attrs, b: Attrs) {
    |a| == |b| && forall k | k in a :: (if k in b then b[k] else "") == a[k]
  }

  predicate EntriesEqual(a: seq<OwnedEntry>, b: seq<OwnedEntry>) {
    && |a| == |b|
    && forall i | 0 <= i < |a| :: a[i].collectorId == b[i].collectorId && AttrsEqual(a[i].attributes, b[i].attributes)
  }

  method OwnedKeyEntriesEqual(a: seq<OwnedEntry>, b: seq<OwnedEntry>) returns (equal: bool)
    ensures equal <==> EntriesEqual(a, b)
  {
    if |a| != |b| {
      return false;
    }
    for i := 0 to |a|
      invariant forall j | 0 <= j < i ::
                  a[j].collectorId == b[j].collectorId && AttrsEqual(a[j].attributes, b[j].attributes)
    {
      if a[i].collectorId != b[i].collectorId || |a[i].attributes| != |b[i].attributes| {
        return false;
      }
      var todo := a[i].attributes.Keys;
      while todo != {}
        invariant todo <= a[i].attributes.Keys
        invariant forall k | k in a[i].attributes && k !in todo ::
                    (if k in b[i].attributes then b[i].attributes[k] else "") == a[i].attributes[k]
        decreases todo
      {
        var k :| k in todo;
        if (if k in b[i].attributes then b[i].attributes[k] else "") != a[i].attributes[k] {
          return false;
        }
        todo := todo - {k};
      }
    }
    equal := true;
  }

  lemma SameSizeSubset(a: set<string>, b: set<string>)
    requires a <= b && |a| == |b|
    ensures a == b
  {
    assert b == a + (b - a);
    assert |b - a| == 0;
  }

  lemma AttrsEqualExactly(a: Attrs, b: Attrs)
    requires AttrsEqual(a, b)
    ensures a == b <==> a.Keys <= b.Keys
  {
    if a.Keys <= b.Keys {
      SameSizeSubset(a.Keys, b.Keys);
    }
  }

  /** Entries that compare equal are equal exactly when no key of the left one is missing on the right. */
  lemma EntriesEqualExactly(a: seq<OwnedEntry>, b: seq<OwnedEntry>)
    requires EntriesEqual(a, b)
    ensures a == b <==> forall i | 0 <= i < |a| :: a[i].attributes.Keys <= b[i].attributes.Keys
  {
    forall i | 0 <= i < |a|
      ensures a[i].attributes == b[i].attributes <==> a[i].attributes.Keys <= b[i].attributes.Keys
    {
      AttrsEqualExactly(a[i].attributes, b[i].attributes);
    }
    if forall i | 0 <= i < |a| :: a[i].attributes.Keys <= b[i].attributes.Keys {
      assert forall i | 0 <= i < |a| :: a[i] == b[i];
    }
  }

  predicate NoEmptyValues(entries: seq<OwnedEntry>) {
    forall i | 0 <= i < |entries| :: forall k | k in entries[i].attributes :: entries[i].attributes[k] != ""
  }

  /** Without empty values the comparison is equality. */
  lemma EntriesEqualIsEquality(a: seq<OwnedEntry>, b: seq<OwnedEntry>)
    requires NoEmptyValues(a)
    ensures EntriesEqual(a, b) <==> a == b
  {
    if EntriesEqual(a, b) {
      EntriesEqualExactly(a, b);
    }
  }

  /** An attribute with an empty value that the other entry lacks. */
  ghost predicate EmptyAttributeLost(a: seq<OwnedEntry>, b: seq<OwnedEntry>) {
    exists i, k :: 0 <= i < |a| && i < |b| && k in a[i].attributes && a[i].attributes[k] == "" && k !in b[i].attributes
  }

  /** Entries that compare equal are equal exactly when none lost an attribute with an empty value. */
  lemma EntriesEqualUnlessLost(a: seq<OwnedEntry>, b: seq<OwnedEntry>)
    requires EntriesEqual(a, b)
    ensures a == b <==> !EmptyAttributeLost(a, b)
  {
    EntriesEqualExactly(a, b);
    if a != b {
      var i :| 0 <= i < |a| && !(a[i].attributes.Keys <= b[i].attributes.Keys);
      var k :| k in a[i].attributes && k !in b[i].attributes;
      assert AttrsEqual(a[i].attributes, b[i].attributes);
    }
  }

  /** A key renamed while its value is empty goes unnoticed. */
  lemma EmptyValueGoesUnnoticed()
    ensures var a := [OwnedEntry("c", map["team" := ""])]; var b := [OwnedEntry("c", map["owner" := "x"])];
            EntriesEqual(a, b) && a != b
  {
    var m: Attrs, n: Attrs := map["team" := ""], map["owner" := "x"];
    assert |m| == 1 && |n| == 1;
    assert "team" in m && "team" !in n;
  }

  // ----- What is written -----

  function UpdateStatusError(s: Sync, reason: Reason, text: string): Status {
    var c := Some(Condition(false, reason, Problem(text), s.generation));
    s.status.(observedGeneration := s.generation, ready := c, synced := c)
  }

  /** The previous claim and its count are kept. */
  function StallStatus(s: Sync): Status {
    s.status.(recordsSeen := 0, observedGeneration := s.generation,
              stalled := Some(Condition(true, Stalled, ClaimPreserved, s.generation)),
              ready := Some(Condition(false, Stalled, ClaimPreserved, s.generation)),
              synced := Some(Condition(false, Stalled, NoRecords, s.generation)))
  }

  function NotStalledCondition(s: Sync): Option<Condition> {
    Some(Condition(false, Synced, NotStalled, s.generation))
  }

  /** The claim is cleared rather than cut short. */
  function ExceededStatus(s: Sync, seen: nat, applied: nat, collectors: nat): Status {
    var c := Condition(false, OwnedKeysExceeded, ExceededNote(collectors), s.generation);
    Status([], Int32(seen), Int32(applied), s.generation, Some(c), Some(c),
           NotStalledCondition(s), Some(c.(ok := true)))
  }

  function SuccessStatus(s: Sync, seen: nat, applied: nat, entries: seq<OwnedEntry>): Status {
    Status(entries, Int32(seen), Int32(applied), s.generation,
           Some(Condition(true, Synced, FetchedNote(seen, applied, |entries|), s.generation)),
           Some(Condition(true, Synced, SourceSynced, s.generation)),
           NotStalledCondition(s),
           Some(Condition(false, NotTruncated, NoNote, s.generation)))
  }

  predicate StatusUnchanged(s: Sync, seen: nat, applied: nat, entries: seq<OwnedEntry>) {
    && s.status.observedGeneration == s.generation
    && s.status.recordsSeen == Int32(seen) && s.status.recordsApplied == Int32(applied)
    && EntriesEqual(s.status.ownedKeys, entries)
    && !IsTrue(s.status.truncated) && !IsTrue(s.status.stalled)
    && IsTrue(s.status.ready) && IsTrue(s.status.synced)
  }

  predicate ConditionMatches(c: Option<Condition>, ok: bool, reason: Reason, generation: nat) {
    c.Some? && c.value.ok == ok && c.value.reason == reason && c.value.generation == generation
  }

  predicate ExceededUnchanged(s: Sync, seen: nat, applied: nat) {
    && s.status.observedGeneration == s.generation
    && s.status.recordsSeen == Int32(seen) && s.status.recordsApplied == Int32(applied)
    && s.status.ownedKeys == []
    && ConditionMatches(s.status.truncated, true, OwnedKeysExceeded, s.generation)
    && ConditionMatches(s.status.ready, false, OwnedKeysExceeded, s.generation)
    && ConditionMatches(s.status.synced, false, OwnedKeysExceeded, s.generation)
    && !IsTrue(s.status.stalled)
  }

  // ----- One reconcile -----

  /** What a reconcile finds: a failure it reports, a failure before any status, or fetched records and
      the ids of the collectors the selector matches. */
  datatype Attempt =
    | Failure(reason: Reason, text: string)
    | Abandoned
    | Fetch(records: seq<Record>, matched: set<string>)

  ghost predicate Possible(a: Attempt) {
    match a
    case Failure(reason, _) => reason in {SourceFailed, InvalidSchedule}
    case Abandoned => true
    case Fetch(records, _) => AllTyped(records) && |records| < 0x8000_0000
  }

  /** What a fetch writes, given how many records it saw and applied and the whole projection. */
  function FetchWritten(s: Sync, seen: nat, applied: nat, entries: seq<OwnedEntry>): Option<Status> {
    if s.mapping.collectorIdField == "" then
      Some(UpdateStatusError(s, SourceFailed, "spec.mapping.collectorIDField is empty"))
    else if !s.allowEmptyResults && seen == 0 && s.status.recordsApplied > 0 then Some(StallStatus(s))
    else if |entries| > MAX_OWNED_KEYS then
      if ExceededUnchanged(s, seen, applied) then None else Some(ExceededStatus(s, seen, applied, |entries|))
    else if StatusUnchanged(s, seen, applied, entries) then None
    else Some(SuccessStatus(s, seen, applied, entries))
  }

  /** The status a reconcile writes, or None when it writes nothing. */
  ghost function Written(s: Sync, a: Attempt): Option<Status>
    requires a.Fetch? ==> AllTyped(a.records)
  {
    match a
    case Abandoned => None
    case Failure(reason, text) => Some(UpdateStatusError(s, reason, text))
    case Fetch(records, matched) =>
      FetchWritten(s, |records|, AppliedCount(records, s.mapping, matched),
                   EntriesOf(Project(records, s.mapping, matched)))
  }

  function Stored(s: Sync, written: Option<Status>, stored: bool): Sync {
    if written.Some? && stored then s.(status := written.value) else s
  }

  ghost function After(s: Sync, a: Attempt, stored: bool): Sync
    requires a.Fetch? ==> AllTyped(a.records)
  {
    Stored(s, Written(s, a), stored)
  }
}
