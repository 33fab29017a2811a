/** Waking the Collector controller when another resource changes one of its layers. */
module Handoff {
  import opened Common
  import opened Strings
  import opened Sorting
  import opened AttributeMerge
  import opened SelectorMatch
  import opened ExternalSync
  import Runs = ExternalSyncRuns
  import opened CollectorLayers

  /** What the watch handlers read of a Collector. */
  datatype CollectorRef = CollectorRef(name: string, id: string, localAttributes: Attrs)

  // ----- The handler for external syncs -----

  function TouchedIds(entries: seq<OwnedEntry>): set<string> {
    set e | e in entries && e.collectorId != "" :: e.collectorId
  }

  method CollectorIdsFromOwnedKeys(entries: seq<OwnedEntry>) returns (ids: set<string>)
    ensures ids == TouchedIds(entries)
  {
    ids := {};
    for i := 0 to |entries|
      invariant ids == TouchedIds(entries[..i])
    {
      assert entries[..i + 1] == entries[..i] + [entries[i]];
      if entries[i].collectorId != "" {
        ids := ids + {entries[i].collectorId};
      }
    }
    assert entries[..|entries|] == entries;
  }

  /** The names of the collectors that satisfy a test, in list order. */
  function Selected(collectors: seq<CollectorRef>, test: CollectorRef -> bool): seq<string> {
    if collectors == [] then []
    else
      var n := |collectors| - 1;
      Selected(collectors[..n], test) + if test(collectors[n]) then [collectors[n].name] else []
  }

  lemma {:induction false} SelectedHas(collectors: seq<CollectorRef>, test: CollectorRef -> bool, c: CollectorRef)
    requires c in collectors && test(c)
    ensures c.name in Selected(collectors, test)
  {
    var n := |collectors| - 1;
    if c in collectors[..n] {
      SelectedHas(collectors[..n], test, c);
    }
  }

  function TouchedBy(s: Sync, collectors: seq<CollectorRef>): seq<string> {
    Selected(collectors, (c: CollectorRef) => c.id in TouchedIds(s.status.ownedKeys))
  }

  lemma {:induction false} SelectedNone(collectors: seq<CollectorRef>, test: CollectorRef -> bool)
    requires forall c :: !test(c)
    ensures Selected(collectors, test) == []
  {
    if collectors != [] {
      SelectedNone(collectors[..|collectors| - 1], test);
    }
  }

  /** A failing list of collectors wakes nobody. */
  method CollectorsTouchedBySync(s: Sync, collectors: seq<CollectorRef>, listed: bool) returns (requests: seq<string>)
    ensures requests == if listed then TouchedBy(s, collectors) else []
  {
    var touched := CollectorIdsFromOwnedKeys(s.status.ownedKeys);
    ghost var test := (c: CollectorRef) => c.id in TouchedIds(s.status.ownedKeys);
    if touched == {} {
      SelectedNone(collectors, test);
      return [];
    }
    if !listed {
      return [];
    }
    requests := [];
    for i := 0 to |collectors|
      invariant requests == Selected(collectors[..i], test)
    {
      assert collectors[..i + 1][..i] == collectors[..i];
      if collectors[i].id in touched {
        requests := requests + [collectors[i].name];
      }
    }
    assert collectors[..|collectors|] == collectors;
  }

  /** Creation and deletion always pass; an update passes on a new generation, a new deletion state, or
      entries that compare different. */
  predicate SyncChangePasses(before: Option<Sync>, after: Option<Sync>) {
    before.Some? && after.Some? ==>
      || before.value.generation != after.value.generation
      || before.value.deleting != after.value.deleting
      || !EntriesEqual(before.value.status.ownedKeys, after.value.status.ownedKeys)
  }

  function TouchedByEither(before: Option<Sync>, after: Option<Sync>, collectors: seq<CollectorRef>): seq<string> {
    (if before.Some? then TouchedBy(before.value, collectors) else [])
    + (if after.Some? then TouchedBy(after.value, collectors) else [])
  }

  function WokenBySync(before: Option<Sync>, after: Option<Sync>, collectors: seq<CollectorRef>): seq<string> {
    if SyncChangePasses(before, after) then TouchedByEither(before, after, collectors) else []
  }

  // ----- Claims in name order -----

  predicate ClaimAtMost(a: Layer, b: Layer) {
    AtMost(a.owner, b.owner)
  }

  lemma {:induction false} SyncClaimsConcat(a: seq<Sync>, b: seq<Sync>, id: string)
    ensures SyncClaims(a + b, id) == SyncClaims(a, id) + SyncClaims(b, id)
    decreases |b|
  {
    if b == [] {
      assert a + b == a;
    } else {
      var n := |b| - 1;
      assert (a + b)[..|a + b| - 1] == a + b[..n];
      SyncClaimsConcat(a, b[..n], id);
    }
  }

  function One<T>(o: Option<T>): seq<T> {
    match o case None => [] case Some(x) => [x]
  }

  lemma SyncClaimsHead(s: seq<Sync>, id: string)
    requires s != []
    ensures SyncClaims(s, id) == One(SyncClaim(s[0], id)) + SyncClaims(s[1..], id)
  {
    assert s == [s[0]] + s[1..];
    SyncClaimsConcat([s[0]], s[1..], id);
    assert [s[0]][..0] == [];
  }

  lemma {:induction false} ClaimOwners(s: seq<Sync>, id: string, l: Layer)
    requires l in SyncClaims(s, id)
    ensures exists x :: x in s && l.owner == FullName(x.namespace, x.name)
  {
    var n := |s| - 1;
    if l in SyncClaims(s[..n], id) {
      ClaimOwners(s[..n], id, l);
    } else {
      assert s[n] in s;
    }
  }

  function InsertClaim(l: Option<Layer>, claims: seq<Layer>): seq<Layer> {
    if l.Some? then Insert(ClaimAtMost, l.value, claims) else claims
  }

  /** Inserting a sync inserts its claim, if it has one. */
  lemma {:induction false} InsertClaims(x: Sync, s: seq<Sync>, id: string)
    requires TotalPreorder(SyncAtMost) && Sorted(SyncAtMost, s)
    ensures SyncClaims(Insert(SyncAtMost, x, s), id) == InsertClaim(SyncClaim(x, id), SyncClaims(s, id))
  {
    if s == [] {
      SyncClaimsHead([x], id);
    } else if SyncAtMost(s[0], x) {
      InsertClaims(x, s[1..], id);
      HeadThenInserted(x, s, id);
    } else {
      LaterClaims(x, s, id);
    }
  }

  lemma HeadThenInserted(x: Sync, s: seq<Sync>, id: string)
    requires s != [] && SyncAtMost(s[0], x)
    requires SyncClaims(Insert(SyncAtMost, x, s[1..]), id) == InsertClaim(SyncClaim(x, id), SyncClaims(s[1..], id))
    ensures SyncClaims(Insert(SyncAtMost, x, s), id) == InsertClaim(SyncClaim(x, id), SyncClaims(s, id))
  {
    var t := Insert(SyncAtMost, x, s);
    SyncClaimsHead(t, id);
    assert t[1..] == Insert(SyncAtMost, x, s[1..]);
    SyncClaimsHead(s, id);
    InsertBehind(SyncClaim(s[0], id), SyncClaim(x, id), SyncClaims(s[1..], id));
  }

  lemma InsertBehind(head: Option<Layer>, l: Option<Layer>, rest: seq<Layer>)
    requires head.Some? && l.Some? ==> ClaimAtMost(head.value, l.value)
    ensures InsertClaim(l, One(head) + rest) == One(head) + InsertClaim(l, rest)
  {
    if head.Some? {
      assert (One(head) + rest)[1..] == rest;
    } else {
      assert One(head) + rest == rest;
      assert One(head) + InsertClaim(l, rest) == InsertClaim(l, rest);
    }
  }

  lemma LaterClaims(x: Sync, s: seq<Sync>, id: string)
    requires TotalPreorder(SyncAtMost) && Sorted(SyncAtMost, s) && s != [] && !SyncAtMost(s[0], x)
    ensures SyncClaims([x] + s, id) == InsertClaim(SyncClaim(x, id), SyncClaims(s, id))
  {
    SyncClaimsHead([x] + s, id);
    assert ([x] + s)[1..] == s;
    var claims := SyncClaims(s, id);
    if claims != [] && SyncClaim(x, id).Some? {
      LaterOwner(x, s, id, claims[0]);
    }
  }

  lemma LaterOwner(x: Sync, s: seq<Sync>, id: string, l: Layer)
    requires TotalPreorder(SyncAtMost) && Sorted(SyncAtMost, s) && s != [] && !SyncAtMost(s[0], x)
    requires l in SyncClaims(s, id)
    ensures !AtMost(l.owner, FullName(x.namespace, x.name))
  {
    ClaimOwners(s, id, l);
    var y :| y in s && l.owner == FullName(y.namespace, y.name);
    var j :| 0 <= j < |s| && s[j] == y;
    assert SyncAtMost(s[0], y);
    assert !SyncAtMost(y, x);
  }

  /** The claims of the sorted syncs are the sorted claims of the syncs. */
  lemma {:induction false} ClaimsCommuteWithSorting(s: seq<Sync>, id: string)
    ensures SyncClaims(SortedSyncs(s), id) == Sort(ClaimAtMost, SyncClaims(s, id))
  {
    if s != [] {
      var n := |s| - 1;
      SyncOrderIsTotal();
      SortIsSortedPermutation(SyncAtMost, s[..n]);
      ClaimsCommuteWithSorting(s[..n], id);
      InsertClaims(s[n], SortedSyncs(s[..n]), id);
      var front, last := SyncClaims(s[..n], id), One(SyncClaim(s[n], id));
      assert SyncClaims(s, id) == front + last;
      if last == [] {
        assert front + last == front;
      } else {
        assert (front + last)[..|front|] == front;
      }
    }
  }

  // ----- Completeness for external syncs -----

  /** The list of syncs with one of them in this state, or missing. */
  function Listed<T>(front: seq<T>, it: Option<T>, back: seq<T>): seq<T> {
    front + One(it) + back
  }

  function ClaimOf(it: Option<Sync>, id: string): Option<Layer> {
    if it.Some? then SyncClaim(it.value, id) else None
  }

  /** The external layer, given the listed syncs. */
  function ExternalLayer(syncs: seq<Sync>, id: string): Layer {
    Combined(ExternalSync, SyncClaims(SortedSyncs(syncs), id))
  }

  lemma ListedClaims(front: seq<Sync>, it: Option<Sync>, back: seq<Sync>, id: string)
    ensures SyncClaims(Listed(front, it, back), id) ==
            SyncClaims(front, id) + One(ClaimOf(it, id)) + SyncClaims(back, id)
  {
    SyncClaimsConcat(front + One(it), back, id);
    SyncClaimsConcat(front, One(it), id);
    if it.Some? {
      SyncClaimsHead(One(it), id);
    }
  }

  /** One sync's change reaches the layer only through its own claim. */
  lemma LayerDependsOnClaim(front: seq<Sync>, back: seq<Sync>, before: Option<Sync>, after: Option<Sync>, id: string)
    requires ClaimOf(before, id) == ClaimOf(after, id)
    ensures ExternalLayer(Listed(front, before, back), id) == ExternalLayer(Listed(front, after, back), id)
  {
    ListedClaims(front, before, back, id);
    ListedClaims(front, after, back, id);
    ClaimsCommuteWithSorting(Listed(front, before, back), id);
    ClaimsCommuteWithSorting(Listed(front, after, back), id);
  }

  ghost predicate ClaimHeld(it: Option<Sync>) {
    it.Some? ==> Runs.ClaimOk(it.value.status)
  }

  /** A sync that claims something for the collector lists its id, which is not empty. */
  lemma ClaimIsTouched(s: Sync, id: string)
    requires Runs.ClaimOk(s.status) && SyncClaim(s, id).Some?
    ensures id in TouchedIds(s.status.ownedKeys)
  {
    FindEntryMeans(s.status.ownedKeys, id);
    var i :| EntryAt(s.status.ownedKeys, id, i);
    assert s.status.ownedKeys[i] in s.status.ownedKeys;
  }

  /** With the same published entries a sync claims the same, truncated or not. */
  lemma SameEntriesSameClaim(s: Sync, t: Sync, id: string)
    requires Runs.ClaimOk(s.status) && Runs.ClaimOk(t.status) && s.status.ownedKeys == t.status.ownedKeys
    requires s.namespace == t.namespace && s.name == t.name
    ensures SyncClaim(s, id) == SyncClaim(t, id)
  {}

  ghost predicate SameResource(before: Option<Sync>, after: Option<Sync>) {
    before.Some? && after.Some? ==>
      before.value.namespace == after.value.namespace && before.value.name == after.value.name
  }

  /** At one generation and deletion state, the entries compare equal although one lost an attribute with an
      empty value. */
  ghost predicate Unheard(before: Option<Sync>, after: Option<Sync>) {
    && before.Some? && after.Some?
    && before.value.generation == after.value.generation && before.value.deleting == after.value.deleting
    && EntriesEqual(before.value.status.ownedKeys, after.value.status.ownedKeys)
    && EmptyAttributeLost(before.value.status.ownedKeys, after.value.status.ownedKeys)
  }

  /** Any creation, deletion or status step of a sync that changes a Collector's external layer passes the
      watch predicate and enqueues that Collector from the old or new object, unless it goes unheard. */
  lemma SyncChangeWakes(front: seq<Sync>, back: seq<Sync>, before: Option<Sync>, after: Option<Sync>,
                        collectors: seq<CollectorRef>, c: CollectorRef)
    requires ClaimHeld(before) && ClaimHeld(after) && SameResource(before, after)
    requires ExternalLayer(Listed(front, before, back), c.id) != ExternalLayer(Listed(front, after, back), c.id)
    requires c in collectors
    ensures c.name in WokenBySync(before, after, collectors) <==> !Unheard(before, after)
  {
    if ClaimOf(before, c.id) == ClaimOf(after, c.id) {
      LayerDependsOnClaim(front, back, before, after, c.id);
    }
    if before.Some? && after.Some? && EntriesEqual(before.value.status.ownedKeys, after.value.status.ownedKeys) {
      EntriesEqualUnlessLost(before.value.status.ownedKeys, after.value.status.ownedKeys);
      if before.value.status.ownedKeys == after.value.status.ownedKeys {
        SameEntriesSameClaim(before.value, after.value, c.id);
      }
    }
    if ClaimOf(before, c.id).Some? {
      ClaimIsTouched(before.value, c.id);
      SelectedHas(collectors, (x: CollectorRef) => x.id in TouchedIds(before.value.status.ownedKeys), c);
    } else {
      ClaimIsTouched(after.value, c.id);
      SelectedHas(collectors, (x: CollectorRef) => x.id in TouchedIds(after.value.status.ownedKeys), c);
    }
  }

  /** So for every step of every run of the sync controller. */
  lemma RunStepWakes(w: Runs.World, es: seq<Runs.Event>, ev: Runs.Event, front: seq<Sync>, back: seq<Sync>,
                     collectors: seq<CollectorRef>, c: CollectorRef)
    requires Runs.Sound(w) && (forall e | e in es :: Runs.PossibleEvent(e)) && Runs.PossibleEvent(ev)
    requires var v := Runs.ApplyAll(w, es); var s, t := v.sync, Runs.Apply(v, ev).sync;
             && c in collectors
             && ExternalLayer(Listed(front, Some(s), back), c.id) != ExternalLayer(Listed(front, Some(t), back), c.id)
    ensures var v := Runs.ApplyAll(w, es); var s, t := Some(v.sync), Some(Runs.Apply(v, ev).sync);
            c.name in WokenBySync(s, t, collectors) <==> !Unheard(s, t)
  {
    var v := Runs.ApplyAll(w, es);
    Runs.ClaimInvariant(w, es);
    Runs.StepKeepsSound(v, ev);
    SyncChangeWakes(front, back, Some(v.sync), Some(Runs.Apply(v, ev).sync), collectors, c);
  }

  /** A status step that changes the published entries is turned down by the watch predicate exactly when
      the entries compare equal although one of them lost an attribute with an empty value. */
  lemma ChangeUnheardExactly(s: Sync, t: Sync)
    requires s.generation == t.generation && s.deleting == t.deleting
    ensures var a, b := s.status.ownedKeys, t.status.ownedKeys;
            (a != b && !SyncChangePasses(Some(s), Some(t))) <==> (EntriesEqual(a, b) && EmptyAttributeLost(a, b))
  {
    var a, b := s.status.ownedKeys, t.status.ownedKeys;
    if EntriesEqual(a, b) {
      EntriesEqualUnlessLost(a, b);
    }
  }

  /** With an empty value the published claim can change unheard. */
  lemma EmptyValueChangeIsUnheard(s: Sync)
    requires !IsTrue(s.status.truncated)
    ensures var a := s.(status := s.status.(ownedKeys := [OwnedEntry("c", map["team" := ""])]));
            var b := s.(status := s.status.(ownedKeys := [OwnedEntry("c", map["owner" := "x"])]));
            SyncClaim(a, "c") != SyncClaim(b, "c") && !SyncChangePasses(Some(a), Some(b))
  {
    EmptyValueGoesUnnoticed();
    var m: Attrs, n: Attrs := map["team" := ""], map["owner" := "x"];
    assert "team" in m && "team" !in n;
  }

  // ----- Completeness for policies -----

  datatype PolicyObject = PolicyObject(policy: Policy, generation: nat, deleting: bool)

  predicate PolicyChangePasses(before: Option<PolicyObject>, after: Option<PolicyObject>) {
    before.Some? && after.Some? ==>
      before.value.generation != after.value.generation || before.value.deleting != after.value.deleting
  }

  /** Matching uses the local attributes the Collector's status repeats. */
  method CollectorsMatchedByPolicy(e: Engine, p: PolicyObject, collectors: seq<CollectorRef>, listed: bool)
    returns (requests: seq<string>)
    ensures requests == if listed then MatchedBy(e, p, collectors) else []
  {
    requests := [];
    if !listed {
      return;
    }
    for i := 0 to |collectors|
      invariant requests == MatchedBy(e, p, collectors[..i])
    {
      assert collectors[..i + 1][..i] == collectors[..i];
      if Match(e, p.policy.selector, collectors[i].id, collectors[i].localAttributes) {
        requests := requests + [collectors[i].name];
      }
    }
    assert collectors[..|collectors|] == collectors;
  }

  function MatchedBy(e: Engine, p: PolicyObject, collectors: seq<CollectorRef>): seq<string> {
    Selected(collectors, (c: CollectorRef) => PolicyMatches(e, p.policy, c.id, c.localAttributes))
  }

  function WokenByPolicy(e: Engine, before: Option<PolicyObject>, after: Option<PolicyObject>,
                         collectors: seq<CollectorRef>): seq<string> {
    if PolicyChangePasses(before, after) then
      (if before.Some? then MatchedBy(e, before.value, collectors) else [])
      + (if after.Some? then MatchedBy(e, after.value, collectors) else [])
    else []
  }

  lemma {:induction false} MatchingConcat(e: Engine, a: seq<Policy>, b: seq<Policy>, id: string, localAttributes: Attrs)
    ensures MatchingPolicies(e, a + b, id, localAttributes) ==
            MatchingPolicies(e, a, id, localAttributes) + MatchingPolicies(e, b, id, localAttributes)
    decreases |b|
  {
    if b == [] {
      assert a + b == a;
    } else {
      var n := |b| - 1;
      assert (a + b)[..|a + b| - 1] == a + b[..n];
      MatchingConcat(e, a, b[..n], id, localAttributes);
    }
  }

  function PolicyOf(p: Option<PolicyObject>): Option<Policy> {
    if p.Some? then Some(p.value.policy) else None
  }

  function PolicyLayerOf(e: Engine, policies: seq<Policy>, id: string, localAttributes: Attrs): Layer {
    Combined(Kind.Policy, PolicyClaims(SortedPolicies(e, policies, id, localAttributes)))
  }

  lemma UnmatchedPolicyIsInvisible(e: Engine, front: seq<Policy>, p: Option<Policy>, back: seq<Policy>, id: string,
                                   localAttributes: Attrs)
    requires p.Some? ==> !PolicyMatches(e, p.value, id, localAttributes)
    ensures MatchingPolicies(e, Listed(front, p, back), id, localAttributes) ==
            MatchingPolicies(e, front, id, localAttributes) + MatchingPolicies(e, back, id, localAttributes)
  {
    MatchingConcat(e, front + One(p), back, id, localAttributes);
    MatchingConcat(e, front, One(p), id, localAttributes);
    UnmatchedOne(e, p, id, localAttributes);
  }

  lemma UnmatchedOne(e: Engine, p: Option<Policy>, id: string, localAttributes: Attrs)
    requires p.Some? ==> !PolicyMatches(e, p.value, id, localAttributes)
    ensures MatchingPolicies(e, One(p), id, localAttributes) == []
  {
    assert p.Some? ==> One(p)[..0] == [];
  }

  lemma {:induction false} SelectedOnly(collectors: seq<CollectorRef>, test: CollectorRef -> bool, name: string)
    requires name in Selected(collectors, test)
    ensures exists x :: x in collectors && test(x) && x.name == name
  {
    var n := |collectors| - 1;
    if name in Selected(collectors[..n], test) {
      SelectedOnly(collectors[..n], test, name);
    } else {
      assert collectors[n] in collectors;
    }
  }

  lemma MatchedByExactly(e: Engine, p: PolicyObject, collectors: seq<CollectorRef>, c: CollectorRef)
    requires c in collectors && forall x | x in collectors :: x.name == c.name ==> x == c
    ensures c.name in MatchedBy(e, p, collectors) <==> PolicyMatches(e, p.policy, c.id, c.localAttributes)
  {
    var test := (x: CollectorRef) => PolicyMatches(e, p.policy, x.id, x.localAttributes);
    if test(c) {
      SelectedHas(collectors, test, c);
    }
    if c.name in MatchedBy(e, p, collectors) {
      SelectedOnly(collectors, test, c.name);
    }
  }

  predicate MatchesWith(e: Engine, p: Option<PolicyObject>, id: string, localAttributes: Attrs) {
    p.Some? && PolicyMatches(e, p.value.policy, id, localAttributes)
  }

  /** Any creation, deletion or edit of a policy that changes the policy layer of a Collector, with whatever
      local attributes Fleet has for it, enqueues it if and only if the old or the new policy matches the
      local attributes its status repeats; when those are Fleet's, it does. */
  lemma PolicyChangeWakes(e: Engine, front: seq<Policy>, back: seq<Policy>, before: Option<PolicyObject>,
                          after: Option<PolicyObject>,
                          collectors: seq<CollectorRef>, c: CollectorRef, live: Attrs)
    requires before.Some? && after.Some? && before.value.generation == after.value.generation ==>
               before.value.policy == after.value.policy
    requires c in collectors && forall x | x in collectors :: x.name == c.name ==> x == c
    requires PolicyLayerOf(e, Listed(front, PolicyOf(before), back), c.id, live)
          != PolicyLayerOf(e, Listed(front, PolicyOf(after), back), c.id, live)
    ensures c.name in WokenByPolicy(e, before, after, collectors) <==>
            MatchesWith(e, before, c.id, c.localAttributes) || MatchesWith(e, after, c.id, c.localAttributes)
    ensures MatchesWith(e, before, c.id, live) || MatchesWith(e, after, c.id, live)
  {
    if before.Some? {
      MatchedByExactly(e, before.value, collectors, c);
    }
    if after.Some? {
      MatchedByExactly(e, after.value, collectors, c);
    }
    if !MatchesWith(e, before, c.id, live) && !MatchesWith(e, after, c.id, live) {
      UnmatchedPolicyIsInvisible(e, front, PolicyOf(before), back, c.id, live);
      UnmatchedPolicyIsInvisible(e, front, PolicyOf(after), back, c.id, live);
    }
  }
}
