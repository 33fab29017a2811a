/** Who wins an attribute, said of the listed syncs and policies themselves: no sorted list and no layer. */
module CollectorPrecedence {
  import opened Common
  import opened Strings
  import opened Sorting
  import opened AttributeMerge
  import opened SelectorMatch
  import opened ExternalSync
  import opened CollectorLayers
  import opened CollectorReconcile
  import opened CollectorRuns

  // ----- Syncs -----

  /** A sync that is not truncated publishes this value for the collector's key. */
  ghost predicate SyncGives(s: Sync, id: string, k: string, v: string) {
    && !(s.status.truncated.Some? && s.status.truncated.value.ok)
    && exists i :: EntryAt(s.status.ownedKeys, id, i)
                   && k in s.status.ownedKeys[i].attributes && s.status.ownedKeys[i].attributes[k] == v
  }

  ghost predicate SyncClaimsKey(s: Sync, id: string, k: string) {
    exists v :: SyncGives(s, id, k, v)
  }

  function GivenAt(s: Sync, id: string, k: string): Option<string> {
    match SyncClaim(s, id)
    case None => None
    case Some(l) => At(l.attrs, k)
  }

  lemma SyncClaimIsGiven(s: Sync, id: string, k: string)
    ensures forall v :: SyncGives(s, id, k, v) <==> GivenAt(s, id, k) == Some(v)
    ensures SyncClaimsKey(s, id, k) <==> GivenAt(s, id, k).Some?
  {
    var entries := s.status.ownedKeys;
    FindEntryMeans(entries, id);
    if i :| EntryAt(entries, id, i) {
      var j :| EntryAt(entries, id, j) && entries[j] == FindEntry(entries, id).value;
      assert i == j;
    }
    if GivenAt(s, id, k).Some? {
      assert SyncGives(s, id, k, GivenAt(s, id, k).value);
    }
  }

  /** The first sync of a list that claims the key decides its value. */
  ghost predicate FirstSync(syncs: seq<Sync>, id: string, k: string, i: int) {
    && 0 <= i < |syncs| && SyncClaimsKey(syncs[i], id, k)
    && forall j | 0 <= j < i :: !SyncClaimsKey(syncs[j], id, k)
  }

  /** `attrs` has the key with the value its first claiming sync gives, or nobody claims it. */
  ghost predicate DecidedBy(syncs: seq<Sync>, id: string, k: string, attrs: Attrs) {
    if k in attrs then exists i :: FirstSync(syncs, id, k, i) && SyncGives(syncs[i], id, k, attrs[k])
    else forall i | 0 <= i < |syncs| :: !SyncClaimsKey(syncs[i], id, k)
  }

  lemma OneMoreSync(front: seq<Sync>, s: Sync, id: string, k: string, before: Attrs, after: Attrs)
    requires DecidedBy(front, id, k, before)
    requires At(after, k) == if k in before then At(before, k) else GivenAt(s, id, k)
    ensures DecidedBy(front + [s], id, k, after)
  {
    SyncClaimIsGiven(s, id, k);
    if k in before {
      var i :| FirstSync(front, id, k, i) && SyncGives(front[i], id, k, before[k]);
      assert FirstSync(front + [s], id, k, i);
    } else if SyncClaimsKey(s, id, k) {
      assert FirstSync(front + [s], id, k, |front|);
    }
  }

  lemma ResolveNext(claims: seq<Layer>, last: Layer, k: string)
    ensures At(Resolve(claims + [last]), k) ==
            if k in Resolve(claims) then At(Resolve(claims), k) else At(last.attrs, k)
  {
    ResolveLast(claims, last);
  }

  /** What the claims of a list resolve to. */
  function GivenBy(syncs: seq<Sync>, id: string): Attrs {
    Resolve(SyncClaims(syncs, id))
  }

  lemma ResolveNextSync(syncs: seq<Sync>, n: nat, id: string, k: string)
    requires n < |syncs|
    ensures var before := GivenBy(syncs[..n], id);
            At(GivenBy(syncs[..n + 1], id), k) == if k in before then At(before, k) else GivenAt(syncs[n], id, k)
  {
    SyncClaimsNext(syncs, n, id);
    if SyncClaim(syncs[n], id).Some? {
      ResolveNext(SyncClaims(syncs[..n], id), SyncClaim(syncs[n], id).value, k);
    }
  }

  lemma {:induction false} FirstSyncDecides(syncs: seq<Sync>, n: nat, id: string, k: string)
    requires n <= |syncs|
    ensures DecidedBy(syncs[..n], id, k, GivenBy(syncs[..n], id))
  {
    if n > 0 {
      FirstSyncDecides(syncs, n - 1, id, k);
      ResolveNextSync(syncs, n - 1, id, k);
      assert syncs[..n] == syncs[..n - 1] + [syncs[n - 1]];
      OneMoreSync(syncs[..n - 1], syncs[n - 1], id, k, GivenBy(syncs[..n - 1], id), GivenBy(syncs[..n], id));
    }
  }

  /** The sync claims the key and every other listed one that does has the greater full name. */
  ghost predicate SyncWins(syncs: seq<Sync>, s: Sync, id: string, k: string, v: string) {
    && s in syncs && SyncGives(s, id, k, v)
    && forall t | t in syncs && t != s && SyncClaimsKey(t, id, k) ::
         Less(s.namespace + "/" + s.name, t.namespace + "/" + t.name)
  }

  /** The external layer takes each key from the claiming sync with the least full name. */
  lemma ExternalKeyFromLeastName(namespace: string, syncs: seq<Sync>, id: string, k: string)
    requires SyncsOf(namespace, syncs)
    ensures var attrs := Combined(Kind.ExternalSync, SyncClaims(SortedSyncs(syncs), id)).attrs;
            if k in attrs then exists s :: SyncWins(syncs, s, id, k, attrs[k])
            else forall s | s in syncs :: !SyncClaimsKey(s, id, k)
  {
    var sorted := SortedSyncs(syncs);
    SyncOrderIsTotal();
    SortMembers(SyncAtMost, syncs);
    SortIsSortedPermutation(SyncAtMost, syncs);
    FirstSyncDecides(sorted, |sorted|, id, k);
    assert sorted[..|sorted|] == sorted;
    var attrs := GivenBy(sorted, id);
    if k in attrs {
      var i :| FirstSync(sorted, id, k, i) && SyncGives(sorted[i], id, k, attrs[k]);
      var s := sorted[i];
      forall t | t in syncs && t != s && SyncClaimsKey(t, id, k)
        ensures Less(FullName(s.namespace, s.name), FullName(t.namespace, t.name))
      {
        var j :| 0 <= j < |sorted| && sorted[j] == t;
        assert i < j && SyncAtMost(s, t);
        if FullName(s.namespace, s.name) == FullName(t.namespace, t.name) {
          FullNameInjective(namespace, s.name, t.name);
        }
      }
      assert SyncWins(syncs, s, id, k, attrs[k]);
    }
  }

  // ----- Policies -----

  /** A policy that selects the collector and sets the key. */
  predicate PolicyClaimsKey(e: Engine, p: Policy, id: string, localAttributes: Attrs, k: string) {
    Match(e, p.selector, id, localAttributes) && k in p.attributes
  }

  ghost predicate FirstPolicy(e: Engine, policies: seq<Policy>, id: string, localAttributes: Attrs, k: string, i: int) {
    && 0 <= i < |policies| && k in policies[i].attributes
    && forall j | 0 <= j < i :: k !in policies[j].attributes
  }

  lemma {:induction false} FirstPolicyDecides(e: Engine, policies: seq<Policy>, id: string, localAttributes: Attrs,
                                              k: string)
    ensures k in Resolve(PolicyClaims(policies)) ==>
              exists i :: FirstPolicy(e, policies, id, localAttributes, k, i)
                          && policies[i].attributes[k] == Resolve(PolicyClaims(policies))[k]
    ensures k !in Resolve(PolicyClaims(policies)) ==> forall p | p in policies :: k !in p.attributes
  {
    if policies != [] {
      var n := |policies| - 1;
      var front := policies[..n];
      FirstPolicyDecides(e, front, id, localAttributes, k);
      ResolveLast(PolicyClaims(front), PolicyClaim(policies[n]));
      if k in Resolve(PolicyClaims(front)) {
        var i :| FirstPolicy(e, front, id, localAttributes, k, i)
                 && front[i].attributes[k] == Resolve(PolicyClaims(front))[k];
        assert FirstPolicy(e, policies, id, localAttributes, k, i);
      } else {
        assert forall j | 0 <= j < n :: policies[j] == front[j] && policies[j] in front;
        assert k in Resolve(PolicyClaims(policies)) ==> FirstPolicy(e, policies, id, localAttributes, k, n);
      }
    }
  }

  /** The policy claims the key, and every other listed one that does has a lower priority, or the same
      priority and the greater full name. */
  ghost predicate PolicyWins(e: Engine, policies: seq<Policy>, p: Policy, id: string, localAttributes: Attrs,
                             k: string) {
    && p in policies && PolicyClaimsKey(e, p, id, localAttributes, k)
    && forall q | q in policies && q != p && PolicyClaimsKey(e, q, id, localAttributes, k) ::
         || q.priority < p.priority
         || (q.priority == p.priority && Less(p.namespace + "/" + p.name, q.namespace + "/" + q.name))
  }

  lemma MatchingIsMatched(e: Engine, policies: seq<Policy>, id: string, localAttributes: Attrs, p: Policy)
    ensures p in MatchingPolicies(e, policies, id, localAttributes) <==>
              p in policies && Match(e, p.selector, id, localAttributes)
  {
    var a := MatchingPolicies(e, policies, id, localAttributes);
    MatchingCount(e, policies, id, localAttributes, p);
    assert p in a <==> p in multiset(a);
    assert p in policies <==> p in multiset(policies);
  }

  /** The policy layer takes each key from the claiming policy of highest priority, then least full name. */
  lemma PolicyKeyFromHighestPriority(namespace: string, e: Engine, policies: seq<Policy>, id: string,
                                     localAttributes: Attrs, k: string)
    requires PoliciesOf(namespace, policies)
    ensures var attrs := Combined(Kind.Policy, PolicyClaims(SortedPolicies(e, policies, id, localAttributes))).attrs;
            if k in attrs
            then exists p :: PolicyWins(e, policies, p, id, localAttributes, k) && attrs[k] == p.attributes[k]
            else forall p | p in policies :: !PolicyClaimsKey(e, p, id, localAttributes, k)
  {
    var sorted := SortedPolicies(e, policies, id, localAttributes);
    var matching := MatchingPolicies(e, policies, id, localAttributes);
    PolicyOrderIsTotal();
    SortMembers(PolicyAtMost, matching);
    SortIsSortedPermutation(PolicyAtMost, matching);
    forall p ensures p in sorted <==> p in policies && Match(e, p.selector, id, localAttributes) {
      MatchingIsMatched(e, policies, id, localAttributes, p);
    }
    FirstPolicyDecides(e, sorted, id, localAttributes, k);
    var attrs := Resolve(PolicyClaims(sorted));
    if k in attrs {
      var i :| FirstPolicy(e, sorted, id, localAttributes, k, i) && sorted[i].attributes[k] == attrs[k];
      FirstOfSortedWins(namespace, e, policies, sorted, id, localAttributes, k, i);
    }
  }

  lemma FirstOfSortedWins(namespace: string, e: Engine, policies: seq<Policy>, sorted: seq<Policy>, id: string,
                          localAttributes: Attrs, k: string, i: int)
    requires PoliciesOf(namespace, policies) && Sorted(PolicyAtMost, sorted)
    requires forall p :: p in sorted <==> p in policies && Match(e, p.selector, id, localAttributes)
    requires FirstPolicy(e, sorted, id, localAttributes, k, i)
    ensures PolicyWins(e, policies, sorted[i], id, localAttributes, k)
  {
    var p := sorted[i];
    assert p in sorted;
    forall q | q in policies && q != p && PolicyClaimsKey(e, q, id, localAttributes, k)
      ensures || q.priority < p.priority
              || (q.priority == p.priority && Less(p.namespace + "/" + p.name, q.namespace + "/" + q.name))
    {
      assert q in sorted;
      var j :| 0 <= j < |sorted| && sorted[j] == q;
      assert i < j && PolicyAtMost(p, q);
      if FullName(p.namespace, p.name) == FullName(q.namespace, q.name) {
        FullNameInjective(namespace, p.name, q.name);
      }
    }
  }

  // ----- End to end -----

  ghost predicate NoSync(inp: Inputs, id: string, k: string) {
    forall s | s in inp.syncs :: !SyncClaimsKey(s, id, k)
  }

  ghost predicate NoPolicy(e: Engine, inp: Inputs, id: string, localAttributes: Attrs, k: string) {
    forall p | p in inp.policies :: !PolicyClaimsKey(e, p, id, localAttributes, k)
  }

  /** The value the key is to have: from a sync, else from the spec, else from a policy. */
  ghost predicate Wanted(e: Engine, inp: Inputs, id: string, localAttributes: Attrs, k: string, v: string) {
    if !NoSync(inp, id, k) then exists s :: SyncWins(inp.syncs, s, id, k, v)
    else if k in inp.spec.attrs then v == inp.spec.attrs[k]
    else exists p :: PolicyWins(e, inp.policies, p, id, localAttributes, k) && v == p.attributes[k]
  }

  ghost predicate Unclaimed(e: Engine, inp: Inputs, id: string, localAttributes: Attrs, k: string) {
    NoSync(inp, id, k) && k !in inp.spec.attrs && NoPolicy(e, inp, id, localAttributes, k)
  }

  lemma DesiredIsWanted(e: Engine, w: World, namespace: string, k: string)
    requires SyncsOf(namespace, w.inputs.syncs) && PoliciesOf(namespace, w.inputs.policies)
    ensures k in w.Desired(e) ==> Wanted(e, w.inputs, w.id, w.localAttributes, k, w.Desired(e)[k])
    ensures k !in w.Desired(e) ==> Unclaimed(e, w.inputs, w.id, w.localAttributes, k)
  {
    var inp := w.inputs;
    ExternalKeyFromLeastName(namespace, inp.syncs, w.id, k);
    PolicyKeyFromHighestPriority(namespace, e, inp.policies, w.id, w.localAttributes, k);
    var layers := w.LayersOf(e);
    ResolveThree(layers[0], layers[1], layers[2]);
  }

  lemma ResolveThree(a: Layer, b: Layer, c: Layer)
    ensures Resolve([a, b, c]) == c.attrs + (b.attrs + a.attrs)
  {
    assert [a, b, c] == [a, b] + [c];
    ResolveLast([a, b], c);
    assert [a, b] == [a] + [b];
    ResolveLast([a], b);
    ResolveOne(a);
  }

  /** A clean reconcile gives every claimed key the value of its winner: the claiming sync with the least full
      name, else the spec, else the claiming policy of highest priority and then least full name. A key nobody
      claims is removed if status records it, and left alone otherwise. */
  lemma FleetFollowsPrecedence(e: Engine, w: World, t: Turns, namespace: string, k: string)
    requires StrictlySorted(Keys(w.status.owners)) && Computed(e, w, t) && Clean(t)
    requires SyncsOf(namespace, w.inputs.syncs) && PoliciesOf(namespace, w.inputs.policies)
    ensures var after := At(Reconcile(e, w, t).remote, k);
            if Unclaimed(e, w.inputs, w.id, w.localAttributes, k)
            then after == (if k in Keys(w.status.owners) then None else At(w.remote, k))
            else after.Some? && Wanted(e, w.inputs, w.id, w.localAttributes, k, after.value)
  {
    CleanRunRemote(e, w, t);
    OwnedKeysMembers(w.status);
    DesiredIsWanted(e, w, namespace, k);
  }
}
