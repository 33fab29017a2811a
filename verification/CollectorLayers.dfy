/** The three layers a Collector's remote attributes are merged from, and the flat order they amount to. */
module CollectorLayers {
  import opened Common
  import opened Strings
  import opened Sorting
  import opened StringSort
  import opened AttributeMerge
  import opened SelectorMatch
  import PolicyController
  import opened ExternalSync

  type Policy = PolicyController.Policy

  function FullName(namespace: string, name: string): string {
    namespace + "/" + name
  }

  // ----- External syncs -----

  /** A truncated sync's claim is not consumed. */
  predicate Usable(s: Sync) {
    !IsTrue(s.status.truncated)
  }

  /** The first entry for the collector. */
  ghost predicate EntryAt(entries: seq<OwnedEntry>, id: string, i: int) {
    && 0 <= i < |entries| && entries[i].collectorId == id
    && forall j | 0 <= j < i :: entries[j].collectorId != id
  }

  function FindEntry(entries: seq<OwnedEntry>, id: string): Option<OwnedEntry> {
    if entries == [] then None
    else if entries[0].collectorId == id then Some(entries[0])
    else FindEntry(entries[1..], id)
  }

  method FindOwnedEntry(entries: seq<OwnedEntry>, id: string) returns (entry: Option<OwnedEntry>)
    ensures entry == FindEntry(entries, id)
  {
    for i := 0 to |entries|
      invariant FindEntry(entries, id) == FindEntry(entries[i..], id)
    {
      if entries[i].collectorId == id {
        return Some(entries[i]);
      }
    }
    entry := None;
  }

  lemma {:induction false} FindEntryMeans(entries: seq<OwnedEntry>, id: string)
    ensures FindEntry(entries, id).None? ==> forall i | 0 <= i < |entries| :: entries[i].collectorId != id
    ensures FindEntry(entries, id).Some? ==>
              exists i :: EntryAt(entries, id, i) && entries[i] == FindEntry(entries, id).value
  {
    if entries != [] {
      if entries[0].collectorId == id {
        assert EntryAt(entries, id, 0);
      } else {
        FindEntryMeans(entries[1..], id);
        if FindEntry(entries, id).Some? {
          var i :| EntryAt(entries[1..], id, i) && entries[1..][i] == FindEntry(entries, id).value;
          assert EntryAt(entries, id, i + 1);
        } else {
          assert forall i | 1 <= i < |entries| :: entries[i] == entries[1..][i - 1];
        }
      }
    }
  }

  /** What one sync contributes to the collector, if anything. */
  function SyncClaim(s: Sync, id: string): Option<Layer> {
    if !Usable(s) then None
    else
      match FindEntry(s.status.ownedKeys, id)
      case None => None
      case Some(e) => Some(Layer(ExternalSync, FullName(s.namespace, s.name), e.attributes))
  }

  /** The contributions of syncs, in their order. */
  function SyncClaims(syncs: seq<Sync>, id: string): seq<Layer> {
    if syncs == [] then []
    else
      var n := |syncs| - 1;
      SyncClaims(syncs[..n], id) + match SyncClaim(syncs[n], id) case Some(l) => [l] case None => []
  }

  predicate SyncAtMost(a: Sync, b: Sync) {
    AtMost(FullName(a.namespace, a.name), FullName(b.namespace, b.name))
  }

  function SortedSyncs(syncs: seq<Sync>): seq<Sync> {
    Sort(SyncAtMost, syncs)
  }

  // ----- Policies -----

  predicate PolicyMatches(e: Engine, p: Policy, id: string, localAttributes: Attrs) {
    Match(e, p.selector, id, localAttributes)
  }

  function MatchingPolicies(e: Engine, policies: seq<Policy>, id: string, localAttributes: Attrs): seq<Policy> {
    if policies == [] then []
    else
      var n := |policies| - 1;
      MatchingPolicies(e, policies[..n], id, localAttributes)
      + if PolicyMatches(e, policies[n], id, localAttributes) then [policies[n]] else []
  }

  /** Higher priority first, then by name. */
  predicate PolicyAtMost(a: Policy, b: Policy) {
    a.priority > b.priority
    || (a.priority == b.priority && AtMost(FullName(a.namespace, a.name), FullName(b.namespace, b.name)))
  }

  function PolicyClaim(p: Policy): Layer {
    Layer(Kind.Policy, FullName(p.namespace, p.name), p.attributes)
  }

  function PolicyClaims(policies: seq<Policy>): seq<Layer> {
    if policies == [] then [] else PolicyClaims(policies[..|policies| - 1]) + [PolicyClaim(policies[|policies| - 1])]
  }

  function SortedPolicies(e: Engine, policies: seq<Policy>, id: string, localAttributes: Attrs): seq<Policy> {
    Sort(PolicyAtMost, MatchingPolicies(e, policies, id, localAttributes))
  }

  // ----- The layers -----

  /** Several contributions resolved into one layer, owned by the first contributor. */
  function Combined(kind: Kind, claims: seq<Layer>): Layer {
    Layer(kind, if claims == [] then "" else claims[0].owner, Resolve(claims))
  }

  datatype Inputs = Inputs(syncs: seq<Sync>, spec: Layer, policies: seq<Policy>)

  function ExternalClaims(inp: Inputs, id: string): seq<Layer> {
    SyncClaims(SortedSyncs(inp.syncs), id)
  }

  function PolicyLayerClaims(e: Engine, inp: Inputs, id: string, localAttributes: Attrs): seq<Layer> {
    PolicyClaims(SortedPolicies(e, inp.policies, id, localAttributes))
  }

  /** What the reconciler merges: external syncs over the collector's own spec over policies. */
  function Layers(e: Engine, inp: Inputs, id: string, localAttributes: Attrs): seq<Layer> {
    [Combined(ExternalSync, ExternalClaims(inp, id)), inp.spec,
     Combined(Kind.Policy, PolicyLayerClaims(e, inp, id, localAttributes))]
  }

  /** The same contributors in one flat order. */
  function FlatClaims(e: Engine, inp: Inputs, id: string, localAttributes: Attrs): seq<Layer> {
    ExternalClaims(inp, id) + [inp.spec] + PolicyLayerClaims(e, inp, id, localAttributes)
  }

  /** Fills the keys nobody claimed yet. */
  method FillUnclaimed(resolved: Attrs, attrs: Attrs) returns (filled: Attrs)
    ensures filled == attrs + resolved
  {
    filled := resolved;
    var todo := attrs.Keys;
    while todo != {}
      invariant todo <= attrs.Keys
      invariant filled == (map k | k in attrs && k !in todo :: attrs[k]) + resolved
      decreases todo
    {
      var k :| k in todo;
      if k !in filled {
        filled := filled[k := attrs[k]];
      }
      todo := todo - {k};
    }
    assert (map k | k in attrs && k !in todo :: attrs[k]) == attrs;
  }

  /** What was aggregated from these contributions, in order. */
  ghost predicate Aggregated(claims: seq<Layer>, resolved: Attrs, owners: seq<string>) {
    && resolved == Resolve(claims)
    && |owners| == |claims| && forall j | 0 <= j < |owners| :: owners[j] == claims[j].owner
  }

  lemma AggregateNext(claims: seq<Layer>, resolved: Attrs, owners: seq<string>, l: Layer, filled: Attrs)
    requires Aggregated(claims, resolved, owners) && filled == l.attrs + resolved
    ensures Aggregated(claims + [l], filled, owners + [l.owner])
  {
    ResolveLast(claims, l);
  }

  lemma SyncClaimsNext(sorted: seq<Sync>, i: nat, id: string)
    requires i < |sorted|
    ensures SyncClaims(sorted[..i + 1], id) == match SyncClaim(sorted[i], id)
                                               case None => SyncClaims(sorted[..i], id)
                                               case Some(l) => SyncClaims(sorted[..i], id) + [l]
  {
    assert sorted[..i + 1][..i] == sorted[..i];
  }

  method ExternalSyncLayer(syncs: seq<Sync>, id: string) returns (layer: Layer)
    ensures layer == Combined(ExternalSync, SyncClaims(SortedSyncs(syncs), id))
  {
    var sorted := SortedSyncs(syncs);
    var resolved: Attrs := map[];
    var owners: seq<string> := [];
    for i := 0 to |sorted|
      invariant Aggregated(SyncClaims(sorted[..i], id), resolved, owners)
    {
      var s := sorted[i];
      SyncClaimsNext(sorted, i, id);
      if Usable(s) {
        var entry := FindOwnedEntry(s.status.ownedKeys, id);
        if entry.Some? {
          var filled := FillUnclaimed(resolved, entry.value.attributes);
          AggregateNext(SyncClaims(sorted[..i], id), resolved, owners,
                        Layer(ExternalSync, FullName(s.namespace, s.name), entry.value.attributes), filled);
          owners, resolved := owners + [FullName(s.namespace, s.name)], filled;
        }
      }
    }
    assert sorted[..|sorted|] == sorted;
    layer := Layer(ExternalSync, if |owners| > 0 then owners[0] else "", resolved);
  }

  method MatchPolicies(e: Engine, policies: seq<Policy>, id: string, localAttributes: Attrs)
    returns (matches: seq<Policy>)
    ensures matches == MatchingPolicies(e, policies, id, localAttributes)
  {
    matches := [];
    for i := 0 to |policies|
      invariant matches == MatchingPolicies(e, policies[..i], id, localAttributes)
    {
      assert policies[..i + 1][..i] == policies[..i];
      if Match(e, policies[i].selector, id, localAttributes) {
        matches := matches + [policies[i]];
      }
    }
    assert policies[..|policies|] == policies;
  }

  method PolicyLayer(e: Engine, policies: seq<Policy>, id: string, localAttributes: Attrs) returns (layer: Layer)
    ensures layer == Combined(Kind.Policy, PolicyClaims(SortedPolicies(e, policies, id, localAttributes)))
  {
    var matches := MatchPolicies(e, policies, id, localAttributes);
    var sorted := Sort(PolicyAtMost, matches);
    var resolved: Attrs := map[];
    var owners: seq<string> := [];
    for i := 0 to |sorted|
      invariant Aggregated(PolicyClaims(sorted[..i]), resolved, owners)
    {
      assert sorted[..i + 1][..i] == sorted[..i];
      var filled := FillUnclaimed(resolved, sorted[i].attributes);
      AggregateNext(PolicyClaims(sorted[..i]), resolved, owners, PolicyClaim(sorted[i]), filled);
      owners, resolved := owners + [FullName(sorted[i].namespace, sorted[i].name)], filled;
    }
    assert sorted[..|sorted|] == sorted;
    layer := Layer(Kind.Policy, if |owners| > 0 then owners[0] else "", resolved);
  }

  // ----- One flat rule -----

  lemma ResolveOne(l: Layer)
    ensures Resolve([l]) == l.attrs
  {
    assert [l] == [] + [l];
    ResolveLast([], l);
  }

  /** Merging the three layers gives each key the value of the first claimant in the flat order: usable
      syncs by name, then the spec, then matching policies by priority and name. */
  lemma LayeredIsFlat(e: Engine, inp: Inputs, id: string, localAttributes: Attrs)
    ensures Resolve(Layers(e, inp, id, localAttributes)) == Resolve(FlatClaims(e, inp, id, localAttributes))
  {
    var a, b := ExternalClaims(inp, id), PolicyLayerClaims(e, inp, id, localAttributes);
    var ext, pol := Combined(ExternalSync, a), Combined(Kind.Policy, b);
    assert Layers(e, inp, id, localAttributes) == ([ext] + [inp.spec]) + [pol];
    ResolveConcat([ext] + [inp.spec], [pol]);
    ResolveConcat([ext], [inp.spec]);
    ResolveConcat(a + [inp.spec], b);
    ResolveConcat(a, [inp.spec]);
    ResolveOne(ext);
    ResolveOne(pol);
  }

  lemma {:induction false} SyncClaimKinds(syncs: seq<Sync>, id: string)
    ensures forall l | l in SyncClaims(syncs, id) :: l.kind == ExternalSync
  {
    if syncs != [] {
      SyncClaimKinds(syncs[..|syncs| - 1], id);
    }
  }

  lemma {:induction false} PolicyClaimKinds(policies: seq<Policy>)
    ensures forall l | l in PolicyClaims(policies) :: l.kind == Kind.Policy
  {
    if policies != [] {
      PolicyClaimKinds(policies[..|policies| - 1]);
    }
  }

  /** A key of a resolution has a first claimant, whose value it has. */
  lemma ClaimantOf(layers: seq<Layer>, k: string) returns (i: int)
    requires k in Resolve(layers)
    ensures FirstClaim(layers, k, i) && Resolve(layers)[k] == layers[i].attrs[k]
  {
    ResolveResolves(layers);
    i :| FirstClaim(layers, k, i) && Resolve(layers)[k] == layers[i].attrs[k];
  }

  lemma NoClaimant(layers: seq<Layer>, k: string)
    requires k !in Resolve(layers)
    ensures forall j | 0 <= j < |layers| :: k !in layers[j].attrs
  {
    ResolveResolves(layers);
  }

  /** `flat` claims `k` first in a layer of this kind, with this value. */
  ghost predicate ClaimedBy(flat: seq<Layer>, k: string, kind: Kind, value: string) {
    exists i :: FirstClaim(flat, k, i) && flat[i].kind == kind && flat[i].attrs[k] == value
  }

  lemma ClaimedInFront(a: seq<Layer>, rest: seq<Layer>, k: string, kind: Kind)
    requires k in Resolve(a) && forall l | l in a :: l.kind == kind
    ensures ClaimedBy(a + rest, k, kind, Resolve(a)[k])
  {
    var i := ClaimantOf(a, k);
    assert a[i] in a;
    FirstClaimSplits(a, rest, k, i);
  }

  lemma ClaimedBehind(front: seq<Layer>, b: seq<Layer>, k: string, kind: Kind)
    requires k !in Resolve(front) && k in Resolve(b) && forall l | l in b :: l.kind == kind
    ensures ClaimedBy(front + b, k, kind, Resolve(b)[k])
  {
    var i := ClaimantOf(b, k);
    assert b[i] in b;
    NoClaimant(front, k);
    FirstClaimSplits(front, b, k, i);
  }

  /** The recorded kind and value of a key are those of its first claimant in the flat order. */
  lemma OwnerKindIsFlat(e: Engine, inp: Inputs, id: string, localAttributes: Attrs, owners: seq<KeyOwnership>,
                        o: KeyOwnership)
    requires inp.spec.kind == CollectorSpec && o in owners
    requires Owns(Layers(e, inp, id, localAttributes), Resolve(Layers(e, inp, id, localAttributes)), owners)
    ensures ClaimedBy(FlatClaims(e, inp, id, localAttributes), o.key, o.kind, o.value)
  {
    var layers := Layers(e, inp, id, localAttributes);
    var a, b := ExternalClaims(inp, id), PolicyLayerClaims(e, inp, id, localAttributes);
    SyncClaimKinds(SortedSyncs(inp.syncs), id);
    PolicyClaimKinds(SortedPolicies(e, inp.policies, id, localAttributes));
    var p :| FirstClaim(layers, o.key, p)
             && o == KeyOwnership(o.key, layers[p].kind, layers[p].owner, layers[p].attrs[o.key]);
    ThreeLayerClaim(a, inp.spec, b, layers, o.key, p);
  }

  lemma ThreeLayerClaim(a: seq<Layer>, spec: Layer, b: seq<Layer>, layers: seq<Layer>, k: string, p: int)
    requires layers == [Combined(ExternalSync, a), spec, Combined(Kind.Policy, b)] && spec.kind == CollectorSpec
    requires (forall l | l in a :: l.kind == ExternalSync) && (forall l | l in b :: l.kind == Kind.Policy)
    requires FirstClaim(layers, k, p)
    ensures ClaimedBy(a + [spec] + b, k, layers[p].kind, layers[p].attrs[k])
  {
    ResolveConcat(a, [spec]);
    ResolveOne(spec);
    assert p != 0 ==> k !in layers[0].attrs;
    assert p == 2 ==> k !in layers[1].attrs;
    assert (a + [spec]) + b == a + ([spec] + b);
    if p == 0 {
      ClaimedInFront(a, [spec] + b, k, ExternalSync);
    } else if p == 1 {
      ClaimedBehind(a, [spec], k, CollectorSpec);
      var i :| FirstClaim(a + [spec], k, i)
               && (a + [spec])[i].kind == CollectorSpec && (a + [spec])[i].attrs[k] == spec.attrs[k];
      FirstClaimSplits(a + [spec], b, k, i);
    } else {
      ClaimedBehind(a + [spec], b, k, Kind.Policy);
    }
  }

  // ----- The order in which the lists come back does not matter -----

  lemma SyncOrderIsTotal()
    ensures TotalPreorder(SyncAtMost)
  {
    StringOrderIsTotal();
  }

  lemma PolicyOrderIsTotal()
    ensures TotalPreorder(PolicyAtMost)
  {
    StringOrderIsTotal();
    forall a, b ensures PolicyAtMost(a, b) || PolicyAtMost(b, a) {
      assert AtMost(FullName(a.namespace, a.name), FullName(b.namespace, b.name))
          || AtMost(FullName(b.namespace, b.name), FullName(a.namespace, a.name));
    }
    forall a, b, c | PolicyAtMost(a, b) && PolicyAtMost(b, c) ensures PolicyAtMost(a, c) {
      var x, y, z := FullName(a.namespace, a.name), FullName(b.namespace, b.name), FullName(c.namespace, c.name);
      assert AtMost(x, y) && AtMost(y, z) ==> AtMost(x, z);
    }
  }

  lemma FullNameInjective(namespace: string, a: string, b: string)
    requires FullName(namespace, a) == FullName(namespace, b)
    ensures a == b
  {
    assert a == FullName(namespace, a)[|namespace| + 1..];
    assert b == FullName(namespace, b)[|namespace| + 1..];
  }

  /** What the API lists for a namespace: names are unique in it. */
  ghost predicate SyncsOf(namespace: string, syncs: seq<Sync>) {
    && (forall s | s in syncs :: s.namespace == namespace)
    && (forall s, t | s in syncs && t in syncs :: s.name == t.name ==> s == t)
  }

  ghost predicate PoliciesOf(namespace: string, policies: seq<Policy>) {
    && (forall p | p in policies :: p.namespace == namespace)
    && (forall p, q | p in policies && q in policies :: p.name == q.name ==> p == q)
  }

  /** Syncs of one namespace have distinct names, so listing them in another order changes nothing. */
  lemma SyncListOrderIrrelevant(x: seq<Sync>, y: seq<Sync>, namespace: string)
    requires multiset(x) == multiset(y) && SyncsOf(namespace, x)
    ensures SortedSyncs(x) == SortedSyncs(y)
  {
    SyncOrderIsTotal();
    SortIsSortedPermutation(SyncAtMost, x);
    SortIsSortedPermutation(SyncAtMost, y);
    SortMembers(SyncAtMost, x);
    forall s, t | s in SortedSyncs(x) && t in SortedSyncs(x) && SyncAtMost(s, t) && SyncAtMost(t, s) ensures s == t {
      LessTrichotomy(FullName(s.namespace, s.name), FullName(t.namespace, t.name));
      FullNameInjective(namespace, s.name, t.name);
    }
    assert TiesAreEqual(SyncAtMost, SortedSyncs(x));
    SortedUnique(SyncAtMost, SortedSyncs(x), SortedSyncs(y));
  }

  lemma {:induction false} MatchingCount(e: Engine, policies: seq<Policy>, id: string, localAttributes: Attrs,
                                         p: Policy)
    ensures multiset(MatchingPolicies(e, policies, id, localAttributes))[p] ==
            if PolicyMatches(e, p, id, localAttributes) then multiset(policies)[p] else 0
  {
    if policies != [] {
      var n := |policies| - 1;
      assert policies == policies[..n] + [policies[n]];
      MatchingCount(e, policies[..n], id, localAttributes, p);
    }
  }

  lemma MatchingPermutes(e: Engine, x: seq<Policy>, y: seq<Policy>, id: string, localAttributes: Attrs)
    requires multiset(x) == multiset(y)
    ensures multiset(MatchingPolicies(e, x, id, localAttributes)) ==
            multiset(MatchingPolicies(e, y, id, localAttributes))
  {
    var a := multiset(MatchingPolicies(e, x, id, localAttributes));
    var b := multiset(MatchingPolicies(e, y, id, localAttributes));
    forall p: Policy ensures a[p] == b[p] {
      MatchingCount(e, x, id, localAttributes, p);
      MatchingCount(e, y, id, localAttributes, p);
    }
  }

  lemma MatchingMembers(e: Engine, policies: seq<Policy>, id: string, localAttributes: Attrs)
    ensures forall p | p in MatchingPolicies(e, policies, id, localAttributes) :: p in policies
  {
    var a := MatchingPolicies(e, policies, id, localAttributes);
    forall p | p in a ensures p in policies {
      MatchingCount(e, policies, id, localAttributes, p);
      assert p in multiset(a) && p in multiset(policies);
    }
  }

  /** Nor does the order in which the policies of a namespace are listed. */
  lemma PolicyListOrderIrrelevant(e: Engine, x: seq<Policy>, y: seq<Policy>, namespace: string, id: string,
                                  localAttributes: Attrs)
    requires multiset(x) == multiset(y) && PoliciesOf(namespace, x)
    ensures SortedPolicies(e, x, id, localAttributes) == SortedPolicies(e, y, id, localAttributes)
  {
    var a, b := MatchingPolicies(e, x, id, localAttributes), MatchingPolicies(e, y, id, localAttributes);
    MatchingPermutes(e, x, y, id, localAttributes);
    PolicyOrderIsTotal();
    SortIsSortedPermutation(PolicyAtMost, a);
    SortIsSortedPermutation(PolicyAtMost, b);
    SortMembers(PolicyAtMost, a);
    MatchingMembers(e, x, id, localAttributes);
    forall p, q | p in Sort(PolicyAtMost, a) && q in Sort(PolicyAtMost, a) && PolicyAtMost(p, q) && PolicyAtMost(q, p)
      ensures p == q
    {
      LessTrichotomy(FullName(p.namespace, p.name), FullName(q.namespace, q.name));
      FullNameInjective(namespace, p.name, q.name);
    }
    assert TiesAreEqual(PolicyAtMost, Sort(PolicyAtMost, a));
    SortedUnique(PolicyAtMost, Sort(PolicyAtMost, a), Sort(PolicyAtMost, b));
  }

  // ----- Whose name is recorded -----

  /** Different contributors have different names. */
  ghost predicate OwnersApart(claims: seq<Layer>) {
    forall a, b | a in claims && b in claims :: a.owner == b.owner ==> a == b
  }

  lemma {:induction false} SyncClaimSource(syncs: seq<Sync>, id: string, l: Layer)
    requires l in SyncClaims(syncs, id)
    ensures exists s :: s in syncs && SyncClaim(s, id) == Some(l)
  {
    var n := |syncs| - 1;
    if l in SyncClaims(syncs[..n], id) {
      SyncClaimSource(syncs[..n], id, l);
    } else {
      assert syncs[n] in syncs && SyncClaim(syncs[n], id) == Some(l);
    }
  }

  lemma {:induction false} PolicyClaimSource(policies: seq<Policy>, l: Layer)
    requires l in PolicyClaims(policies)
    ensures exists p :: p in policies && PolicyClaim(p) == l
  {
    var n := |policies| - 1;
    if l in PolicyClaims(policies[..n]) {
      PolicyClaimSource(policies[..n], l);
    } else {
      assert policies[n] in policies && PolicyClaim(policies[n]) == l;
    }
  }

  lemma SyncOwnersApart(namespace: string, syncs: seq<Sync>, id: string)
    requires SyncsOf(namespace, syncs)
    ensures OwnersApart(SyncClaims(SortedSyncs(syncs), id))
  {
    SyncOrderIsTotal();
    SortMembers(SyncAtMost, syncs);
    var claims := SyncClaims(SortedSyncs(syncs), id);
    forall a, b | a in claims && b in claims && a.owner == b.owner ensures a == b {
      SyncClaimSource(SortedSyncs(syncs), id, a);
      SyncClaimSource(SortedSyncs(syncs), id, b);
      var s :| s in SortedSyncs(syncs) && SyncClaim(s, id) == Some(a);
      var t :| t in SortedSyncs(syncs) && SyncClaim(t, id) == Some(b);
      FullNameInjective(namespace, s.name, t.name);
    }
  }

  lemma PolicyOwnersApart(namespace: string, e: Engine, policies: seq<Policy>, id: string, localAttributes: Attrs)
    requires PoliciesOf(namespace, policies)
    ensures OwnersApart(PolicyClaims(SortedPolicies(e, policies, id, localAttributes)))
  {
    var sorted := SortedPolicies(e, policies, id, localAttributes);
    PolicyOrderIsTotal();
    MatchingMembers(e, policies, id, localAttributes);
    SortMembers(PolicyAtMost, MatchingPolicies(e, policies, id, localAttributes));
    var claims := PolicyClaims(sorted);
    forall a, b | a in claims && b in claims && a.owner == b.owner ensures a == b {
      PolicyClaimSource(sorted, a);
      PolicyClaimSource(sorted, b);
      var p :| p in sorted && PolicyClaim(p) == a;
      var q :| q in sorted && PolicyClaim(q) == b;
      FullNameInjective(namespace, p.name, q.name);
    }
  }

  lemma OwnerOfCombined(kind: Kind, claims: seq<Layer>, o: KeyOwnership, i: int)
    requires OwnersApart(claims) && FirstClaim(claims, o.key, i)
    requires var l := Combined(kind, claims); o.key in l.attrs && o.owner == l.owner && o.value == l.attrs[o.key]
    ensures o.value == claims[i].attrs[o.key]
    ensures o.owner == claims[i].owner <==> o.key in claims[0].attrs
  {
    var j := ClaimantOf(claims, o.key);
    FirstClaimUnique(claims, o.key, i, j);
    assert claims[i] in claims && claims[0] in claims;
  }

  /** An external key has the value of the first sync that claims it; that sync is the recorded owner
      exactly when the first sync contributing anything to the collector claims the key too. */
  lemma OwnerIsFirstContributor(e: Engine, inp: Inputs, id: string, localAttributes: Attrs, namespace: string,
                                owners: seq<KeyOwnership>, o: KeyOwnership, i: int)
    requires inp.spec.kind == CollectorSpec && SyncsOf(namespace, inp.syncs) && o in owners && o.kind == ExternalSync
    requires Owns(Layers(e, inp, id, localAttributes), Resolve(Layers(e, inp, id, localAttributes)), owners)
    requires FirstClaim(ExternalClaims(inp, id), o.key, i)
    ensures o.value == ExternalClaims(inp, id)[i].attrs[o.key]
    ensures o.owner == ExternalClaims(inp, id)[i].owner <==> o.key in ExternalClaims(inp, id)[0].attrs
  {
    var layers := Layers(e, inp, id, localAttributes);
    var p :| FirstClaim(layers, o.key, p)
             && o == KeyOwnership(o.key, layers[p].kind, layers[p].owner, layers[p].attrs[o.key]);
    assert p == 0;
    SyncOwnersApart(namespace, inp.syncs, id);
    OwnerOfCombined(ExternalSync, ExternalClaims(inp, id), o, i);
  }

  /** Likewise a policy key: the recorded policy is the one its value came from exactly when the first matching
      policy claims the key too. */
  lemma PolicyOwnerIsFirstContributor(e: Engine, inp: Inputs, id: string, localAttributes: Attrs, namespace: string,
                                      owners: seq<KeyOwnership>, o: KeyOwnership, i: int)
    requires inp.spec.kind == CollectorSpec && PoliciesOf(namespace, inp.policies)
    requires o in owners && o.kind == Kind.Policy
    requires Owns(Layers(e, inp, id, localAttributes), Resolve(Layers(e, inp, id, localAttributes)), owners)
    requires FirstClaim(PolicyLayerClaims(e, inp, id, localAttributes), o.key, i)
    ensures var claims := PolicyLayerClaims(e, inp, id, localAttributes);
            && o.value == claims[i].attrs[o.key]
            && (o.owner == claims[i].owner <==> o.key in claims[0].attrs)
  {
    var layers := Layers(e, inp, id, localAttributes);
    var p :| FirstClaim(layers, o.key, p)
             && o == KeyOwnership(o.key, layers[p].kind, layers[p].owner, layers[p].attrs[o.key]);
    assert p == 2;
    PolicyOwnersApart(namespace, e, inp.policies, id, localAttributes);
    OwnerOfCombined(Kind.Policy, PolicyLayerClaims(e, inp, id, localAttributes), o, i);
  }

  /** Two syncs contribute to collector "c". Only the second claims "team"; the record names the first. */
  lemma WrongSyncIsRecorded(e: Engine, spec: Layer, x: Sync, y: Sync, owners: seq<KeyOwnership>)
    requires Usable(x) && x.namespace == "ns" && x.name == "x"
    requires Usable(y) && y.namespace == "ns" && y.name == "y"
    requires x.status.ownedKeys == [OwnedEntry("c", map["zone" := "north"])]
    requires y.status.ownedKeys == [OwnedEntry("c", map["team" := "blue"])]
    requires var layers := Layers(e, Inputs([x, y], spec, []), "c", map[]); Owns(layers, Resolve(layers), owners)
    ensures KeyOwnership("team", ExternalSync, "ns/x", "blue") in owners
  {
    var inp := Inputs([x, y], spec, []);
    var layers := Layers(e, inp, "c", map[]);
    TwoSyncClaims(x, y);
    var claims := ExternalClaims(inp, "c");
    TwoClaims(claims[0], claims[1], "team");
    RecordOfFirstLayer(layers, owners, "team");
  }

  lemma TwoSyncClaims(x: Sync, y: Sync)
    requires Usable(x) && x.namespace == "ns" && x.name == "x"
    requires Usable(y) && y.namespace == "ns" && y.name == "y"
    requires x.status.ownedKeys == [OwnedEntry("c", map["zone" := "north"])]
    requires y.status.ownedKeys == [OwnedEntry("c", map["team" := "blue"])]
    ensures SyncClaims(SortedSyncs([x, y]), "c") ==
            [Layer(ExternalSync, "ns/x", map["zone" := "north"]), Layer(ExternalSync, "ns/y", map["team" := "blue"])]
  {
    assert FullName("ns", "x") == "ns/x" && FullName("ns", "y") == "ns/y";
    SortedPair(x, y);
    assert [x, y][..1] == [x] && [x][..0] == [];
    assert SyncClaims([x], "c") == SyncClaims([], "c") + [SyncClaim(x, "c").value];
  }

  lemma SortedPair(x: Sync, y: Sync)
    requires FullName(x.namespace, x.name) == "ns/x" && FullName(y.namespace, y.name) == "ns/y"
    ensures SortedSyncs([x, y]) == [x, y]
  {
    var a, b := "ns/x", "ns/y";
    assert Less(a[3..], b[3..]);
    assert a[2..][1..] == a[3..] && b[2..][1..] == b[3..] && Less(a[2..], b[2..]);
    assert a[1..][1..] == a[2..] && b[1..][1..] == b[2..] && Less(a[1..], b[1..]);
    assert SyncAtMost(x, y);
    assert [x, y][..1] == [x] && [x][..0] == [];
    assert Sort(SyncAtMost, [x]) == [x];
    assert Insert(SyncAtMost, y, [x]) == [x] + Insert(SyncAtMost, y, []);
  }

  lemma TwoClaims(a: Layer, b: Layer, k: string)
    requires k !in a.attrs && k in b.attrs
    ensures Resolve([a, b]) == b.attrs + a.attrs
  {
    assert [a, b] == [a] + [b];
    ResolveLast([a], b);
    ResolveOne(a);
  }

  lemma RecordOfFirstLayer(layers: seq<Layer>, owners: seq<KeyOwnership>, k: string)
    requires layers != [] && k in layers[0].attrs && Owns(layers, Resolve(layers), owners)
    ensures KeyOwnership(k, layers[0].kind, layers[0].owner, layers[0].attrs[k]) in owners
  {
    ResolveResolves(layers);
    assert FirstClaim(layers, k, 0);
    assert k in Keys(owners);
    var i :| 0 <= i < |owners| && owners[i].key == k;
    assert owners[i] in owners;
    var p :| FirstClaim(layers, k, p)
             && owners[i] == KeyOwnership(k, layers[p].kind, layers[p].owner, layers[p].attrs[k]);
    FirstClaimUnique(layers, k, 0, p);
  }
}
