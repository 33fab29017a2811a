/** Merge: layered claims on attribute keys, the first layer winning. */
module AttributeMerge {
  import opened Common
  import opened Strings
  import opened Sorting

  datatype Kind = ExternalSync | CollectorSpec | Policy

  datatype Layer = Layer(kind: Kind, owner: string, attrs: Attrs)

  datatype KeyOwnership = KeyOwnership(key: string, kind: Kind, owner: string, value: string)

  /** Layer `i` is the first to claim `k`. */
  ghost predicate FirstClaim(layers: seq<Layer>, k: string, i: int) {
    && 0 <= i < |layers| && k in layers[i].attrs
    && forall j | 0 <= j < i :: k !in layers[j].attrs
  }

  /** Each key has its first claimant's value, and nothing else is in the map. */
  ghost predicate Resolves(layers: seq<Layer>, m: Attrs) {
    && (forall k | k in m :: exists i :: FirstClaim(layers, k, i) && m[k] == layers[i].attrs[k])
    && (forall i, k | 0 <= i < |layers| && k in layers[i].attrs :: k in m)
  }

  lemma FirstClaimUnique(layers: seq<Layer>, k: string, i: int, j: int)
    requires FirstClaim(layers, k, i) && FirstClaim(layers, k, j)
    ensures i == j
  {}

  lemma ResolvesUnique(layers: seq<Layer>, m: Attrs, n: Attrs)
    requires Resolves(layers, m) && Resolves(layers, n)
    ensures m == n
  {
    forall k ensures At(m, k) == At(n, k) {
      if k in m && k in n {
        var i :| FirstClaim(layers, k, i) && m[k] == layers[i].attrs[k];
        var j :| FirstClaim(layers, k, j) && n[k] == layers[j].attrs[k];
        FirstClaimUnique(layers, k, i, j);
      }
    }
    AtDetermines(m, n);
  }

  /** The resolution as a function: a later layer only fills the keys still unclaimed. */
  function Resolve(layers: seq<Layer>): Attrs {
    if layers == [] then map[] else layers[|layers| - 1].attrs + Resolve(layers[..|layers| - 1])
  }

  lemma {:induction false} ResolveResolves(layers: seq<Layer>)
    ensures Resolves(layers, Resolve(layers))
  {
    if layers != [] {
      var n := |layers| - 1;
      ResolveResolves(layers[..n]);
      ResolveStep(layers, Resolve(layers[..n]), Resolve(layers));
    }
  }

  lemma ResolveStep(layers: seq<Layer>, before: Attrs, m: Attrs)
    requires layers != [] && Resolves(layers[..|layers| - 1], before)
    requires m == layers[|layers| - 1].attrs + before
    ensures Resolves(layers, m)
  {
    var n := |layers| - 1;
    forall k | k in m ensures exists i :: FirstClaim(layers, k, i) && m[k] == layers[i].attrs[k] {
      if k in before {
        var i :| FirstClaim(layers[..n], k, i) && before[k] == layers[..n][i].attrs[k];
        assert FirstClaim(layers, k, i);
      } else {
        assert forall j | 0 <= j < n :: layers[j] == layers[..n][j] && k !in layers[j].attrs;
        assert FirstClaim(layers, k, n);
      }
    }
    forall i, k | 0 <= i < |layers| && k in layers[i].attrs ensures k in m {
      if i < n {
        assert layers[..n][i] == layers[i];
      }
    }
  }

  // ----- Owners -----

  ghost predicate OwnershipOf(layers: seq<Layer>, o: KeyOwnership) {
    exists i :: FirstClaim(layers, o.key, i)
                && o == KeyOwnership(o.key, layers[i].kind, layers[i].owner, layers[i].attrs[o.key])
  }

  function Keys(owners: seq<KeyOwnership>): seq<string> {
    seq(|owners|, i requires 0 <= i < |owners| => owners[i].key)
  }

  /** One entry per desired key, in key order, naming the layer the value came from. */
  ghost predicate Owns(layers: seq<Layer>, desired: Attrs, owners: seq<KeyOwnership>) {
    && StrictlySorted(Keys(owners))
    && (forall o | o in owners :: o.key in desired && OwnershipOf(layers, o))
    && (forall k | k in desired :: k in Keys(owners))
  }

  /** The owners are the same whatever order the maps were walked in. */
  lemma OwnersDeterministic(layers: seq<Layer>, desired: Attrs, a: seq<KeyOwnership>, b: seq<KeyOwnership>)
    requires Owns(layers, desired, a) && Owns(layers, desired, b)
    ensures a == b
  {
    forall k ensures k in Keys(a) <==> k in Keys(b) {
      if k in Keys(a) {
        var i :| 0 <= i < |a| && a[i].key == k;
        assert a[i] in a;
      }
      if k in Keys(b) {
        var i :| 0 <= i < |b| && b[i].key == k;
        assert b[i] in b;
      }
    }
    StrictlySortedUnique(Keys(a), Keys(b));
    assert |a| == |Keys(a)| == |Keys(b)| == |b|;
    forall i | 0 <= i < |a| ensures a[i] == b[i] {
      assert a[i].key == Keys(a)[i] == Keys(b)[i] == b[i].key;
      assert a[i] in a && b[i] in b;
      var p :| FirstClaim(layers, a[i].key, p)
               && a[i] == KeyOwnership(a[i].key, layers[p].kind, layers[p].owner, layers[p].attrs[a[i].key]);
      var q :| FirstClaim(layers, b[i].key, q)
               && b[i] == KeyOwnership(b[i].key, layers[q].kind, layers[q].owner, layers[q].attrs[b[i].key]);
      FirstClaimUnique(layers, a[i].key, p, q);
    }
  }

  // ----- The insertion sort -----

  predicate KeyAtMost(a: KeyOwnership, b: KeyOwnership) {
    !Less(b.key, a.key)
  }

  lemma KeyAtMostTransitive(a: KeyOwnership, b: KeyOwnership, c: KeyOwnership)
    requires KeyAtMost(a, b) && KeyAtMost(b, c)
    ensures KeyAtMost(a, c)
  {
    LessTrichotomy(a.key, b.key);
    LessTrichotomy(b.key, c.key);
    if Less(c.key, a.key) {
      if a.key != b.key {
        LessTransitive(c.key, a.key, b.key);
      }
    }
  }

  lemma KeyAtMostAntisymmetric(a: KeyOwnership, b: KeyOwnership)
    requires Less(b.key, a.key)
    ensures KeyAtMost(b, a)
  {
    LessTrichotomy(a.key, b.key);
  }

  /** Sorted up to `n`, except that the element at `hole` is only compared with what follows it. */
  ghost predicate SortedExcept(s: seq<KeyOwnership>, n: nat, hole: nat) {
    n <= |s| && forall p, q | 0 <= p < q < n && q != hole :: KeyAtMost(s[p], s[q])
  }

  lemma SwapSinks(s: seq<KeyOwnership>, n: nat, j: nat)
    requires 0 < j < n && SortedExcept(s, n, j) && Less(s[j].key, s[j - 1].key)
    ensures SortedExcept(s[j - 1 := s[j]][j := s[j - 1]], n, j - 1)
  {
    KeyAtMostAntisymmetric(s[j - 1], s[j]);
  }

  lemma HoleCloses(s: seq<KeyOwnership>, n: nat, j: nat)
    requires j < n && SortedExcept(s, n, j) && (j > 0 ==> !Less(s[j].key, s[j - 1].key))
    ensures SortedExcept(s, n, n)
  {
    forall p | 0 <= p < j ensures KeyAtMost(s[p], s[j]) {
      if p < j - 1 {
        KeyAtMostTransitive(s[p], s[j - 1], s[j]);
      }
    }
  }

  method SortByKey(owners: array<KeyOwnership>)
    modifies owners
    ensures SortedExcept(owners[..], owners.Length, owners.Length)
    ensures multiset(owners[..]) == multiset(old(owners[..]))
  {
    if owners.Length == 0 {
      return;
    }
    for i := 1 to owners.Length
      invariant SortedExcept(owners[..], i, i)
      invariant multiset(owners[..]) == multiset(old(owners[..]))
    {
      var j := i;
      while j > 0 && Less(owners[j].key, owners[j - 1].key)
        invariant 0 <= j <= i
        invariant SortedExcept(owners[..], i + 1, j)
        invariant multiset(owners[..]) == multiset(old(owners[..]))
      {
        SwapSinks(owners[..], i + 1, j);
        ghost var s := owners[..];
        owners[j - 1], owners[j] := owners[j], owners[j - 1];
        assert owners[..] == s[j - 1 := s[j]][j := s[j - 1]];
        j := j - 1;
      }
      HoleCloses(owners[..], i + 1, j);
    }
  }

  // ----- Merge -----

  /** Ownership records for exactly the keys of `desired`. */
  ghost predicate Records(layers: seq<Layer>, desired: Attrs, ownerByKey: map<string, KeyOwnership>) {
    && ownerByKey.Keys == desired.Keys
    && forall k | k in ownerByKey :: ownerByKey[k].key == k && OwnershipOf(layers, ownerByKey[k])
  }

  /** After `done` keys of the last layer, on top of the layers before it. */
  function Partly(before: Attrs, attrs: Attrs, done: set<string>): Attrs {
    (map k | k in attrs && k in done :: attrs[k]) + before
  }

  lemma RecordsExtend(layers: seq<Layer>, next: Layer, desired: Attrs, ownerByKey: map<string, KeyOwnership>)
    requires Records(layers, desired, ownerByKey)
    ensures Records(layers + [next], desired, ownerByKey)
  {
    forall k | k in ownerByKey ensures OwnershipOf(layers + [next], ownerByKey[k]) {
      var o := ownerByKey[k];
      var i :| FirstClaim(layers, o.key, i)
               && o == KeyOwnership(o.key, layers[i].kind, layers[i].owner, layers[i].attrs[o.key]);
      assert FirstClaim(layers + [next], o.key, i);
    }
  }

  lemma NewClaim(layers: seq<Layer>, next: Layer, before: Attrs, k: string)
    requires Resolves(layers, before) && k in next.attrs && k !in before
    ensures OwnershipOf(layers + [next], KeyOwnership(k, next.kind, next.owner, next.attrs[k]))
  {
    assert FirstClaim(layers + [next], k, |layers|);
  }

  lemma PartlyGrows(before: Attrs, attrs: Attrs, done: set<string>, k: string)
    requires k in attrs && k !in done
    ensures var m := Partly(before, attrs, done);
            Partly(before, attrs, done + {k}) == if k in m then m else m[k := attrs[k]]
  {
    assert k in Partly(before, attrs, done) <==> k in before;
  }

  lemma RecordsAdd(layers: seq<Layer>, next: Layer, before: Attrs, desired: Attrs,
                   ownerByKey: map<string, KeyOwnership>, k: string)
    requires Resolves(layers, before) && k in next.attrs && k !in before
    requires Records(layers + [next], desired, ownerByKey)
    ensures Records(layers + [next], desired[k := next.attrs[k]],
                    ownerByKey[k := KeyOwnership(k, next.kind, next.owner, next.attrs[k])])
  {
    NewClaim(layers, next, before, k);
  }

  /** Midway through a layer, with the keys in `done` walked. */
  ghost predicate Midway(layers: seq<Layer>, layer: Layer, before: Attrs, done: set<string>,
                         desired: Attrs, ownerByKey: map<string, KeyOwnership>) {
    && Resolves(layers, before)
    && desired == Partly(before, layer.attrs, done)
    && Records(layers + [layer], desired, ownerByKey)
  }

  lemma MidwayStarts(layers: seq<Layer>, layer: Layer, before: Attrs, owners: map<string, KeyOwnership>)
    requires Resolves(layers, before) && Records(layers, before, owners)
    ensures Midway(layers, layer, before, {}, before, owners)
  {
    RecordsExtend(layers, layer, before, owners);
    assert Partly(before, layer.attrs, {}) == before;
  }

  lemma MidwaySkips(layers: seq<Layer>, layer: Layer, before: Attrs, done: set<string>,
                    desired: Attrs, ownerByKey: map<string, KeyOwnership>, k: string)
    requires Midway(layers, layer, before, done, desired, ownerByKey)
    requires k in layer.attrs && k !in done && k in desired
    ensures Midway(layers, layer, before, done + {k}, desired, ownerByKey)
  {
    PartlyGrows(before, layer.attrs, done, k);
  }

  lemma MidwayClaims(layers: seq<Layer>, layer: Layer, before: Attrs, done: set<string>,
                     desired: Attrs, ownerByKey: map<string, KeyOwnership>, k: string)
    requires Midway(layers, layer, before, done, desired, ownerByKey)
    requires k in layer.attrs && k !in done && k !in desired
    ensures Midway(layers, layer, before, done + {k}, desired[k := layer.attrs[k]],
                   ownerByKey[k := KeyOwnership(k, layer.kind, layer.owner, layer.attrs[k])])
  {
    PartlyGrows(before, layer.attrs, done, k);
    RecordsAdd(layers, layer, before, desired, ownerByKey, k);
  }

  /** One key further, claimed or not. */
  method ClaimKey(ghost layers: seq<Layer>, layer: Layer, ghost before: Attrs, ghost done: set<string>,
                  desired: Attrs, ownerByKey: map<string, KeyOwnership>, k: string)
    returns (desired': Attrs, ownerByKey': map<string, KeyOwnership>)
    requires Midway(layers, layer, before, done, desired, ownerByKey) && k in layer.attrs && k !in done
    ensures Midway(layers, layer, before, done + {k}, desired', ownerByKey')
  {
    if k in desired {
      MidwaySkips(layers, layer, before, done, desired, ownerByKey, k);
      return desired, ownerByKey;
    }
    MidwayClaims(layers, layer, before, done, desired, ownerByKey, k);
    desired', ownerByKey' := desired[k := layer.attrs[k]],
      ownerByKey[k := KeyOwnership(k, layer.kind, layer.owner, layer.attrs[k])];
  }

  lemma MidwayEnds(layers: seq<Layer>, layer: Layer, before: Attrs,
                   desired: Attrs, ownerByKey: map<string, KeyOwnership>)
    requires Midway(layers, layer, before, layer.attrs.Keys, desired, ownerByKey)
    ensures desired == layer.attrs + before && Records(layers + [layer], desired, ownerByKey)
  {}

  method MergeLayer(ghost layers: seq<Layer>, layer: Layer, before: Attrs, owners: map<string, KeyOwnership>)
    returns (desired: Attrs, ownerByKey: map<string, KeyOwnership>)
    requires Resolves(layers, before) && Records(layers, before, owners)
    ensures desired == layer.attrs + before
    ensures Records(layers + [layer], desired, ownerByKey)
  {
    desired, ownerByKey := before, owners;
    MidwayStarts(layers, layer, before, owners);
    var todo := layer.attrs.Keys;
    ghost var done: set<string> := {};
    while todo != {}
      invariant done + todo == layer.attrs.Keys && done !! todo
      invariant Midway(layers, layer, before, done, desired, ownerByKey)
      decreases todo
    {
      var k :| k in todo;
      desired, ownerByKey := ClaimKey(layers, layer, before, done, desired, ownerByKey, k);
      todo, done := todo - {k}, done + {k};
    }
    assert done == layer.attrs.Keys;
    MidwayEnds(layers, layer, before, desired, ownerByKey);
  }

  method CollectValues(ownerByKey: map<string, KeyOwnership>) returns (owners: array<KeyOwnership>)
    requires forall k | k in ownerByKey :: ownerByKey[k].key == k
    ensures fresh(owners)
    ensures multiset(owners[..]) == multiset(ownerByKey.Values)
  {
    var collected := [];
    var todo := ownerByKey.Keys;
    while todo != {}
      invariant todo <= ownerByKey.Keys
      invariant multiset(collected) == multiset(set k | k in ownerByKey && k !in todo :: ownerByKey[k])
      decreases todo
    {
      var k :| k in todo;
      ghost var before := set j | j in ownerByKey && j !in todo :: ownerByKey[j];
      ghost var after := set j | j in ownerByKey && j !in todo - {k} :: ownerByKey[j];
      assert after == before + {ownerByKey[k]};
      collected := collected + [ownerByKey[k]];
      todo := todo - {k};
    }
    assert (set k | k in ownerByKey && k !in todo :: ownerByKey[k]) == ownerByKey.Values;
    owners := new KeyOwnership[|collected|](i requires 0 <= i < |collected| => collected[i]);
    assert owners[..] == collected;
  }

  lemma SortedValuesOwn(layers: seq<Layer>, desired: Attrs, ownerByKey: map<string, KeyOwnership>, s: seq<KeyOwnership>)
    requires Records(layers, desired, ownerByKey)
    requires SortedExcept(s, |s|, |s|) && multiset(s) == multiset(ownerByKey.Values)
    ensures Owns(layers, desired, s)
  {
    forall o | o in s ensures o.key in desired && OwnershipOf(layers, o) && o == ownerByKey[o.key] {
      assert o in multiset(s);
    }
    forall k | k in desired ensures k in Keys(s) {
      assert ownerByKey[k] in multiset(s);
      var i :| 0 <= i < |s| && s[i] == ownerByKey[k];
      assert Keys(s)[i] == k;
    }
    forall i, j | 0 <= i < j < |s| ensures Less(Keys(s)[i], Keys(s)[j]) {
      assert KeyAtMost(s[i], s[j]);
      LessTrichotomy(s[i].key, s[j].key);
      if s[i].key == s[j].key {
        assert s[i] in s && s[j] in s;
        RepeatedElement(s, i, j);
      }
    }
  }

  method Merge(layers: seq<Layer>) returns (desired: Attrs, owners: seq<KeyOwnership>)
    ensures desired == Resolve(layers) && Owns(layers, desired, owners)
  {
    desired := map[];
    var ownerByKey: map<string, KeyOwnership> := map[];
    for i := 0 to |layers|
      invariant Resolves(layers[..i], desired)
      invariant Records(layers[..i], desired, ownerByKey)
    {
      ghost var before := desired;
      desired, ownerByKey := MergeLayer(layers[..i], layers[i], desired, ownerByKey);
      assert layers[..i + 1] == layers[..i] + [layers[i]];
      assert layers[..i + 1][..i] == layers[..i];
      ResolveStep(layers[..i + 1], before, desired);
    }
    assert layers[..|layers|] == layers;
    ResolveResolves(layers);
    ResolvesUnique(layers, desired, Resolve(layers));
    var sorted := CollectValues(ownerByKey);
    SortByKey(sorted);
    owners := sorted[..];
    SortedValuesOwn(layers, desired, ownerByKey, owners);
  }

  // ----- Layers of layers -----

  lemma ResolveLast(front: seq<Layer>, last: Layer)
    ensures Resolve(front + [last]) == last.attrs + Resolve(front)
  {
    assert (front + [last])[..|front|] == front;
  }

  lemma OverrideAssociative(a: Attrs, b: Attrs, c: Attrs)
    ensures a + (b + c) == (a + b) + c
  {}

  /** Resolution of a concatenation: the front part wins. */
  lemma {:induction false} ResolveConcat(x: seq<Layer>, y: seq<Layer>)
    ensures Resolve(x + y) == Resolve(y) + Resolve(x)
    decreases |y|
  {
    if y == [] {
      assert x + y == x;
    } else {
      var front, last := y[..|y| - 1], y[|y| - 1];
      assert y == front + [last] && x + y == (x + front) + [last];
      ResolveConcat(x, front);
      ResolveLast(x + front, last);
      ResolveLast(front, last);
      OverrideAssociative(last.attrs, Resolve(front), Resolve(x));
    }
  }

  /** Every key of a flat list is claimed first in the front part or first in the back part. */
  lemma FirstClaimSplits(a: seq<Layer>, b: seq<Layer>, k: string, i: int)
    ensures FirstClaim(a, k, i) ==> FirstClaim(a + b, k, i) && (a + b)[i] == a[i]
    ensures (forall j | 0 <= j < |a| :: k !in a[j].attrs) && FirstClaim(b, k, i) ==>
              FirstClaim(a + b, k, |a| + i) && (a + b)[|a| + i] == b[i]
  {}
}
