/** Diff: the JSON-patch operations that move a collector's remote attributes to what is desired. */
module AttributeDiff {
  import opened Common
  import opened Strings
  import opened Sorting
  import opened JsonPointer

  datatype Op = Add(path: string, value: string) | Replace(path: string, value: string) | Remove(path: string)

  // ----- What the operations mean -----

  /** One operation on the attributes; replacing or removing an absent target fails (RFC 6902, sections 4.2 and 4.3). */
  function ApplyOp(m: Attrs, op: Op): Option<Attrs> {
    match KeyOf(op.path)
    case None => None
    case Some(k) =>
      match op
      case Add(_, v) => Some(m[k := v])
      case Replace(_, v) => if k in m then Some(m[k := v]) else None
      case Remove(_) => if k in m then Some(m - {k}) else None
  }

  function ApplyOps(m: Attrs, ops: seq<Op>): Option<Attrs>
    decreases |ops|
  {
    if ops == [] then Some(m)
    else
      match ApplyOp(m, ops[0])
      case None => None
      case Some(m') => ApplyOps(m', ops[1..])
  }

  /** Observed, overridden by desired, without the owned keys nobody desires any more. */
  function Target(desired: Attrs, observed: Attrs, owned: seq<string>): Attrs {
    (observed - (set k | k in owned && k !in desired)) + desired
  }

  // ----- The operations Diff emits -----

  predicate Wants(desired: Attrs, observed: Attrs, k: string) {
    k in desired && At(observed, k) != Some(desired[k])
  }

  function SetOp(desired: Attrs, observed: Attrs, k: string): Op
    requires k in desired
  {
    if k in observed then Replace(RemoteAttrPath(k), desired[k]) else Add(RemoteAttrPath(k), desired[k])
  }

  ghost function SetOps(keys: set<string>, desired: Attrs, observed: Attrs): set<Op> {
    set k | k in keys && Wants(desired, observed, k) :: SetOp(desired, observed, k)
  }

  predicate Dropped(desired: Attrs, observed: Attrs, k: string) {
    k !in desired && k in observed
  }

  function RemoveOps(desired: Attrs, observed: Attrs, owned: seq<string>): seq<Op> {
    if owned == [] then []
    else
      var n := |owned| - 1;
      RemoveOps(desired, observed, owned[..n])
      + if Dropped(desired, observed, owned[n]) then [Remove(RemoteAttrPath(owned[n]))] else []
  }

  predicate PathAtMost(a: Op, b: Op) {
    AtMost(a.path, b.path)
  }

  /** The emitted operations: these, sorted by path. */
  ghost predicate IsDiff(ops: seq<Op>, desired: Attrs, observed: Attrs, owned: seq<string>) {
    && Sorted(PathAtMost, ops)
    && multiset(ops) ==
       multiset(SetOps(desired.Keys, desired, observed)) + multiset(RemoveOps(desired, observed, owned))
  }

  lemma PathOrderIsTotal()
    ensures TotalPreorder(PathAtMost)
  {
    forall a: Op, b: Op ensures PathAtMost(a, b) || PathAtMost(b, a) {
      LessTrichotomy(a.path, b.path);
    }
    forall a: Op, b: Op, c: Op | PathAtMost(a, b) && PathAtMost(b, c) ensures PathAtMost(a, c) {
      if Less(a.path, b.path) && Less(b.path, c.path) {
        LessTransitive(a.path, b.path, c.path);
      }
    }
  }

  lemma SetOpsGrow(keys: set<string>, k: string, desired: Attrs, observed: Attrs)
    requires k !in keys
    ensures multiset(SetOps(keys + {k}, desired, observed)) ==
            multiset(SetOps(keys, desired, observed))
            + if Wants(desired, observed, k) then multiset{SetOp(desired, observed, k)} else multiset{}
  {
    var before, after := SetOps(keys, desired, observed), SetOps(keys + {k}, desired, observed);
    if Wants(desired, observed, k) {
      var op := SetOp(desired, observed, k);
      forall j | j in keys && Wants(desired, observed, j) ensures SetOp(desired, observed, j) != op {
        if SetOp(desired, observed, j).path == op.path {
          PathsInjective(j, k);
        }
      }
      assert after == before + {op};
    } else {
      assert after == before;
    }
  }

  /** Everything to emit once the desired keys `done` and a prefix of the owned keys were walked. */
  ghost predicate Emitted(ops: seq<Op>, done: set<string>, desired: Attrs, observed: Attrs, owned: seq<string>) {
    multiset(ops) == multiset(SetOps(done, desired, observed)) + multiset(RemoveOps(desired, observed, owned))
  }

  lemma EmitSet(ops: seq<Op>, done: set<string>, k: string, desired: Attrs, observed: Attrs, step: seq<Op>)
    requires Emitted(ops, done, desired, observed, []) && k !in done && k in desired
    requires step == if Wants(desired, observed, k) then [SetOp(desired, observed, k)] else []
    ensures Emitted(ops + step, done + {k}, desired, observed, [])
  {
    SetOpsGrow(done, k, desired, observed);
  }

  lemma EmitRemove(ops: seq<Op>, done: set<string>, desired: Attrs, observed: Attrs, owned: seq<string>, k: string,
                   step: seq<Op>)
    requires Emitted(ops, done, desired, observed, owned)
    requires step == if Dropped(desired, observed, k) then [Remove(RemoteAttrPath(k))] else []
    ensures Emitted(ops + step, done, desired, observed, owned + [k])
  {
    assert (owned + [k])[..|owned|] == owned;
  }

  lemma EmittedSorted(ops: seq<Op>, desired: Attrs, observed: Attrs, owned: seq<string>)
    requires Emitted(ops, desired.Keys, desired, observed, owned)
    ensures IsDiff(Sort(PathAtMost, ops), desired, observed, owned)
  {
    PathOrderIsTotal();
    SortIsSortedPermutation(PathAtMost, ops);
  }

  /** ADD or REPLACE for the keys to set; the map is walked in no particular order. */
  method AddOrReplace(desired: Attrs, observed: Attrs) returns (ops: seq<Op>)
    ensures Emitted(ops, desired.Keys, desired, observed, [])
  {
    ops := [];
    var todo := desired.Keys;
    ghost var done: set<string> := {};
    while todo != {}
      invariant done + todo == desired.Keys && done !! todo
      invariant Emitted(ops, done, desired, observed, [])
      decreases todo
    {
      var key :| key in todo;
      var step := [];
      if key !in observed {
        step := [Add(RemoteAttrPath(key), desired[key])];
      } else if observed[key] != desired[key] {
        step := [Replace(RemoteAttrPath(key), desired[key])];
      }
      EmitSet(ops, done, key, desired, observed, step);
      ops := ops + step;
      todo, done := todo - {key}, done + {key};
    }
    assert done == desired.Keys;
  }

  /** The same operations for every order in which the maps are walked. */
  method Diff(desired: Attrs, observed: Attrs, previouslyOwned: seq<string>) returns (ops: seq<Op>)
    ensures IsDiff(ops, desired, observed, previouslyOwned)
  {
    ops := AddOrReplace(desired, observed);
    for i := 0 to |previouslyOwned|
      invariant Emitted(ops, desired.Keys, desired, observed, previouslyOwned[..i])
    {
      var key := previouslyOwned[i];
      var step := if key in desired || key !in observed then [] else [Remove(RemoteAttrPath(key))];
      EmitRemove(ops, desired.Keys, desired, observed, previouslyOwned[..i], key, step);
      assert previouslyOwned[..i + 1] == previouslyOwned[..i] + [key];
      ops := ops + step;
    }
    assert previouslyOwned[..|previouslyOwned|] == previouslyOwned;
    EmittedSorted(ops, desired, observed, previouslyOwned);
    ops := Sort(PathAtMost, ops);
  }

  // ----- What is in a diff -----

  /** The one operation a key can get. */
  ghost predicate OpFor(op: Op, k: string, desired: Attrs, observed: Attrs, owned: seq<string>) {
    || (Wants(desired, observed, k) && op == SetOp(desired, observed, k))
    || (k in owned && Dropped(desired, observed, k) && op == Remove(RemoteAttrPath(k)))
  }

  lemma {:induction false} RemoveOpsCount(desired: Attrs, observed: Attrs, owned: seq<string>, k: string)
    ensures multiset(RemoveOps(desired, observed, owned))[Remove(RemoteAttrPath(k))] ==
            if Dropped(desired, observed, k) then multiset(owned)[k] else 0
  {
    if owned != [] {
      var n := |owned| - 1;
      assert owned == owned[..n] + [owned[n]];
      RemoveOpsCount(desired, observed, owned[..n], k);
      if RemoteAttrPath(owned[n]) == RemoteAttrPath(k) {
        PathsInjective(owned[n], k);
      }
    }
  }

  lemma {:induction false} RemoveOpsShape(desired: Attrs, observed: Attrs, owned: seq<string>, op: Op)
    requires op in RemoveOps(desired, observed, owned)
    ensures exists k :: k in owned && Dropped(desired, observed, k) && op == Remove(RemoteAttrPath(k))
  {
    var n := |owned| - 1;
    if op in RemoveOps(desired, observed, owned[..n]) {
      RemoveOpsShape(desired, observed, owned[..n], op);
    } else {
      assert owned[n] in owned;
    }
  }

  lemma DiffMembers(ops: seq<Op>, desired: Attrs, observed: Attrs, owned: seq<string>)
    requires IsDiff(ops, desired, observed, owned)
    ensures forall op | op in ops :: exists k :: OpFor(op, k, desired, observed, owned)
    ensures forall op, k | OpFor(op, k, desired, observed, owned) :: op in ops
  {
    var sets, removes := SetOps(desired.Keys, desired, observed), RemoveOps(desired, observed, owned);
    forall op | op in ops ensures exists k :: OpFor(op, k, desired, observed, owned) {
      assert op in multiset(ops);
      if op in sets {
        var k :| k in desired.Keys && Wants(desired, observed, k) && op == SetOp(desired, observed, k);
        assert OpFor(op, k, desired, observed, owned);
      } else {
        RemoveOpsShape(desired, observed, owned, op);
        var k :| k in owned && Dropped(desired, observed, k) && op == Remove(RemoteAttrPath(k));
        assert OpFor(op, k, desired, observed, owned);
      }
    }
    forall op, k | OpFor(op, k, desired, observed, owned) ensures op in ops {
      if k in desired {
        assert op in sets;
      } else {
        RemoveOpsCount(desired, observed, owned, k);
        assert k in multiset(owned);
        assert op in multiset(removes);
      }
      assert op in multiset(ops);
    }
  }

  /** Operations with the same path are the same operation. */
  lemma SamePathSameOp(ops: seq<Op>, desired: Attrs, observed: Attrs, owned: seq<string>, a: Op, b: Op)
    requires IsDiff(ops, desired, observed, owned)
    requires a in ops && b in ops && a.path == b.path
    ensures a == b
  {
    DiffMembers(ops, desired, observed, owned);
    var j :| OpFor(a, j, desired, observed, owned);
    var k :| OpFor(b, k, desired, observed, owned);
    PathsInjective(j, k);
  }

  /** The result does not depend on the order in which the maps are walked. */
  lemma DiffDeterministic(x: seq<Op>, y: seq<Op>, desired: Attrs, observed: Attrs, owned: seq<string>)
    requires IsDiff(x, desired, observed, owned) && IsDiff(y, desired, observed, owned)
    ensures x == y
  {
    forall a, b | a in x && b in x && PathAtMost(a, b) && PathAtMost(b, a) ensures a == b {
      LessTrichotomy(a.path, b.path);
      SamePathSameOp(x, desired, observed, owned, a, b);
    }
    assert TiesAreEqual(PathAtMost, x);
    SortedUnique(PathAtMost, x, y);
  }

  /** Every dropped key was listed once. */
  ghost predicate DroppedOnce(desired: Attrs, observed: Attrs, owned: seq<string>) {
    forall k | Dropped(desired, observed, k) :: multiset(owned)[k] <= 1
  }

  lemma DiffMultiplicity(ops: seq<Op>, desired: Attrs, observed: Attrs, owned: seq<string>, op: Op, k: string)
    requires IsDiff(ops, desired, observed, owned) && OpFor(op, k, desired, observed, owned)
    ensures multiset(ops)[op] == if k in desired then 1 else multiset(owned)[k]
  {
    RemoveOpsCount(desired, observed, owned, k);
    var sets, removes := SetOps(desired.Keys, desired, observed), RemoveOps(desired, observed, owned);
    if k in desired {
      if op in removes {
        RemoveOpsShape(desired, observed, owned, op);
      }
      assert op in sets;
    } else {
      assert op.Remove?;
      assert op !in sets;
    }
  }

  /** The paths are strictly increasing exactly when no dropped key was listed twice. */
  lemma PathsDistinctExactly(ops: seq<Op>, desired: Attrs, observed: Attrs, owned: seq<string>)
    requires IsDiff(ops, desired, observed, owned)
    ensures (forall i, j | 0 <= i < j < |ops| :: Less(ops[i].path, ops[j].path))
       <==> DroppedOnce(desired, observed, owned)
  {
    if DroppedOnce(desired, observed, owned) {
      forall i, j | 0 <= i < j < |ops| ensures Less(ops[i].path, ops[j].path) {
        assert PathAtMost(ops[i], ops[j]);
        if ops[i].path == ops[j].path {
          SamePathSameOp(ops, desired, observed, owned, ops[i], ops[j]);
          RepeatedElement(ops, i, j);
          DiffMembers(ops, desired, observed, owned);
          var k :| OpFor(ops[i], k, desired, observed, owned);
          DiffMultiplicity(ops, desired, observed, owned, ops[i], k);
        }
      }
    } else {
      var k :| Dropped(desired, observed, k) && multiset(owned)[k] >= 2;
      assert k in multiset(owned);
      var op := Remove(RemoteAttrPath(k));
      assert OpFor(op, k, desired, observed, owned);
      DiffMultiplicity(ops, desired, observed, owned, op, k);
      CountedTwice(ops, op);
      LessIrreflexive(op.path);
    }
  }

  // ----- Applying a diff -----

  ghost predicate Distinct(ops: seq<Op>) {
    forall i, j | 0 <= i < j < |ops| :: ops[i].path != ops[j].path
  }

  function Effect(op: Op): Option<string> {
    if op.Remove? then None else Some(op.value)
  }

  /** The operation addresses `k` and finds its target in `m`. */
  ghost predicate Applicable(op: Op, k: string, m: Attrs) {
    op.path == RemoteAttrPath(k) && (!op.Add? ==> k in m)
  }

  ghost predicate AllApplicable(ops: seq<Op>, m: Attrs) {
    forall op | op in ops :: exists k :: Applicable(op, k, m)
  }

  lemma ApplyOne(m: Attrs, op: Op, k: string)
    requires Applicable(op, k, m)
    ensures ApplyOp(m, op).Some?
    ensures forall j :: At(ApplyOp(m, op).value, j) == if j == k then Effect(op) else At(m, j)
  {
    PathDecodesToKey(k);
  }

  /** Operations on distinct paths do not disturb one another. */
  lemma {:induction false} ApplyDistinct(m: Attrs, ops: seq<Op>)
    requires Distinct(ops) && AllApplicable(ops, m)
    ensures ApplyOps(m, ops).Some?
    ensures forall op, k | op in ops && op.path == RemoteAttrPath(k) :: At(ApplyOps(m, ops).value, k) == Effect(op)
    ensures forall k | (forall op | op in ops :: op.path != RemoteAttrPath(k)) ::
              At(ApplyOps(m, ops).value, k) == At(m, k)
    decreases |ops|
  {
    if ops != [] {
      var op, rest := ops[0], ops[1..];
      assert op in ops;
      var k :| Applicable(op, k, m);
      ApplyOne(m, op, k);
      var m' := ApplyOp(m, op).value;
      forall o | o in rest ensures exists j :: Applicable(o, j, m') {
        assert o in ops;
        var j :| Applicable(o, j, m);
        assert j != k;
        assert At(m', j) == At(m, j);
        assert Applicable(o, j, m');
      }
      ApplyDistinct(m', rest);
      forall o, j | o in ops && o.path == RemoteAttrPath(j) ensures At(ApplyOps(m, ops).value, j) == Effect(o) {
        if o in rest {
        } else {
          PathsInjective(j, k);
          assert forall r | r in rest :: r.path != RemoteAttrPath(j);
        }
      }
      forall j | (forall o | o in ops :: o.path != RemoteAttrPath(j))
        ensures At(ApplyOps(m, ops).value, j) == At(m, j)
      {
        assert forall r | r in rest :: r in ops;
      }
    }
  }

  /** A permutation of a diff with distinct paths has distinct paths. */
  lemma PermutationDistinct(x: seq<Op>, y: seq<Op>)
    requires Distinct(x) && multiset(x) == multiset(y)
    ensures Distinct(y)
  {
    forall i, j | 0 <= i < j < |y| ensures y[i].path != y[j].path {
      if y[i].path == y[j].path {
        assert y[i] in multiset(x) && y[j] in multiset(x);
        if y[i] == y[j] {
          RepeatedElement(y, i, j);
          CountedTwice(x, y[i]);
        }
      }
    }
  }

  lemma DiffIsDistinct(ops: seq<Op>, desired: Attrs, observed: Attrs, owned: seq<string>)
    requires IsDiff(ops, desired, observed, owned) && DroppedOnce(desired, observed, owned)
    ensures Distinct(ops)
  {
    PathsDistinctExactly(ops, desired, observed, owned);
    forall i, j | 0 <= i < j < |ops| ensures ops[i].path != ops[j].path {
      LessIrreflexive(ops[i].path);
    }
  }

  lemma DiffApplicable(ops: seq<Op>, desired: Attrs, observed: Attrs, owned: seq<string>)
    requires IsDiff(ops, desired, observed, owned)
    ensures AllApplicable(ops, observed)
  {
    DiffMembers(ops, desired, observed, owned);
    forall op | op in ops ensures exists k :: Applicable(op, k, observed) {
      var k :| OpFor(op, k, desired, observed, owned);
      assert Applicable(op, k, observed);
    }
  }

  /** Applied in any order, the operations give observed, overridden by desired, minus the dropped keys. */
  lemma ApplyInAnyOrder(ops: seq<Op>, desired: Attrs, observed: Attrs, owned: seq<string>, order: seq<Op>)
    requires IsDiff(ops, desired, observed, owned) && DroppedOnce(desired, observed, owned)
    requires multiset(order) == multiset(ops)
    ensures ApplyOps(observed, order) == Some(Target(desired, observed, owned))
  {
    DiffIsDistinct(ops, desired, observed, owned);
    PermutationDistinct(ops, order);
    DiffApplicable(ops, desired, observed, owned);
    DiffMembers(ops, desired, observed, owned);
    assert forall op :: op in order <==> op in multiset(order);
    assert forall op :: op in ops <==> op in multiset(ops);
    ApplyDistinct(observed, order);
    var result, target := ApplyOps(observed, order).value, Target(desired, observed, owned);
    forall k ensures At(result, k) == At(target, k) {
      KeyAfterDiff(ops, desired, observed, owned, order, k);
    }
    AtDetermines(result, target);
  }

  lemma KeySetBy(m: Attrs, ops: seq<Op>, op: Op, k: string)
    requires Distinct(ops) && AllApplicable(ops, m) && op in ops && op.path == RemoteAttrPath(k)
    ensures ApplyOps(m, ops).Some? && At(ApplyOps(m, ops).value, k) == Effect(op)
  {
    ApplyDistinct(m, ops);
  }

  lemma KeyUntouched(m: Attrs, ops: seq<Op>, k: string)
    requires Distinct(ops) && AllApplicable(ops, m)
    requires forall op | op in ops :: op.path != RemoteAttrPath(k)
    ensures ApplyOps(m, ops).Some? && At(ApplyOps(m, ops).value, k) == At(m, k)
  {
    ApplyDistinct(m, ops);
  }

  lemma OpForIsEmitted(ops: seq<Op>, desired: Attrs, observed: Attrs, owned: seq<string>, op: Op, k: string)
    requires IsDiff(ops, desired, observed, owned) && OpFor(op, k, desired, observed, owned)
    ensures op in ops
  {
    DiffMembers(ops, desired, observed, owned);
  }

  lemma KeyAfterDiff(ops: seq<Op>, desired: Attrs, observed: Attrs, owned: seq<string>, order: seq<Op>, k: string)
    requires IsDiff(ops, desired, observed, owned)
    requires forall op :: op in order <==> op in ops
    requires Distinct(order) && AllApplicable(order, observed)
    ensures ApplyOps(observed, order).Some?
    ensures At(ApplyOps(observed, order).value, k) == At(Target(desired, observed, owned), k)
  {
    if Wants(desired, observed, k) {
      var op := SetOp(desired, observed, k);
      OpForIsEmitted(ops, desired, observed, owned, op, k);
      KeySetBy(observed, order, op, k);
    } else if k in owned && Dropped(desired, observed, k) {
      var op := Remove(RemoteAttrPath(k));
      OpForIsEmitted(ops, desired, observed, owned, op, k);
      KeySetBy(observed, order, op, k);
    } else {
      forall op | op in order ensures op.path != RemoteAttrPath(k) {
        OtherPath(ops, desired, observed, owned, op, k);
      }
      KeyUntouched(observed, order, k);
    }
  }

  lemma OtherPath(ops: seq<Op>, desired: Attrs, observed: Attrs, owned: seq<string>, op: Op, k: string)
    requires IsDiff(ops, desired, observed, owned) && op in ops
    requires forall o :: !OpFor(o, k, desired, observed, owned)
    ensures op.path != RemoteAttrPath(k)
  {
    DiffMembers(ops, desired, observed, owned);
    var j :| OpFor(op, j, desired, observed, owned);
    if op.path == RemoteAttrPath(k) {
      PathsInjective(j, k);
    }
  }

  /** Every operation changes the attributes. */
  lemma EveryOpChanges(ops: seq<Op>, desired: Attrs, observed: Attrs, owned: seq<string>, op: Op)
    requires IsDiff(ops, desired, observed, owned) && op in ops
    ensures ApplyOp(observed, op).Some? && ApplyOp(observed, op).value != observed
  {
    DiffMembers(ops, desired, observed, owned);
    var k :| OpFor(op, k, desired, observed, owned);
    ApplyOne(observed, op, k);
    assert At(ApplyOp(observed, op).value, k) != At(observed, k);
  }

  /** Diffing again after the operations took effect yields nothing. */
  lemma RediffIsEmpty(ops: seq<Op>, desired: Attrs, observed: Attrs, owned: seq<string>)
    requires IsDiff(ops, desired, Target(desired, observed, owned), owned)
    ensures ops == []
  {
    var target := Target(desired, observed, owned);
    assert |ops| > 0 ==> ops[0] in ops;
    assert forall op, k :: !OpFor(op, k, desired, target, owned);
    DiffMembers(ops, desired, target, owned);
  }

  // ----- No shorter patch -----

  ghost function Differing(m: Attrs, n: Attrs): set<string> {
    set k | k in m.Keys + n.Keys && At(m, k) != At(n, k)
  }

  lemma {:induction false} PatchTouchesEnough(m: Attrs, ops: seq<Op>, n: Attrs)
    requires ApplyOps(m, ops) == Some(n)
    ensures |Differing(m, n)| <= |ops|
    decreases |ops|
  {
    if ops != [] {
      var m' := ApplyOp(m, ops[0]).value;
      var k := KeyOf(ops[0].path).value;
      PatchTouchesEnough(m', ops[1..], n);
      forall j | j in Differing(m, n) ensures j in Differing(m', n) + {k} {
        if j != k {
          assert At(m', j) == At(m, j);
        }
      }
      SubsetSize(Differing(m, n), Differing(m', n) + {k});
    } else {
      assert Differing(m, n) == {};
    }
  }

  lemma SubsetSize<T>(a: set<T>, b: set<T>)
    requires a <= b
    ensures |a| <= |b|
  {
    assert b == a + (b - a);
  }

  /** No patch that reaches the target is shorter. */
  lemma DiffIsMinimal(ops: seq<Op>, desired: Attrs, observed: Attrs, owned: seq<string>, other: seq<Op>)
    requires IsDiff(ops, desired, observed, owned) && DroppedOnce(desired, observed, owned)
    requires ApplyOps(observed, other) == Some(Target(desired, observed, owned))
    ensures |ops| <= |other|
  {
    var target := Target(desired, observed, owned);
    PatchTouchesEnough(observed, other, target);
    DiffIsDistinct(ops, desired, observed, owned);
    DiffMembers(ops, desired, observed, owned);
    forall op | op in ops ensures exists k :: k in Differing(observed, target) && op.path == RemoteAttrPath(k) {
      var k :| OpFor(op, k, desired, observed, owned);
      assert k in Differing(observed, target);
    }
    DistinctOpsCount(ops, Differing(observed, target));
  }

  lemma {:induction false} DistinctOpsCount(ops: seq<Op>, keys: set<string>)
    requires Distinct(ops)
    requires forall op | op in ops :: exists k :: k in keys && op.path == RemoteAttrPath(k)
    ensures |ops| <= |keys|
  {
    if ops != [] {
      assert ops[0] in ops;
      var k :| k in keys && ops[0].path == RemoteAttrPath(k);
      forall op | op in ops[1..] ensures exists j :: j in keys - {k} && op.path == RemoteAttrPath(j) {
        assert op in ops;
        var j :| j in keys && op.path == RemoteAttrPath(j);
        assert j != k;
      }
      DistinctOpsCount(ops[1..], keys - {k});
    }
  }

  /** The operations come in the order of their paths. */
  lemma DiffInPathOrder(ops: seq<Op>, desired: Attrs, observed: Attrs, owned: seq<string>, i: int, j: int)
    requires IsDiff(ops, desired, observed, owned) && 0 <= i < j < |ops|
    ensures ops[i].path == ops[j].path || Less(ops[i].path, ops[j].path)
  {
    assert PathAtMost(ops[i], ops[j]);
  }
}
