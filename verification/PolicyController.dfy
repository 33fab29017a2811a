/** The RemoteAttributePolicy controller: who a policy matches, which policies a collector event wakes,
    and the status write it may skip. */
module PolicyController {
  import opened Common
  import opened Strings
  import opened Sorting
  import opened StringSort
  import opened SelectorMatch

  const MAX_MATCHED_IDS := 1000

  datatype Policy = Policy(namespace: string, name: string, selector: Selector, priority: int, attributes: Attrs)

  // ----- Evaluation -----

  ghost predicate MatchedId(e: Engine, s: Selector, collectors: seq<Collector>, id: string) {
    exists c | c in collectors :: c.id == id && Selects(e, s, c)
  }

  /** The matched collector ids, sorted and without duplicates. */
  method EvaluatePolicySelector(e: Engine, s: Selector, collectors: seq<Collector>) returns (ids: seq<string>)
    ensures StrictlySorted(ids)
    ensures forall id :: id in ids <==> MatchedId(e, s, collectors, id)
  {
    var matched: seq<string> := [];
    var seen: set<string> := {};
    for i := 0 to |collectors|
      invariant NoDuplicates(matched)
      invariant forall id :: id in matched <==> id in seen
      invariant forall id :: id in seen <==> MatchedId(e, s, collectors[..i], id)
    {
      var c := collectors[i];
      assert collectors[..i + 1] == collectors[..i] + [c];
      assert forall d :: d in collectors[..i + 1] <==> d in collectors[..i] || d == c;
      if Match(e, s, c.id, SelectorAttrs(c)) && c.id !in seen {
        seen := seen + {c.id};
        matched := matched + [c.id];
      }
    }
    assert collectors[..|collectors|] == collectors;
    SortedDistinct(matched);
    ids := Sort(AtMost, matched);
  }

  /** A policy with one equality matcher matches exactly the collectors whose reported attribute, or id for
      collector.id, is the value, and the listed ones. */
  lemma EqualityMatchesExactly(e: Engine, m: string, ids: seq<string>, collectors: seq<Collector>, id: string,
                               key: string, raw: string, value: string)
    requires e.parse(m) == Some(Parsed(key, Equal, raw)) && Bare(raw, value)
    ensures MatchedId(e, Selector([m], ids), collectors, id) <==>
              exists c | c in collectors ::
                && c.id == id
                && (c.id in ids || Sees(key, c.id, c.localAttributes, value))
  {
    forall c | c in collectors
      ensures Selects(e, Selector([m], ids), c) <==> c.id in ids || Sees(key, c.id, c.localAttributes, value)
    {
      var attrs := SelectorAttrs(c);
      SelectorIsConjunction(e, Selector([m], ids), c.id, attrs);
      assert m in [m] && forall x | x in [m] :: x == m;
      OperatorsMean(e, m, key, Equal, raw, value, c.id, attrs, Reads(key, c.id, attrs));
    }
  }

  // ----- The collector watch -----

  datatype NamespacedName = NamespacedName(namespace: string, name: string)

  /** What a List by namespace and index key returns. */
  method ListByIndex(e: Engine, policies: seq<Policy>, namespace: string, key: string) returns (found: seq<Policy>)
    ensures forall p :: p in found <==> p in policies && p.namespace == namespace && Indexed(e, p.selector, key)
  {
    found := [];
    for i := 0 to |policies|
      invariant forall p :: p in found <==>
                  p in policies[..i] && p.namespace == namespace && Indexed(e, p.selector, key)
    {
      assert policies[..i + 1] == policies[..i] + [policies[i]];
      var keys := IndexKeys(e, policies[i].selector);
      if policies[i].namespace == namespace && key in keys {
        found := found + [policies[i]];
      }
    }
    assert policies[..|policies|] == policies;
  }

  ghost predicate FoundUnder(e: Engine, policies: seq<Policy>, c: Collector, keys: set<string>, r: NamespacedName) {
    exists p, k | p in policies && k in keys ::
      p.namespace == c.namespace && Indexed(e, p.selector, k) && r == NamespacedName(p.namespace, p.name)
  }

  /** The lookup is the union over the collector's keys, without duplicates. A key whose list fails is
      passed over. */
  method MapCollectorToAffectedPolicies(e: Engine, policies: seq<Policy>, c: Collector, failing: set<string>)
    returns (reqs: seq<NamespacedName>)
    ensures forall i, j | 0 <= i < j < |reqs| :: reqs[i] != reqs[j]
    ensures forall r :: r in reqs <==> FoundUnder(e, policies, c, LookupKeys(c) - failing, r)
  {
    reqs := [];
    var todo := LookupKeys(c);
    ghost var done: set<string> := {};
    while todo != {}
      invariant done + todo == LookupKeys(c) && done !! todo
      invariant forall i, j | 0 <= i < j < |reqs| :: reqs[i] != reqs[j]
      invariant forall r :: r in reqs <==> FoundUnder(e, policies, c, done - failing, r)
      decreases todo
    {
      var key :| key in todo;
      if key in failing {
        assert done + {key} - failing == done - failing;
      } else {
        var list := ListByIndex(e, policies, c.namespace, key);
        assert done + {key} - failing == (done - failing) + {key};
        forall r
          ensures FoundUnder(e, policies, c, (done - failing) + {key}, r)
             <==> || FoundUnder(e, policies, c, done - failing, r)
                  || exists p | p in list :: r == NamespacedName(p.namespace, p.name)
        {
          FoundUnderNext(e, policies, c, done - failing, key, list, r);
        }
        reqs := AppendNew(reqs, list);
      }
      todo, done := todo - {key}, done + {key};
    }
    assert done == LookupKeys(c);
  }

  lemma FoundUnderNext(e: Engine, policies: seq<Policy>, c: Collector, keys: set<string>, key: string,
                       list: seq<Policy>, r: NamespacedName)
    requires forall p :: p in list <==> p in policies && p.namespace == c.namespace && Indexed(e, p.selector, key)
    ensures FoundUnder(e, policies, c, keys + {key}, r)
       <==> FoundUnder(e, policies, c, keys, r) || exists p | p in list :: r == NamespacedName(p.namespace, p.name)
  {
    if FoundUnder(e, policies, c, keys + {key}, r) && !FoundUnder(e, policies, c, keys, r) {
      var p, k :| p in policies && k in keys + {key} && p.namespace == c.namespace
                  && Indexed(e, p.selector, k) && r == NamespacedName(p.namespace, p.name);
      assert p in list;
    }
  }

  method AppendNew(reqs: seq<NamespacedName>, list: seq<Policy>) returns (all: seq<NamespacedName>)
    requires forall i, j | 0 <= i < j < |reqs| :: reqs[i] != reqs[j]
    ensures forall i, j | 0 <= i < j < |all| :: all[i] != all[j]
    ensures forall r :: r in all <==> r in reqs || exists p | p in list :: r == NamespacedName(p.namespace, p.name)
  {
    all := reqs;
    for i := 0 to |list|
      invariant forall i, j | 0 <= i < j < |all| :: all[i] != all[j]
      invariant forall r :: r in all <==>
                  r in reqs || exists p | p in list[..i] :: r == NamespacedName(p.namespace, p.name)
    {
      var nn := NamespacedName(list[i].namespace, list[i].name);
      assert list[..i + 1] == list[..i] + [list[i]];
      assert forall p :: p in list[..i + 1] <==> p in list[..i] || p == list[i];
      if nn !in all {
        all := all + [nn];
      }
    }
    assert list[..|list|] == list;
  }

  /** Every policy with a covered selector that matches the collector is enqueued by its event, unless the
      list of every key it is indexed under fails. */
  lemma MatchedPolicyIsEnqueued(e: Engine, policies: seq<Policy>, c: Collector, p: Policy, failing: set<string>,
                                reqs: seq<NamespacedName>)
    requires p in policies && p.namespace == c.namespace && Covered(e, p.selector) && Selects(e, p.selector, c)
    requires forall r :: r in reqs <==> FoundUnder(e, policies, c, LookupKeys(c) - failing, r)
    ensures || NamespacedName(p.namespace, p.name) in reqs
            || exists k :: k in failing && k in LookupKeys(c) && Indexed(e, p.selector, k)
  {
    CoveredIsWoken(e, p.selector, c);
    var k :| k in LookupKeys(c) && Indexed(e, p.selector, k);
    if k !in failing {
      var keys, r := LookupKeys(c) - failing, NamespacedName(p.namespace, p.name);
      assert k in keys && p in policies;
      assert FoundUnder(e, policies, c, keys, r);
    }
  }

  // ----- The status write -----

  datatype Condition = Condition(ok: bool, reason: string, count: int, generation: nat)

  datatype PolicyStatus = PolicyStatus(observedGeneration: nat, matchedCount: int, matchedIDs: seq<string>,
                                       truncated: Option<Condition>, ready: Option<Condition>,
                                       synced: Option<Condition>)

  function Capped(ids: seq<string>): seq<string> {
    if |ids| > MAX_MATCHED_IDS then ids[..MAX_MATCHED_IDS] else ids
  }

  /** The full write after a successful evaluation. */
  function WriteMatched(generation: nat, ids: seq<string>): PolicyStatus {
    var over := |ids| > MAX_MATCHED_IDS;
    var reason := if |ids| > 0 then "Matched" else "NoMatch";
    PolicyStatus(generation, Int32(|ids|), Capped(ids),
                 Some(Condition(over, if over then "MatchedIDsTruncated" else "NotTruncated", 0, generation)),
                 Some(Condition(|ids| > 0, reason, |ids|, generation)),
                 Some(Condition(true, reason, |ids|, generation)))
  }

  function WriteListFailed(s: PolicyStatus, generation: nat): PolicyStatus {
    var failed := Some(Condition(false, "ListFailed", 0, generation));
    s.(observedGeneration := generation, ready := failed, synced := failed)
  }

  /** The no-op check. */
  predicate StatusUnchanged(s: PolicyStatus, generation: nat, ids: seq<string>) {
    && s.observedGeneration == generation
    && s.matchedCount == Int32(|ids|)
    && s.matchedIDs == Capped(ids)
    && (if s.truncated.None? then |ids| <= MAX_MATCHED_IDS else s.truncated.value.ok == (|ids| > MAX_MATCHED_IDS))
  }

  function ReconcileStatus(s: PolicyStatus, generation: nat, ids: seq<string>): PolicyStatus {
    if StatusUnchanged(s, generation, ids) then s else WriteMatched(generation, ids)
  }

  /** The check does not look at Ready: after a failed List, evaluations that match the same ids at the
      same generation are skipped and the policy keeps reporting the failure. */
  lemma FailedListSticks(generation: nat, ids: seq<string>)
    ensures var s := WriteListFailed(WriteMatched(generation, ids), generation);
            ReconcileStatus(s, generation, ids) == s && s.ready.value.reason == "ListFailed"
  {}

  /** One reconcile: the evaluation's ids, or None when listing the collectors failed. */
  function AfterReconcile(s: PolicyStatus, generation: nat, ids: Option<seq<string>>, stored: bool): PolicyStatus {
    var wanted := if ids.None? then WriteListFailed(s, generation) else ReconcileStatus(s, generation, ids.value);
    if stored then wanted else s
  }

  class RemoteAttributePolicyReconciler {
    const policy: Policy
    var generation: nat
    var stored: PolicyStatus
    var copy: PolicyStatus

    constructor (policy: Policy, generation: nat, stored: PolicyStatus)
      ensures this.policy == policy && this.generation == generation && this.stored == stored
    {
      this.policy, this.generation, this.stored, copy := policy, generation, stored, stored;
    }

    method WriteStatus(write: bool)
      modifies `stored
      ensures stored == if write then copy else old(stored)
    {
      if write {
        stored := copy;
      }
    }

    method UpdateStatusMatched(ids: seq<string>, write: bool)
      modifies `copy, `stored
      ensures stored == if write then WriteMatched(generation, ids) else old(stored)
    {
      copy := copy.(observedGeneration := generation, matchedCount := Int32(|ids|));
      var capped := ids;
      if |ids| > MAX_MATCHED_IDS {
        capped := ids[..MAX_MATCHED_IDS];
        copy := copy.(truncated := Some(Condition(true, "MatchedIDsTruncated", 0, generation)));
      } else {
        copy := copy.(truncated := Some(Condition(false, "NotTruncated", 0, generation)));
      }
      copy := copy.(matchedIDs := capped);
      if |ids| > 0 {
        copy := copy.(ready := Some(Condition(true, "Matched", |ids|, generation)));
        copy := copy.(synced := Some(Condition(true, "Matched", |ids|, generation)));
      } else {
        copy := copy.(ready := Some(Condition(false, "NoMatch", 0, generation)));
        copy := copy.(synced := Some(Condition(true, "NoMatch", 0, generation)));
      }
      WriteStatus(write);
    }

    method UpdateStatusError(write: bool)
      requires copy == stored
      modifies `copy, `stored
      ensures stored == if write then WriteListFailed(old(stored), generation) else old(stored)
    {
      copy := copy.(observedGeneration := generation);
      copy := copy.(ready := Some(Condition(false, "ListFailed", 0, generation)));
      copy := copy.(synced := Some(Condition(false, "ListFailed", 0, generation)));
      WriteStatus(write);
    }

    /** One reconcile: list, evaluate, and write unless the no-op check fires. */
    method Reconcile(e: Engine, collectors: Option<seq<Collector>>, write: bool)
      returns (ghost ids: Option<seq<string>>)
      modifies `copy, `stored
      ensures ids.Some? <==> collectors.Some?
      ensures ids.Some? ==> StrictlySorted(ids.value)
      ensures ids.Some? ==> forall id :: id in ids.value <==> MatchedId(e, policy.selector, collectors.value, id)
      ensures stored == AfterReconcile(old(stored), generation, ids, write)
    {
      copy := stored;
      if collectors.None? {
        ids := None;
        UpdateStatusError(write);
        return;
      }
      var matched := EvaluatePolicySelector(e, policy.selector, collectors.value);
      ids := Some(matched);
      if !StatusUnchanged(copy, generation, matched) {
        UpdateStatusMatched(matched, write);
      }
    }
  }
}
