/** Whole runs of one RemoteAttributePolicy's status: evaluations, failing lists, lost writes and spec edits. */
module PolicyRuns {
  import opened Common
  import opened PolicyController

  datatype Event = Evaluated(ids: seq<string>, stored: bool) | ListFailed(stored: bool) | EditSpec

  /** The resource's generation and status, and whether the last status write was a failing list's. */
  datatype World = World(generation: nat, status: PolicyStatus, lastFailed: bool)

  predicate PossibleEvent(e: Event) {
    e.Evaluated? ==> |e.ids| < 0x8000_0000
  }

  function Apply(w: World, e: Event): World {
    match e
    case EditSpec => w.(generation := w.generation + 1)
    case ListFailed(stored) =>
      World(w.generation, AfterReconcile(w.status, w.generation, None, stored), w.lastFailed || stored)
    case Evaluated(ids, stored) =>
      World(w.generation, AfterReconcile(w.status, w.generation, Some(ids), stored),
            w.lastFailed && (!stored || StatusUnchanged(w.status, w.generation, ids)))
  }

  function ApplyAll(w: World, es: seq<Event>): World
    decreases |es|
  {
    if es == [] then w else ApplyAll(Apply(w, es[0]), es[1..])
  }

  /** What Ready says about the matched fields of a status. */
  function Verdict(s: PolicyStatus): Condition {
    Condition(s.matchedCount > 0, if s.matchedCount > 0 then "Matched" else "NoMatch",
              s.matchedCount, s.observedGeneration)
  }

  /** The matched fields agree with one another. */
  predicate FieldsAgree(s: PolicyStatus) {
    && 0 <= s.matchedCount < 0x8000_0000
    && (if s.truncated.None? then s.matchedCount == 0 else s.truncated.value.ok == (s.matchedCount > MAX_MATCHED_IDS))
    && (s.truncated.Some? ==> s.truncated.value.reason ==
                              if s.truncated.value.ok then "MatchedIDsTruncated" else "NotTruncated")
  }

  /** Ready is the verdict of the stored matched fields at the observed generation, or a failing list's, and
      missing only before the first write. Synced differs only in being true for a verdict of no match. */
  predicate ReadyTracks(w: World) {
    var s := w.status;
    && s.observedGeneration <= w.generation && 0 < w.generation && FieldsAgree(s)
    && (if w.lastFailed then s.ready == Some(Condition(false, "ListFailed", 0, s.observedGeneration))
        else if s.observedGeneration == 0 then s.ready == None
        else s.ready == Some(Verdict(s)))
    && (if !w.lastFailed && s.ready.Some? then s.synced == Some(Verdict(s).(ok := true)) else s.synced == s.ready)
  }

  lemma StepKeepsReadyTracks(w: World, e: Event)
    requires ReadyTracks(w) && PossibleEvent(e)
    ensures ReadyTracks(Apply(w, e))
  {
    if e.Evaluated? {
      Int32Exact(|e.ids|);
    }
  }

  lemma {:induction false} RunKeepsReadyTracks(w: World, es: seq<Event>)
    requires ReadyTracks(w) && forall e | e in es :: PossibleEvent(e)
    ensures ReadyTracks(ApplyAll(w, es))
    decreases |es|
  {
    if es != [] {
      assert es[0] in es && forall e | e in es[1..] :: e in es;
      StepKeepsReadyTracks(w, es[0]);
      RunKeepsReadyTracks(Apply(w, es[0]), es[1..]);
    }
  }

  /** A new policy starts such a run. */
  lemma FreshReadyTracks(generation: nat)
    requires generation > 0
    ensures ReadyTracks(World(generation, PolicyStatus(0, 0, [], None, None, None), false))
  {}

  /** A stored reconcile with this evaluation reports something else. */
  predicate StaleAfter(w: World, ids: seq<string>) {
    Apply(w, Evaluated(ids, true)).status.ready != WriteMatched(w.generation, ids).ready
  }

  /** The last status write was a failing list's, over the fields this evaluation would write. */
  predicate FailedOverSame(w: World, ids: seq<string>) {
    && w.lastFailed && w.status.observedGeneration == w.generation
    && w.status.matchedCount == |ids| && w.status.matchedIDs == Capped(ids)
  }

  /** Over every run, an evaluation leaves Ready different from its verdict if and only if the last status
      write was a failing list's and the evaluation's count, capped ids and generation are the stored ones. */
  lemma ReadyStaleExactly(w: World, es: seq<Event>, ids: seq<string>)
    requires ReadyTracks(w) && (forall e | e in es :: PossibleEvent(e)) && |ids| < 0x8000_0000
    ensures StaleAfter(ApplyAll(w, es), ids) <==> FailedOverSame(ApplyAll(w, es), ids)
  {
    RunKeepsReadyTracks(w, es);
    Int32Exact(|ids|);
  }

  /** And it stays different for as long as evaluations find the same and nothing else happens. */
  lemma {:induction false} StaleReadyStays(w: World, ids: seq<string>, es: seq<Event>)
    requires ReadyTracks(w) && FailedOverSame(w, ids) && |ids| < 0x8000_0000
    requires forall e | e in es :: e.Evaluated? && e.ids == ids
    ensures ApplyAll(w, es) == w
    decreases |es|
  {
    if es != [] {
      assert es[0] in es && forall e | e in es[1..] :: e in es;
      Int32Exact(|ids|);
      StaleReadyStays(w, ids, es[1..]);
    }
  }

  // ----- What a stored reconcile leaves -----

  /** Ready and Synced of an evaluation that matched so many collectors. */
  predicate Reports(s: PolicyStatus, count: int, generation: nat) {
    && s.ready == Some(Condition(count > 0, if count > 0 then "Matched" else "NoMatch", count, generation))
    && s.synced == Some(Condition(true, if count > 0 then "Matched" else "NoMatch", count, generation))
  }

  /** Over every run, a stored evaluation leaves the full count, the first thousand ids and whether any were
      left out, at the current generation, and, unless Ready is stale, Ready and Synced say whether it matched. */
  lemma StoredEvaluationPublishes(w: World, es: seq<Event>, ids: seq<string>)
    requires ReadyTracks(w) && (forall e | e in es :: PossibleEvent(e)) && |ids| < 0x8000_0000
    ensures var v := ApplyAll(w, es); var s := Apply(v, Evaluated(ids, true)).status;
            && s.observedGeneration == v.generation && s.matchedCount == |ids|
            && s.matchedIDs == (if |ids| <= 1000 then ids else ids[..1000])
            && (s.truncated.Some? && s.truncated.value.ok <==> |ids| > 1000)
            && (!FailedOverSame(v, ids) ==> Reports(s, |ids|, v.generation))
  {
    RunKeepsReadyTracks(w, es);
    Int32Exact(|ids|);
  }

  /** A stored failing list says so in both conditions, and keeps what was matched. */
  lemma FailedListReported(w: World)
    ensures var s := Apply(w, ListFailed(true)).status;
            && s.ready == Some(Condition(false, "ListFailed", 0, w.generation)) && s.synced == s.ready
            && s == w.status.(observedGeneration := w.generation, ready := s.ready, synced := s.synced)
  {}
}
