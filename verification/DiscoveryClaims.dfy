/** What a poll nobody disturbs does with every id: create its Collector, take it over, or say why not. */
module DiscoveryClaims {
  import opened Common
  import opened Strings
  import opened Sorting
  import opened DiscoveryNames
  import opened DiscoveryMirror
  import opened DiscoveryRuns

  /** The labels, or for a Collector without the namespace label the annotation, name the discovery. */
  predicate Belongs(cr: Collector, cd: Discovery) {
    && cr.nameLabel == Some(cd.name)
    && (cr.namespaceLabel.Some? ==> cr.namespaceLabel.value == cd.namespace)
    && (cr.namespaceLabel.None? ==> cr.discoveredBy == Some(cd.namespace + "/" + cd.name))
  }

  lemma BelongsIsOwned(cr: Collector, cd: Discovery)
    requires cd.name != ""
    ensures Owned(cr, cd) <==> Belongs(cr, cd)
  {}

  /** Why the Collector holding the name is not the id's: it has no discovery, another one, or another id. */
  function WhyNot(cr: Collector, cd: Discovery): Reason {
    if cr.nameLabel == None then NotOwned else if !Belongs(cr, cd) then OwnedByOther else SanitizeFailed
  }

  /** The id is claimed when the holder of its name is its own, and reported with the reason otherwise. */
  ghost predicate Judged(cd: Discovery, holder: Collector, id: string, name: string, current: set<string>,
                         conflicts: seq<DiscoveryConflict>) {
    if Belongs(holder, cd) && holder.id == id then id in current
    else id !in current && DiscoveryConflict(id, name, WhyNot(holder, cd)) in conflicts
  }

  /** After the ids in `done`: what was there is there, what is new is a done id's, and each id is judged. */
  ghost predicate Judging(n: Naming, cd: Discovery, crs0: Cluster, done: seq<string>, u: Upserted)
    requires n.Valid()
  {
    var crs := u.world.crs;
    && (forall k | k in crs0 :: k in crs && SameButStale(crs[k], crs0[k]))
    && (forall k | k in crs && k !in crs0 ::
          crs[k] == NewCollector(cd, crs[k].id) && crs[k].id in done && ChooseName(n, crs[k].id) == k)
    && (forall x | x in u.current :: x in done)
    && (forall c | c in u.conflicts :: c.id in done && c.id !in u.current)
    && (forall x | x in done ::
          ChooseName(n, x) in crs && Judged(cd, crs[ChooseName(n, x)], x, ChooseName(n, x), u.current, u.conflicts))
  }

  /** Nobody acts before or during the turn. */
  predicate Quiet(t: Turn) {
    t.before == [] && t.between == []
  }

  ghost predicate QuietScript(p: Script) {
    p.beforeList == [] && forall i: nat :: Quiet(p.upserts(i)) && Quiet(p.sweeps(i))
  }

  lemma QuietIsNothing(w: World, cd: Discovery)
    ensures Interfered(w, cd, []) == w
  {}

  /** What one quiet turn does: nothing but claiming, reporting, creating, or unmarking the id's own. */
  ghost predicate Turned(n: Naming, cd: Discovery, u: Upserted, v: Upserted, id: string)
    requires n.Valid()
  {
    var name, crs, after := ChooseName(n, id), u.world.crs, v.world.crs;
    if name !in crs then
      after == crs[name := NewCollector(cd, id)] && v.current == u.current + {id} && v.conflicts == u.conflicts
    else if Belongs(crs[name], cd) && crs[name].id == id then
      && v.current == u.current + {id} && v.conflicts == u.conflicts
      && after == crs[name := crs[name].(stale := None)]
    else
      && after == crs && v.current == u.current
      && v.conflicts == u.conflicts + [DiscoveryConflict(id, name, WhyNot(crs[name], cd))]
  }

  lemma UpsertOneTurns(n: Naming, cd: Discovery, u: Upserted, id: string, t: Turn)
    requires n.Valid() && cd.name != "" && Quiet(t) && UpsertOne(n, cd, u, id, t).ok && u.ok
    ensures Turned(n, cd, u, UpsertOne(n, cd, u, id, t), id)
  {
    var name := ChooseName(n, id);
    ChosenNameIsValid(n, id);
    QuietIsNothing(u.world, cd);
    if name in u.world.crs {
      BelongsIsOwned(u.world.crs[name], cd);
      var cr := u.world.crs[name];
      assert cr.stale == None ==> u.world.crs[name := cr.(stale := None)] == u.world.crs;
    }
  }

  lemma NewBelongs(cd: Discovery, id: string)
    ensures Belongs(NewCollector(cd, id), cd) && NewCollector(cd, id).id == id
  {}

  lemma TurnKeepsCluster(n: Naming, cd: Discovery, crs0: Cluster, done: seq<string>, u: Upserted, v: Upserted,
                         id: string)
    requires n.Valid() && Judging(n, cd, crs0, done, u) && Turned(n, cd, u, v, id)
    ensures var crs := v.world.crs;
            && (forall k | k in u.world.crs :: k in crs && SameButStale(crs[k], u.world.crs[k]))
            && (forall k | k in crs0 :: k in crs && SameButStale(crs[k], crs0[k]))
            && (forall k | k in crs && k !in crs0 ::
                  crs[k] == NewCollector(cd, crs[k].id) && crs[k].id in done + [id] && ChooseName(n, crs[k].id) == k)
            && ChooseName(n, id) in crs
  {}

  /** An id already judged stays judged. */
  lemma TurnKeepsJudged(n: Naming, cd: Discovery, u: Upserted, v: Upserted, id: string, x: string)
    requires n.Valid() && Turned(n, cd, u, v, id) && x != id && ChooseName(n, x) in u.world.crs
    requires Judged(cd, u.world.crs[ChooseName(n, x)], x, ChooseName(n, x), u.current, u.conflicts)
    ensures ChooseName(n, x) in v.world.crs
    ensures Judged(cd, v.world.crs[ChooseName(n, x)], x, ChooseName(n, x), v.current, v.conflicts)
  {
    var name := ChooseName(n, x);
    var a, b := u.world.crs[name], v.world.crs[name];
    assert SameButStale(b, a);
    assert Belongs(a, cd) == Belongs(b, cd) && a.id == b.id && WhyNot(a, cd) == WhyNot(b, cd);
  }

  lemma TurnJudges(n: Naming, cd: Discovery, crs0: Cluster, done: seq<string>, u: Upserted, v: Upserted, id: string)
    requires n.Valid() && Judging(n, cd, crs0, done, u) && Turned(n, cd, u, v, id)
    ensures ChooseName(n, id) in v.world.crs
    ensures Judged(cd, v.world.crs[ChooseName(n, id)], id, ChooseName(n, id), v.current, v.conflicts)
    ensures id in v.current ==> forall c | c in v.conflicts :: c.id != id
  {
    var name := ChooseName(n, id);
    NewBelongs(cd, id);
    if name in u.world.crs {
      var a, b := u.world.crs[name], v.world.crs[name];
      assert SameButStale(b, a);
      assert Belongs(a, cd) == Belongs(b, cd) && a.id == b.id && WhyNot(a, cd) == WhyNot(b, cd);
      if id in done {
        assert Judged(cd, a, id, name, u.current, u.conflicts);
      }
    }
  }

  lemma JudgingNext(n: Naming, cd: Discovery, crs0: Cluster, done: seq<string>, u: Upserted, v: Upserted, id: string)
    requires n.Valid() && Judging(n, cd, crs0, done, u) && Turned(n, cd, u, v, id)
    ensures Judging(n, cd, crs0, done + [id], v)
  {
    TurnKeepsCluster(n, cd, crs0, done, u, v, id);
    TurnJudges(n, cd, crs0, done, u, v, id);
    forall x | x in done && x != id
      ensures ChooseName(n, x) in v.world.crs
      ensures Judged(cd, v.world.crs[ChooseName(n, x)], x, ChooseName(n, x), v.current, v.conflicts)
    {
      TurnKeepsJudged(n, cd, u, v, id, x);
    }
  }

  lemma JudgingStarts(n: Naming, cd: Discovery, w: World)
    requires n.Valid()
    ensures Judging(n, cd, w.crs, [], Upserted(w, {}, [], true))
  {}

  lemma JudgingStep(n: Naming, cd: Discovery, crs0: Cluster, done: seq<string>, u: Upserted, id: string, t: Turn)
    requires n.Valid() && cd.name != "" && Quiet(t) && u.ok && UpsertOne(n, cd, u, id, t).ok
    requires Judging(n, cd, crs0, done, u)
    ensures Judging(n, cd, crs0, done + [id], UpsertOne(n, cd, u, id, t))
  {
    UpsertOneTurns(n, cd, u, id, t);
    JudgingNext(n, cd, crs0, done, u, UpsertOne(n, cd, u, id, t), id);
  }

  lemma LastTurn(n: Naming, cd: Discovery, w: World, ids: seq<string>, turns: nat -> Turn, k: nat)
    requires n.Valid() && k + 1 == |ids| && UpsertAll(n, cd, w, ids, turns).ok
    ensures UpsertAll(n, cd, w, ids[..k], turns).ok
    ensures UpsertAll(n, cd, w, ids, turns) == UpsertOne(n, cd, UpsertAll(n, cd, w, ids[..k], turns), ids[k], turns(k))
  {}

  lemma SameJudging(n: Naming, cd: Discovery, crs0: Cluster, done: seq<string>, u: Upserted, ids: seq<string>,
                    v: Upserted)
    requires n.Valid() && Judging(n, cd, crs0, done, u) && ids == done && v == u
    ensures Judging(n, cd, crs0, ids, v)
  {}

  lemma {:induction false} UpsertAllJudges(n: Naming, cd: Discovery, w: World, ids: seq<string>, turns: nat -> Turn)
    requires n.Valid() && cd.name != "" && (forall i: nat :: Quiet(turns(i))) && UpsertAll(n, cd, w, ids, turns).ok
    ensures Judging(n, cd, w.crs, ids, UpsertAll(n, cd, w, ids, turns))
  {
    if ids == [] {
      JudgingStarts(n, cd, w);
    } else {
      var k := |ids| - 1;
      var u := UpsertAll(n, cd, w, ids[..k], turns);
      LastTurn(n, cd, w, ids, turns, k);
      UpsertAllJudges(n, cd, w, ids[..k], turns);
      JudgingStep(n, cd, w.crs, ids[..k], u, ids[k], turns(k));
      SameJudging(n, cd, w.crs, ids[..k] + [ids[k]], UpsertOne(n, cd, u, ids[k], turns(k)),
                  ids, UpsertAll(n, cd, w, ids, turns));
    }
  }

  /** An id whose name was free has it now, or shares it with the polled id that has it. */
  ghost predicate MadeFor(n: Naming, cd: Discovery, crs: Cluster, ids: seq<string>, id: string, w: string)
    requires n.Valid()
  {
    && w in ids && ChooseName(n, w) == ChooseName(n, id)
    && Find(crs, ChooseName(n, id)) == Some(NewCollector(cd, w))
  }

  /** The outcome for one id, given what held its name before the poll. */
  ghost predicate Outcome(n: Naming, cd: Discovery, crs0: Cluster, ids: seq<string>, r: Polled, id: string)
    requires n.Valid()
  {
    var name := ChooseName(n, id);
    if name in crs0 then Judged(cd, crs0[name], id, name, r.current, r.conflicts)
    else exists w :: && MadeFor(n, cd, r.world.crs, ids, id, w) && w in r.current
                     && Judged(cd, NewCollector(cd, w), id, name, r.current, r.conflicts)
  }

  /** Conflicts come in the order of their ids. */
  predicate ById(conflicts: seq<DiscoveryConflict>) {
    forall i, j | 0 <= i < j < |conflicts| ::
      conflicts[i].id == conflicts[j].id || Less(conflicts[i].id, conflicts[j].id)
  }

  lemma SortedConflicts(u: Upserted)
    ensures forall c :: c in Sort(ConflictAtMost, u.conflicts) <==> c in u.conflicts
    ensures ById(Sort(ConflictAtMost, u.conflicts))
  {
    assert TotalPreorder(ConflictAtMost) by {
      forall a, b ensures AtMost(a, b) || AtMost(b, a) {
        LessTrichotomy(a, b);
      }
      forall a, b, c | AtMost(a, b) && AtMost(b, c) ensures AtMost(a, c) {
        if Less(a, b) && Less(b, c) {
          LessTransitive(a, b, c);
        }
      }
    }
    SortMembers(ConflictAtMost, u.conflicts);
    SortIsSortedPermutation(ConflictAtMost, u.conflicts);
    assert forall a, b :: ConflictAtMost(a, b) ==> a.id == b.id || Less(a.id, b.id);
  }

  /** The sweep leaves a claimed new Collector as it is. */
  lemma SweepKeepsNew(cd: Discovery, u: Upserted, s: Swept, done: set<string>, name: string, w: string)
    requires cd.name != "" && w in u.current && Find(u.world.crs, name) == Some(NewCollector(cd, w))
    requires Sweeping(cd, u.current, Mine(u.world.crs, cd), done, s) && Mine(u.world.crs, cd).Keys <= done
    ensures Find(s.world.crs, name) == Some(NewCollector(cd, w))
  {
    var m := Mine(u.world.crs, cd);
    NewBelongs(cd, w);
    BelongsIsOwned(NewCollector(cd, w), cd);
    assert name in m && name in done;
    assert Find(Mine(s.world.crs, cd), name) == Final(cd, u.current, m[name]);
  }

  lemma OutcomeFromPhases(n: Naming, cd: Discovery, crs0: Cluster, ids: seq<string>, u: Upserted, s: Swept,
                          done: set<string>, r: Polled, id: string)
    requires n.Valid() && cd.name != "" && Judging(n, cd, crs0, ids, u) && id in ids
    requires Sweeping(cd, u.current, Mine(u.world.crs, cd), done, s) && Mine(u.world.crs, cd).Keys <= done
    requires r.world == s.world && r.current == u.current && forall c :: c in r.conflicts <==> c in u.conflicts
    ensures Outcome(n, cd, crs0, ids, r, id)
  {
    var name := ChooseName(n, id);
    var holder := u.world.crs[name];
    SameJudgement(cd, holder, holder, id, name, u, r);
    if name in crs0 {
      SameJudgement(cd, holder, crs0[name], id, name, u, r);
    } else {
      var w := holder.id;
      NewBelongs(cd, w);
      assert Judged(cd, holder, w, name, u.current, u.conflicts);
      SweepKeepsNew(cd, u, s, done, name, w);
      assert MadeFor(n, cd, r.world.crs, ids, id, w);
    }
  }

  lemma SameJudgement(cd: Discovery, a: Collector, b: Collector, id: string, name: string, u: Upserted, r: Polled)
    requires Judged(cd, a, id, name, u.current, u.conflicts) && SameButStale(a, b)
    requires r.current == u.current && forall c :: c in r.conflicts <==> c in u.conflicts
    ensures Judged(cd, b, id, name, r.current, r.conflicts)
  {
    assert Belongs(a, cd) == Belongs(b, cd) && a.id == b.id && WhyNot(a, cd) == WhyNot(b, cd);
  }

  /** An error-free poll nobody disturbs creates a Collector under every free name, claims the ids whose Collector
      is its own, and reports each other id with the reason: the holder of its name has no discovery, another
      one, or another id. It reports nothing else. */
  lemma PollJudgesEveryId(n: Naming, cd: Discovery, crs: Cluster, ids: seq<string>, p: Script)
    requires n.Valid() && cd.name != "" && Plausible(n, cd, World(crs, []), ids, p) && QuietScript(p)
    requires Poll(n, cd, World(crs, []), ids, p).done
    ensures var r := Poll(n, cd, World(crs, []), ids, p);
            && (forall id | id in ids :: Outcome(n, cd, crs, ids, r, id))
            && (forall c | c in r.conflicts :: c.id in ids && c.id !in r.current)
            && (forall x | x in r.current :: x in ids) && ById(r.conflicts)
  {
    var w := World(crs, []);
    var u := UpsertAll(n, cd, w, ids, p.upserts);
    assert forall i: nat :: Quiet(p.upserts(i));
    assert forall i: nat :: Quiet(p.sweeps(i)) && TurnSpares(p.sweeps(i));
    UpsertAllJudges(n, cd, w, ids, p.upserts);
    QuietIsNothing(u.world, cd);
    ListedItems(p.items, u.world.crs, cd);
    SweepAllShape(cd, u.current, u.world, p.items, p.sweeps);
    SortedConflicts(u);
    var s := SweepAll(cd, u.current, u.world, p.items, p.sweeps);
    forall id | id in ids ensures Outcome(n, cd, crs, ids, Poll(n, cd, w, ids, p), id) {
      OutcomeFromPhases(n, cd, crs, ids, u, s, Names(p.items), Poll(n, cd, w, ids, p), id);
    }
  }

  // ----- When a poll completes -----

  predicate Answered(t: Turn) {
    TurnSpares(t) && t.read.Done? && t.write.Done?
  }

  ghost predicate AllAnswered(p: Script) {
    && Spares(p.beforeList) && p.list.Done?
    && forall i: nat :: Answered(p.upserts(i)) && Answered(p.sweeps(i))
  }

  lemma AnsweredUpsert(n: Naming, cd: Discovery, u: Upserted, id: string, t: Turn)
    requires n.Valid() && cd.name != "" && u.ok && Answered(t)
    ensures UpsertOne(n, cd, u, id, t).ok
  {
    var name, v := ChooseName(n, id), Interfered(u.world, cd, t.before);
    OthersKeepMine(v.crs, cd, t.between);
    if name in v.crs && Owned(v.crs[name], cd) {
      assert name in Mine(v.crs, cd);
      assert name in Mine(Interfered(v, cd, t.between).crs, cd);
    }
  }

  lemma {:induction false} AnsweredUpserts(n: Naming, cd: Discovery, w: World, ids: seq<string>, turns: nat -> Turn)
    requires n.Valid() && cd.name != "" && forall i: nat :: Answered(turns(i))
    ensures UpsertAll(n, cd, w, ids, turns).ok
  {
    if ids != [] {
      var k := |ids| - 1;
      AnsweredUpserts(n, cd, w, ids[..k], turns);
      AnsweredUpsert(n, cd, UpsertAll(n, cd, w, ids[..k], turns), ids[k], turns(k));
    }
  }

  lemma AnsweredSweep(cd: Discovery, current: set<string>, s: Swept, item: Item, t: Turn)
    requires s.ok && Answered(t)
    requires Owned(item.cr, cd) ==> item.name in Mine(s.world.crs, cd)
    ensures SweepOne(cd, current, s, item, t).ok
  {
    OthersKeepMine(s.world.crs, cd, t.between);
    if Owned(item.cr, cd) {
      assert item.name in Mine(Interfered(s.world, cd, t.between).crs, cd);
    }
  }

  lemma {:induction false} AnsweredSweeps(cd: Discovery, current: set<string>, w: World, items: seq<Item>,
                                          turns: nat -> Turn)
    requires Items(items, Mine(w.crs, cd), cd) && forall i: nat :: Answered(turns(i))
    ensures SweepAll(cd, current, w, items, turns).ok
  {
    if items != [] {
      var k := |items| - 1;
      var s := SweepAll(cd, current, w, items[..k], turns);
      AnsweredSweeps(cd, current, w, items[..k], turns);
      assert forall i: nat :: Answered(turns(i)) && TurnSpares(turns(i));
      SweepAllShape(cd, current, w, items[..k], turns);
      assert items[k].name !in Names(items[..k]);
      assert Find(Mine(s.world.crs, cd), items[k].name) == Find(Mine(w.crs, cd), items[k].name);
      AnsweredSweep(cd, current, s, items[k], turns(k));
    }
  }

  /** A poll whose calls are all answered and during which nobody seizes a Collector completes. */
  lemma AnsweredPollCompletes(n: Naming, cd: Discovery, crs: Cluster, ids: seq<string>, p: Script)
    requires n.Valid() && cd.name != "" && Plausible(n, cd, World(crs, []), ids, p) && AllAnswered(p)
    ensures Poll(n, cd, World(crs, []), ids, p).done
  {
    var u := UpsertAll(n, cd, World(crs, []), ids, p.upserts);
    assert forall i: nat :: Answered(p.upserts(i));
    assert forall i: nat :: Answered(p.sweeps(i));
    AnsweredUpserts(n, cd, World(crs, []), ids, p.upserts);
    OthersKeepMine(u.world.crs, cd, p.beforeList);
    var v := Interfered(u.world, cd, p.beforeList);
    ListedItems(p.items, v.crs, cd);
    AnsweredSweeps(cd, u.current, v, p.items, p.sweeps);
  }

  /** Marking or unmarking a Collector that has vanished since the listing is an error, deleting it is not. */
  lemma VanishedItem(cd: Discovery, current: set<string>, s: Swept, item: Item, t: Turn)
    requires s.ok && Belongs(item.cr, cd) && cd.name != "" && t.write.Done?
    requires item.name !in Interfered(s.world, cd, t.between).crs
    ensures var v := SweepOne(cd, current, s, item, t);
            && v.world.crs == Interfered(s.world, cd, t.between).crs && v.world.writes == s.world.writes
            && (v.ok <==> if item.cr.id in current then item.cr.stale == None
                          else cd.deletesRemoved || item.cr.stale == Some("true"))
  {
    BelongsIsOwned(item.cr, cd);
  }

  /** A poll that stops early reports nothing. */
  lemma IncompleteReportsNothing(n: Naming, cd: Discovery, w: World, ids: seq<string>, p: Script)
    requires n.Valid() && !Poll(n, cd, w, ids, p).done
    ensures var r := Poll(n, cd, w, ids, p); r.stale == [] && r.managed == 0 && r.conflicts == [] && r.current == {}
  {}
}
