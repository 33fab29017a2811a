/** Whose Collectors a poll writes: with anybody doing anything between its calls, exactly when it writes one it
    does not own. */
module DiscoveryWrites {
  import opened Common
  import opened DiscoveryNames
  import opened FleetCalls
  import opened DiscoveryMirror

  /** Creating an absent Collector of its own, or marking or removing one it owns. */
  ghost predicate GoodWrite(n: Naming, cd: Discovery, w: Write)
    requires n.Valid()
  {
    match w.before
    case None =>
      && w.after.Some? && w.name == ChooseName(n, w.after.value.id)
      && w.after.value == Collector(w.after.value.id, Some(cd.name), Some(cd.namespace),
                                    Some(cd.namespace + "/" + cd.name), Some(w.after.value.id), None, false, false)
    case Some(b) =>
      && Owned(b, cd)
      && (w.after.Some? ==>
            w.after.value == b.(stale := w.after.value.stale, deleting := w.after.value.deleting))
  }

  ghost predicate AllGood(n: Naming, cd: Discovery, ws: seq<Write>)
    requires n.Valid()
  {
    forall w | w in ws :: GoodWrite(n, cd, w)
  }

  /** Such a write spares every other discovery: it is among the acts that keep off the other's Collectors. */
  lemma GoodWriteSparesOthers(n: Naming, cd: Discovery, other: Discovery, crs: Cluster, w: Write)
    requires n.Valid() && GoodWrite(n, cd, w) && Find(crs, w.name) == w.before
    requires !(cd.namespace == other.namespace && cd.name == other.name)
    ensures var act := if w.after.Some? then Put(w.name, w.after.value) else Drop(w.name);
            && ByOthers(crs, other, act) == Update(crs, w.name, w.after)
            && Mine(Update(crs, w.name, w.after), other) == Mine(crs, other)
  {
    if w.before.Some? && Owned(w.before.value, other) {
      OwnerIsUnique(w.before.value, cd, other);
    }
    if w.after.Some? && Owned(w.after.value, other) {
      OwnerIsUnique(w.after.value, cd, other);
    }
  }

  // ----- What becomes of one Collector between two calls -----

  /** The Collector of this name after the acts. */
  function After(o: Option<Collector>, cd: Discovery, name: string, acts: seq<Act>): Option<Collector> {
    if acts == [] then o
    else
      var k := |acts| - 1;
      var before := After(o, cd, name, acts[..k]);
      if acts[k].name == name then Acted(before, cd, acts[k]) else before
  }

  lemma {:induction false} AfterFinds(crs: Cluster, cd: Discovery, name: string, acts: seq<Act>)
    ensures Find(Others(crs, cd, acts), name) == After(Find(crs, name), cd, name, acts)
  {
    if acts != [] {
      AfterFinds(crs, cd, name, acts[..|acts| - 1]);
    }
  }

  lemma {:induction false} AfterConcat(o: Option<Collector>, cd: Discovery, name: string, a: seq<Act>, b: seq<Act>)
    ensures After(o, cd, name, a + b) == After(After(o, cd, name, a), cd, name, b)
    decreases |b|
  {
    if b == [] {
      assert a + b == a;
    } else {
      var k := |b| - 1;
      assert (a + b)[..|a + b| - 1] == a + b[..k];
      AfterConcat(o, cd, name, a, b[..k]);
    }
  }

  /** There, and not this discovery's. */
  predicate Taken(o: Option<Collector>, cd: Discovery) {
    o.Some? && !Owned(o.value, cd)
  }

  /** An act that hands the Collector over, or removes it, with none after it that gives it back. */
  ghost predicate HandedOver(cd: Discovery, name: string, acts: seq<Act>) {
    exists i :: HandsOver(cd, name, acts, i)
  }

  ghost predicate HandsOver(cd: Discovery, name: string, acts: seq<Act>, i: int) {
    && 0 <= i < |acts| && acts[i].Seize? && acts[i].name == name && !IsMine(acts[i].after, cd)
    && forall j | i < j < |acts| :: !(acts[j].Seize? && acts[j].name == name && IsMine(acts[j].after, cd))
  }

  /** An owned Collector stops being owned exactly when some act hands it over. */
  lemma {:induction false} LostExactlyWhenHandedOver(cr: Collector, cd: Discovery, name: string, acts: seq<Act>)
    requires Owned(cr, cd)
    ensures !IsMine(After(Some(cr), cd, name, acts), cd) <==> HandedOver(cd, name, acts)
    ensures Taken(After(Some(cr), cd, name, acts), cd) <==>
            HandedOver(cd, name, acts) && After(Some(cr), cd, name, acts).Some?
  {
    if acts != [] {
      var k := |acts| - 1;
      LostExactlyWhenHandedOver(cr, cd, name, acts[..k]);
      HandedOverNext(cd, name, acts);
    }
  }

  lemma HandedOverNext(cd: Discovery, name: string, acts: seq<Act>)
    requires acts != []
    ensures var k := |acts| - 1; var last := acts[k];
            HandedOver(cd, name, acts) <==>
              if last.Seize? && last.name == name then !IsMine(last.after, cd) else HandedOver(cd, name, acts[..k])
  {
    var k := |acts| - 1;
    if i :| HandsOver(cd, name, acts, i) {
      assert i < k ==> HandsOver(cd, name, acts[..k], i);
    }
    if acts[k].Seize? && acts[k].name == name && !IsMine(acts[k].after, cd) {
      assert HandsOver(cd, name, acts, k);
    }
    if i :| HandsOver(cd, name, acts[..k], i) {
      assert acts[..k][i] == acts[i];
      assert !(acts[k].Seize? && acts[k].name == name) ==> HandsOver(cd, name, acts, i);
    }
  }

  // ----- The upsert phase -----

  /** This id's turn patches a Collector that was the discovery's when read and is another's when written. */
  ghost predicate AdoptsTaken(n: Naming, cd: Discovery, u: Upserted, id: string, t: Turn)
    requires n.Valid()
  {
    var name, crs := ChooseName(n, id), Others(u.world.crs, cd, t.before);
    && t.read.Done? && name in crs && crs[name].nameLabel.Some? && Owned(crs[name], cd) && crs[name].id == id
    && crs[name].stale.Some? && t.write.Applied()
    && Taken(After(Some(crs[name]), cd, name, t.between), cd)
  }

  lemma CallGood(n: Naming, cd: Discovery, w: World, name: string, after: Option<Collector>, reply: Reply)
    requires n.Valid()
    ensures AllGood(n, cd, Call(w, name, after, reply).writes) <==>
            AllGood(n, cd, w.writes) && (reply.Applied() ==> GoodWrite(n, cd, Write(name, Find(w.crs, name), after)))
  {
    if reply.Applied() {
      assert forall x :: x in Call(w, name, after, reply).writes <==>
        x in w.writes || x == Write(name, Find(w.crs, name), after);
    }
  }

  lemma PatchGood(n: Naming, cd: Discovery, w: World, name: string, needed: bool, value: Option<string>, reply: Reply)
    requires n.Valid()
    ensures AllGood(n, cd, PatchStale(w, name, needed, value, reply).0.writes) <==>
            AllGood(n, cd, w.writes) && !(needed && reply.Applied() && Taken(Find(w.crs, name), cd))
  {
    if needed && name in w.crs {
      CallGood(n, cd, w, name, Some(w.crs[name].(stale := value)), reply);
    }
  }

  lemma UpsertOneGood(n: Naming, cd: Discovery, u: Upserted, id: string, t: Turn)
    requires n.Valid()
    ensures AllGood(n, cd, UpsertOne(n, cd, u, id, t).world.writes) <==>
            AllGood(n, cd, u.world.writes) && !AdoptsTaken(n, cd, u, id, t)
  {
    ChosenNameIsValid(n, id);
    var name, v := ChooseName(n, id), u.(world := Interfered(u.world, cd, t.before));
    var w := Interfered(v.world, cd, t.between);
    AfterFinds(v.world.crs, cd, name, t.between);
    if t.read.Done? {
      if name in v.world.crs {
        PatchGood(n, cd, w, name, v.world.crs[name].stale.Some?, None, t.write);
      } else if name !in w.crs {
        CallGood(n, cd, w, name, Some(NewCollector(cd, id)), t.write);
      }
    }
  }

  ghost predicate SomeAdoptionTaken(n: Naming, cd: Discovery, w: World, ids: seq<string>, turns: nat -> Turn)
    requires n.Valid()
  {
    exists k: nat :: k < |ids| && UpsertAll(n, cd, w, ids[..k], turns).ok
                     && AdoptsTaken(n, cd, UpsertAll(n, cd, w, ids[..k], turns), ids[k], turns(k))
  }

  lemma {:induction false} UpsertAllGood(n: Naming, cd: Discovery, w: World, ids: seq<string>, turns: nat -> Turn)
    requires n.Valid()
    ensures AllGood(n, cd, UpsertAll(n, cd, w, ids, turns).world.writes) <==>
            AllGood(n, cd, w.writes) && !SomeAdoptionTaken(n, cd, w, ids, turns)
  {
    if ids != [] {
      var k := |ids| - 1;
      UpsertAllGood(n, cd, w, ids[..k], turns);
      var u := UpsertAll(n, cd, w, ids[..k], turns);
      SomeAdoptionNext(n, cd, w, ids, turns);
      if u.ok {
        UpsertOneGood(n, cd, u, ids[k], turns(k));
      }
    }
  }

  lemma SomeAdoptionNext(n: Naming, cd: Discovery, w: World, ids: seq<string>, turns: nat -> Turn)
    requires n.Valid() && ids != []
    ensures var k := |ids| - 1; var u := UpsertAll(n, cd, w, ids[..k], turns);
            SomeAdoptionTaken(n, cd, w, ids, turns) <==>
            SomeAdoptionTaken(n, cd, w, ids[..k], turns) || (u.ok && AdoptsTaken(n, cd, u, ids[k], turns(k)))
  {
    var k := |ids| - 1;
    assert forall j: nat | j <= k :: ids[..k][..j] == ids[..j];
  }

  // ----- The sweep -----

  /** Everything others did from the listing to the write of the last of the first `k` items. */
  function Window(turns: nat -> Turn, k: nat): seq<Act> {
    if k == 0 then [] else Window(turns, k - 1) + turns(k - 1).between
  }

  /** The sweep sends a call for this item. */
  predicate SendsCall(cd: Discovery, current: set<string>, cr: Collector) {
    && Owned(cr, cd)
    && if cr.id in current then cr.stale.Some? else cd.deletesRemoved || cr.stale != Some(STALE_VALUE)
  }

  /** That call takes effect on a Collector that was the discovery's when listed and is another's when written. */
  ghost predicate SweepsTaken(cd: Discovery, current: set<string>, item: Item, window: seq<Act>, reply: Reply) {
    SendsCall(cd, current, item.cr) && reply.Applied() && Taken(After(Some(item.cr), cd, item.name, window), cd)
  }

  ghost predicate Apart(items: seq<Item>) {
    forall i, j | 0 <= i < j < |items| :: items[i].name != items[j].name
  }

  lemma SweepOneElsewhere(cd: Discovery, current: set<string>, s: Swept, item: Item, t: Turn, name: string)
    requires item.name != name
    ensures Find(SweepOne(cd, current, s, item, t).world.crs, name) ==
            After(Find(s.world.crs, name), cd, name, t.between)
  {
    AfterFinds(s.world.crs, cd, name, t.between);
  }

  /** A name not yet reached has only seen the others' acts. */
  lemma {:induction false} SweepWindow(cd: Discovery, current: set<string>, w: World, items: seq<Item>,
                                       turns: nat -> Turn, name: string)
    requires SweepAll(cd, current, w, items, turns).ok && forall i | 0 <= i < |items| :: items[i].name != name
    ensures Find(SweepAll(cd, current, w, items, turns).world.crs, name) ==
            After(Find(w.crs, name), cd, name, Window(turns, |items|))
  {
    if items != [] {
      var k := |items| - 1;
      var s := SweepAll(cd, current, w, items[..k], turns);
      SweepWindow(cd, current, w, items[..k], turns, name);
      SweepOneElsewhere(cd, current, s, items[k], turns(k), name);
      AfterConcat(Find(w.crs, name), cd, name, Window(turns, k), turns(k).between);
    }
  }

  lemma SweepOneGood(n: Naming, cd: Discovery, current: set<string>, s: Swept, item: Item, t: Turn, window: seq<Act>)
    requires n.Valid()
    requires Find(Others(s.world.crs, cd, t.between), item.name) == After(Some(item.cr), cd, item.name, window)
    ensures AllGood(n, cd, SweepOne(cd, current, s, item, t).world.writes) <==>
            AllGood(n, cd, s.world.writes) && !SweepsTaken(cd, current, item, window, t.write)
  {
    var v := Interfered(s.world, cd, t.between);
    PatchGood(n, cd, v, item.name, item.cr.stale.Some?, None, t.write);
    PatchGood(n, cd, v, item.name, item.cr.stale != Some(STALE_VALUE), Some(STALE_VALUE), t.write);
    if item.name in v.crs {
      CallGood(n, cd, v, item.name, Deleted(v.crs[item.name]), t.write);
    }
  }

  ghost predicate SomeSweepTaken(cd: Discovery, current: set<string>, w: World, items: seq<Item>, turns: nat -> Turn) {
    exists k: nat :: k < |items| && SweepAll(cd, current, w, items[..k], turns).ok
                     && SweepsTaken(cd, current, items[k], Window(turns, k + 1), turns(k).write)
  }

  lemma SomeSweepNext(cd: Discovery, current: set<string>, w: World, items: seq<Item>, turns: nat -> Turn)
    requires items != []
    ensures var k := |items| - 1;
            SomeSweepTaken(cd, current, w, items, turns) <==>
            SomeSweepTaken(cd, current, w, items[..k], turns)
            || (SweepAll(cd, current, w, items[..k], turns).ok
                && SweepsTaken(cd, current, items[k], Window(turns, k + 1), turns(k).write))
  {
    var k := |items| - 1;
    assert forall j: nat | j <= k :: items[..k][..j] == items[..j];
  }

  lemma {:induction false} SweepAllGood(n: Naming, cd: Discovery, current: set<string>, w: World, items: seq<Item>,
                                        turns: nat -> Turn)
    requires n.Valid() && Apart(items) && forall i | 0 <= i < |items| :: Find(w.crs, items[i].name) == Some(items[i].cr)
    ensures AllGood(n, cd, SweepAll(cd, current, w, items, turns).world.writes) <==>
            AllGood(n, cd, w.writes) && !SomeSweepTaken(cd, current, w, items, turns)
  {
    if items != [] {
      var k := |items| - 1;
      SweepAllGood(n, cd, current, w, items[..k], turns);
      SomeSweepNext(cd, current, w, items, turns);
      var s := SweepAll(cd, current, w, items[..k], turns);
      if s.ok {
        ItemWindow(cd, current, w, items, turns);
        SweepOneGood(n, cd, current, s, items[k], turns(k), Window(turns, k + 1));
      }
    }
  }

  lemma ItemWindow(cd: Discovery, current: set<string>, w: World, items: seq<Item>, turns: nat -> Turn)
    requires items != [] && Apart(items) && SweepAll(cd, current, w, items[..|items| - 1], turns).ok
    requires Find(w.crs, items[|items| - 1].name) == Some(items[|items| - 1].cr)
    ensures var k := |items| - 1; var s := SweepAll(cd, current, w, items[..k], turns);
            Find(Others(s.world.crs, cd, turns(k).between), items[k].name) ==
            After(Some(items[k].cr), cd, items[k].name, Window(turns, k + 1))
  {
    var k := |items| - 1;
    var s, name := SweepAll(cd, current, w, items[..k], turns), items[k].name;
    SweepWindow(cd, current, w, items[..k], turns, name);
    AfterFinds(s.world.crs, cd, name, turns(k).between);
    AfterConcat(Find(w.crs, name), cd, name, Window(turns, k), turns(k).between);
  }

  // ----- The whole poll -----

  ghost predicate SomethingTaken(n: Naming, cd: Discovery, crs: Cluster, ids: seq<string>, p: Script)
    requires n.Valid()
  {
    var u := UpsertAll(n, cd, World(crs, []), ids, p.upserts);
    || SomeAdoptionTaken(n, cd, World(crs, []), ids, p.upserts)
    || (u.ok && p.list.Done? && SomeSweepTaken(cd, u.current, Interfered(u.world, cd, p.beforeList), p.items, p.sweeps))
  }

  /** Whatever fails and whoever does what between its calls, a poll only creates absent Collectors of its own
      and marks or removes ones it owns at that moment, unless, and exactly when, a call takes effect on a
      Collector that was the discovery's when read and that others had taken over by the time it is written. */
  lemma PollWritesOnlyItsOwnExactly(n: Naming, cd: Discovery, crs: Cluster, ids: seq<string>, p: Script)
    requires n.Valid() && Plausible(n, cd, World(crs, []), ids, p)
    ensures AllGood(n, cd, Poll(n, cd, World(crs, []), ids, p).world.writes) <==> !SomethingTaken(n, cd, crs, ids, p)
  {
    var w := World(crs, []);
    UpsertAllGood(n, cd, w, ids, p.upserts);
    var u := UpsertAll(n, cd, w, ids, p.upserts);
    if u.ok && p.list.Done? {
      SweepAllGood(n, cd, u.current, Interfered(u.world, cd, p.beforeList), p.items, p.sweeps);
    }
  }

  /** What is taken was handed over by an act between the read and the write, or after the listing. */
  lemma TakenWasHandedOver(n: Naming, cd: Discovery, crs: Cluster, ids: seq<string>, p: Script)
    requires n.Valid() && SomethingTaken(n, cd, crs, ids, p)
    ensures || (exists k: nat :: k < |ids| && HandedOver(cd, ChooseName(n, ids[k]), p.upserts(k).between))
            || (exists k: nat :: k < |p.items| && HandedOver(cd, p.items[k].name, Window(p.sweeps, k + 1)))
  {
    var w := World(crs, []);
    if SomeAdoptionTaken(n, cd, w, ids, p.upserts) {
      var k: nat :| k < |ids| && UpsertAll(n, cd, w, ids[..k], p.upserts).ok
                    && AdoptsTaken(n, cd, UpsertAll(n, cd, w, ids[..k], p.upserts), ids[k], p.upserts(k));
      var read := Others(UpsertAll(n, cd, w, ids[..k], p.upserts).world.crs, cd, p.upserts(k).before);
      LostExactlyWhenHandedOver(read[ChooseName(n, ids[k])], cd, ChooseName(n, ids[k]), p.upserts(k).between);
    } else {
      var u := UpsertAll(n, cd, w, ids, p.upserts);
      var v := Interfered(u.world, cd, p.beforeList);
      var k: nat :| k < |p.items| && SweepAll(cd, u.current, v, p.items[..k], p.sweeps).ok
                    && SweepsTaken(cd, u.current, p.items[k], Window(p.sweeps, k + 1), p.sweeps(k).write);
      LostExactlyWhenHandedOver(p.items[k].cr, cd, p.items[k].name, Window(p.sweeps, k + 1));
    }
  }

  lemma {:induction false} SparingWindow(turns: nat -> Turn, k: nat)
    requires forall i: nat :: Spares(turns(i).between)
    ensures Spares(Window(turns, k))
  {
    if k > 0 {
      SparingWindow(turns, k - 1);
      assert Spares(turns(k - 1).between);
    }
  }

  /** So when nobody seizes a Collector during the poll, every write is to the discovery's own. */
  lemma PollWritesOnlyItsOwn(n: Naming, cd: Discovery, crs: Cluster, ids: seq<string>, p: Script)
    requires n.Valid() && Plausible(n, cd, World(crs, []), ids, p)
    requires forall i: nat :: Spares(p.upserts(i).between) && Spares(p.sweeps(i).between)
    ensures AllGood(n, cd, Poll(n, cd, World(crs, []), ids, p).world.writes)
  {
    PollWritesOnlyItsOwnExactly(n, cd, crs, ids, p);
    forall k: nat | k < |ids| ensures !HandedOver(cd, ChooseName(n, ids[k]), p.upserts(k).between) {
      SparesHandOverNothing(cd, ChooseName(n, ids[k]), p.upserts(k).between);
    }
    forall k: nat | k < |p.items| ensures !HandedOver(cd, p.items[k].name, Window(p.sweeps, k + 1)) {
      assert forall i: nat :: Spares(p.sweeps(i).between);
      SparingWindow(p.sweeps, k + 1);
      SparesHandOverNothing(cd, p.items[k].name, Window(p.sweeps, k + 1));
    }
    if SomethingTaken(n, cd, crs, ids, p) {
      TakenWasHandedOver(n, cd, crs, ids, p);
    }
  }

  lemma SparesHandOverNothing(cd: Discovery, name: string, acts: seq<Act>)
    requires Spares(acts)
    ensures !HandedOver(cd, name, acts)
  {
    assert forall i | 0 <= i < |acts| :: acts[i] in acts;
  }

  /** The failing interleaving: a user takes the Collector over after the listing, and it is deleted. */
  lemma TakenOverIsDeleted(n: Naming, cd: Discovery, cr: Collector, name: string, theirs: Collector, p: Script)
    requires n.Valid() && Owned(cr, cd) && cr.nameLabel == Some(cd.name) && cd.deletesRemoved
    requires !Owned(theirs, cd) && !theirs.finalizer
    requires p.beforeList == [] && p.list.Done? && p.items == [Item(name, cr)]
    requires p.sweeps(0).between == [Seize(name, Some(theirs))] && p.sweeps(0).write.Done?
    ensures var crs := map[name := cr]; var r := Poll(n, cd, World(crs, []), [], p);
            && Plausible(n, cd, World(crs, []), [], p)
            && r.done && name !in r.world.crs && Write(name, Some(theirs), None) in r.world.writes
  {
    var w := World(map[name := cr], []);
    assert Interfered(w, cd, []) == w;
    assert p.items[..0] == [] && p.items[0] == Item(name, cr);
    var s0 := Swept(w, [], 0, true);
    assert SweepAll(cd, {}, w, [], p.sweeps) == s0;
    var acts := [Seize(name, Some(theirs))];
    assert acts[..0] == [];
    assert Others(w.crs, cd, acts) == map[name := theirs];
    var s := SweepOne(cd, {}, s0, p.items[0], p.sweeps(0));
    assert SweepAll(cd, {}, w, p.items, p.sweeps) == s;
    assert s.world.writes == [Write(name, Some(theirs), None)];
  }
}
