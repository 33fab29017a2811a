/** What polls achieve: the mirror is exact for the discovery's own Collectors, and names stay derived from ids
    over every run. */
module DiscoveryRuns {
  import opened Common
  import opened Strings
  import opened Sorting
  import opened StringSort
  import opened DiscoveryNames
  import opened FleetCalls
  import opened DiscoveryMirror

  /** Every Collector in the map is named after its id. */
  ghost predicate NamedById(n: Naming, crs: Cluster)
    requires n.Valid()
  {
    forall k | k in crs :: k == ChooseName(n, crs[k].id)
  }

  // ----- One item of the upsert phase -----

  ghost predicate SameButStale(a: Collector, b: Collector) {
    a.(stale := None) == b.(stale := None)
  }

  /** What upserting one id does to the discovery's own Collectors. */
  ghost predicate MineStep(n: Naming, cd: Discovery, m: Cluster, m': Cluster, id: string)
    requires n.Valid()
  {
    var name := ChooseName(n, id);
    || m' == m
    || (name !in m && m' == m[name := NewCollector(cd, id)])
    || (name in m && m[name].id == id && m' == m[name := m[name].(stale := None)])
  }

  lemma PatchShape(cd: Discovery, w: World, name: string, needed: bool, value: Option<string>, reply: Reply)
    requires name in Mine(w.crs, cd)
    ensures var (v, ok) := PatchStale(w, name, needed, value, reply); var m := Mine(w.crs, cd);
            && (Mine(v.crs, cd) == m || Mine(v.crs, cd) == m[name := m[name].(stale := value)])
            && (ok && needed ==> Mine(v.crs, cd) == m[name := m[name].(stale := value)])
            && (!needed ==> v == w && ok)
  {
    if needed && reply.Applied() {
      CallOnMine(w, cd, name, Some(w.crs[name].(stale := value)), reply);
    }
  }

  lemma CreateShape(n: Naming, cd: Discovery, u: Upserted, id: string, t: Turn)
    requires n.Valid() && TurnSpares(t) && ChooseName(n, id) !in u.world.crs
    ensures MineStep(n, cd, Mine(u.world.crs, cd), Mine(Create(cd, u, id, ChooseName(n, id), t).world.crs, cd), id)
  {
    var name := ChooseName(n, id);
    OthersKeepMine(u.world.crs, cd, t.between);
    var w := Interfered(u.world, cd, t.between);
    if name !in w.crs && t.write.Applied() {
      CallOnMine(w, cd, name, Some(NewCollector(cd, id)), t.write);
    }
  }

  predicate TurnSpares(t: Turn) {
    Spares(t.before) && Spares(t.between)
  }

  /** Nobody seizes a Collector during the poll. */
  ghost predicate ScriptSpares(p: Script) {
    Spares(p.beforeList) && forall i: nat :: TurnSpares(p.upserts(i)) && TurnSpares(p.sweeps(i))
  }

  /** When the turn succeeds, the id is claimed or reported, and the Collector of that id is claimed and unmarked. */
  ghost predicate Settled(n: Naming, cd: Discovery, u: Upserted, v: Upserted, id: string)
    requires n.Valid()
  {
    var name, m := ChooseName(n, id), Mine(v.world.crs, cd);
    && u.current <= v.current <= u.current + {id}
    && (v.ok ==> (id in v.current || exists c :: c in v.conflicts && c.id == id))
    && (forall c | c in u.conflicts :: c in v.conflicts)
    && (v.ok && name in m && m[name].id == id ==> id in v.current && m[name].stale == None)
  }

  lemma AdoptShape(n: Naming, cd: Discovery, u: Upserted, id: string, t: Turn)
    requires n.Valid() && cd.name != "" && u.ok && TurnSpares(t) && ChooseName(n, id) in u.world.crs
    ensures var name := ChooseName(n, id); var v := Adopt(cd, u, id, name, u.world.crs[name], t);
            && MineStep(n, cd, Mine(u.world.crs, cd), Mine(v.world.crs, cd), id)
            && Settled(n, cd, u, v, id)
  {
    var name := ChooseName(n, id);
    var existing := u.world.crs[name];
    var v := Adopt(cd, u, id, name, existing, t);
    if existing.nameLabel.Some? && Owned(existing, cd) && existing.id == id {
      OthersKeepMine(u.world.crs, cd, t.between);
      assert name in Mine(u.world.crs, cd);
      PatchShape(cd, Interfered(u.world, cd, t.between), name, existing.stale.Some?, None, t.write);
      var m := Mine(u.world.crs, cd);
      assert existing.stale == None ==> m[name := m[name].(stale := None)] == m;
    } else {
      var reason := v.conflicts[|v.conflicts| - 1];
      assert reason in v.conflicts && reason.id == id;
    }
  }

  lemma CreateSettles(n: Naming, cd: Discovery, u: Upserted, id: string, t: Turn)
    requires n.Valid() && u.ok && TurnSpares(t) && ChooseName(n, id) !in u.world.crs
    ensures Settled(n, cd, u, Create(cd, u, id, ChooseName(n, id), t), id)
  {
    var name := ChooseName(n, id);
    OthersKeepMine(u.world.crs, cd, t.between);
    var w := Interfered(u.world, cd, t.between);
    assert name !in Mine(w.crs, cd);
  }

  lemma UpsertOneShape(n: Naming, cd: Discovery, u: Upserted, id: string, t: Turn)
    requires n.Valid() && cd.name != "" && u.ok && TurnSpares(t)
    ensures var v := UpsertOne(n, cd, u, id, t);
            && MineStep(n, cd, Mine(u.world.crs, cd), Mine(v.world.crs, cd), id)
            && Settled(n, cd, u, v, id)
  {
    ChosenNameIsValid(n, id);
    OthersKeepMine(u.world.crs, cd, t.before);
    var v := u.(world := Interfered(u.world, cd, t.before));
    if t.read.Done? {
      if ChooseName(n, id) in v.world.crs {
        AdoptShape(n, cd, v, id, t);
      } else {
        CreateShape(n, cd, v, id, t);
        CreateSettles(n, cd, v, id, t);
      }
    }
  }

  // ----- The whole upsert phase -----

  /** After the ids in `done`: nothing owned was lost or renamed, what was made is new, and every owned
      Collector of a done id is claimed and unmarked. */
  ghost predicate Upserting(n: Naming, cd: Discovery, m0: Cluster, done: seq<string>, u: Upserted)
    requires n.Valid()
  {
    var m := Mine(u.world.crs, cd);
    && NamedById(n, m)
    && (forall k | k in m0 :: k in m && SameButStale(m[k], m0[k]))
    && (forall k | k in m && k !in m0 :: m[k] == NewCollector(cd, m[k].id) && m[k].id in done)
    && (forall x | x in u.current :: x in done)
    && (u.ok ==>
          && (forall k | k in m && m[k].id in done :: m[k].id in u.current && m[k].stale == None)
          && (forall x | x in done :: x in u.current || exists c :: c in u.conflicts && c.id == x))
  }

  lemma MineStepKeepsNames(n: Naming, cd: Discovery, m: Cluster, m': Cluster, id: string)
    requires n.Valid() && NamedById(n, m) && MineStep(n, cd, m, m', id)
    ensures NamedById(n, m')
  {}

  lemma UpsertStep(n: Naming, cd: Discovery, m0: Cluster, done: seq<string>, u: Upserted, v: Upserted, id: string)
    requires n.Valid() && Upserting(n, cd, m0, done, u) && u.ok
    requires MineStep(n, cd, Mine(u.world.crs, cd), Mine(v.world.crs, cd), id) && Settled(n, cd, u, v, id)
    ensures Upserting(n, cd, m0, done + [id], v)
  {
    var m, m' := Mine(u.world.crs, cd), Mine(v.world.crs, cd);
    MineStepKeepsNames(n, cd, m, m', id);
    MineStepKeepsOwned(n, cd, m0, m, m', done, id);
    if v.ok {
      forall k | k in m' && m'[k].id in done + [id] ensures m'[k].id in v.current && m'[k].stale == None {
        if m'[k].id == id {
          assert k == ChooseName(n, id);
        } else {
          assert k in m && m'[k] == m[k];
        }
      }
    }
  }

  lemma MineStepKeepsOwned(n: Naming, cd: Discovery, m0: Cluster, m: Cluster, m': Cluster, done: seq<string>,
                           id: string)
    requires n.Valid() && MineStep(n, cd, m, m', id)
    requires forall k | k in m0 :: k in m && SameButStale(m[k], m0[k])
    requires forall k | k in m && k !in m0 :: m[k] == NewCollector(cd, m[k].id) && m[k].id in done
    ensures forall k | k in m0 :: k in m' && SameButStale(m'[k], m0[k])
    ensures forall k | k in m' && k !in m0 :: m'[k] == NewCollector(cd, m'[k].id) && m'[k].id in done + [id]
  {}

  lemma {:induction false} UpsertAllShape(n: Naming, cd: Discovery, w: World, ids: seq<string>, turns: nat -> Turn)
    requires n.Valid() && cd.name != "" && NamedById(n, Mine(w.crs, cd)) && forall i: nat :: TurnSpares(turns(i))
    ensures Upserting(n, cd, Mine(w.crs, cd), ids, UpsertAll(n, cd, w, ids, turns))
  {
    if ids != [] {
      var k := |ids| - 1;
      UpsertAllShape(n, cd, w, ids[..k], turns);
      var u := UpsertAll(n, cd, w, ids[..k], turns);
      assert ids == ids[..k] + [ids[k]];
      if u.ok {
        UpsertNext(n, cd, Mine(w.crs, cd), ids[..k], u, ids[k], turns(k));
      }
    }
  }

  lemma UpsertNext(n: Naming, cd: Discovery, m0: Cluster, done: seq<string>, u: Upserted, id: string, t: Turn)
    requires n.Valid() && cd.name != "" && u.ok && TurnSpares(t) && Upserting(n, cd, m0, done, u)
    ensures Upserting(n, cd, m0, done + [id], UpsertOne(n, cd, u, id, t))
  {
    UpsertOneShape(n, cd, u, id, t);
    UpsertStep(n, cd, m0, done, u, UpsertOne(n, cd, u, id, t), id);
  }

  // ----- Sweeping -----

  /** What a finished poll makes of an owned Collector. */
  function Final(cd: Discovery, current: set<string>, cr: Collector): Option<Collector> {
    if cr.id in current then Some(cr.(stale := None))
    else if cd.deletesRemoved then Deleted(cr)
    else Some(cr.(stale := Some(STALE_VALUE)))
  }

  predicate Remains(cd: Discovery, current: set<string>, cr: Collector) {
    cr.id in current || !cd.deletesRemoved
  }

  predicate Marked(cd: Discovery, current: set<string>, cr: Collector) {
    cr.id !in current && !cd.deletesRemoved
  }

  lemma DeleteShape(cd: Discovery, v: World, name: string, reply: Reply)
    requires name in Mine(v.crs, cd)
    ensures var x := Call(v, name, Deleted(v.crs[name]), reply); var m := Mine(v.crs, cd);
            Mine(x.crs, cd) == if reply.Applied() then Update(m, name, Deleted(m[name])) else m
  {
    if reply.Applied() {
      CallOnMine(v, cd, name, Deleted(v.crs[name]), reply);
    }
  }

  lemma SweepOneShape(cd: Discovery, current: set<string>, s: Swept, item: Item, t: Turn)
    requires s.ok && TurnSpares(t)
    requires Owned(item.cr, cd) ==> Find(Mine(s.world.crs, cd), item.name) == Some(item.cr)
    ensures var v := SweepOne(cd, current, s, item, t); var m := Mine(s.world.crs, cd);
            v.ok ==> Mine(v.world.crs, cd) ==
                     if Owned(item.cr, cd) then Update(m, item.name, Final(cd, current, item.cr)) else m
  {
    var m, v := Mine(s.world.crs, cd), Interfered(s.world, cd, t.between);
    OthersKeepMine(s.world.crs, cd, t.between);
    assert Mine(v.crs, cd) == m;
    if Owned(item.cr, cd) {
      if item.cr.id in current {
        PatchShape(cd, v, item.name, item.cr.stale.Some?, None, t.write);
        assert item.cr.stale == None ==> m[item.name := item.cr.(stale := None)] == m;
      } else if cd.deletesRemoved {
        DeleteShape(cd, v, item.name, t.write);
      } else {
        PatchShape(cd, v, item.name, item.cr.stale != Some(STALE_VALUE), Some(STALE_VALUE), t.write);
        assert item.cr.stale == Some(STALE_VALUE) ==> m[item.name := item.cr.(stale := Some(STALE_VALUE))] == m;
      }
    }
  }

  function Names(items: seq<Item>): set<string> {
    set i | i in items :: i.name
  }

  /** The items are distinct, and the owned ones are those of `m`. */
  ghost predicate Items(items: seq<Item>, m: Cluster, cd: Discovery) {
    && (forall i, j | 0 <= i < j < |items| :: items[i].name != items[j].name)
    && (forall i | 0 <= i < |items| ::
         Find(m, items[i].name) == if Owned(items[i].cr, cd) then Some(items[i].cr) else None)
  }

  /** After sweeping the names in `done`, out of the owned Collectors `m0`. */
  ghost predicate Sweeping(cd: Discovery, current: set<string>, m0: Cluster, done: set<string>, s: Swept) {
    && (forall k :: Find(Mine(s.world.crs, cd), k) ==
         if k in done && k in m0 then Final(cd, current, m0[k]) else Find(m0, k))
    && s.managed == |Counted(cd, current, m0, done)|
    && (forall x :: x in s.stale <==> SweptStale(cd, current, m0, done, x))
  }

  ghost function Counted(cd: Discovery, current: set<string>, m0: Cluster, done: set<string>): set<string> {
    set k | k in m0 && k in done && Remains(cd, current, m0[k])
  }

  ghost predicate SweptStale(cd: Discovery, current: set<string>, m0: Cluster, done: set<string>, x: string) {
    exists k :: k in m0 && k in done && Marked(cd, current, m0[k]) && m0[k].id == x
  }

  lemma CountStep(cd: Discovery, current: set<string>, m0: Cluster, done: set<string>, name: string)
    requires name !in done
    ensures |Counted(cd, current, m0, done + {name})| ==
            |Counted(cd, current, m0, done)| + if name in m0 && Remains(cd, current, m0[name]) then 1 else 0
  {
    var before, after := Counted(cd, current, m0, done), Counted(cd, current, m0, done + {name});
    if name in m0 && Remains(cd, current, m0[name]) {
      assert after == before + {name};
    } else {
      assert after == before;
    }
  }

  lemma StaleStep(cd: Discovery, current: set<string>, m0: Cluster, done: set<string>, name: string, x: string)
    ensures SweptStale(cd, current, m0, done + {name}, x) <==>
            SweptStale(cd, current, m0, done, x) || (name in m0 && Marked(cd, current, m0[name]) && m0[name].id == x)
  {}

  lemma SweepStep(cd: Discovery, current: set<string>, m0: Cluster, done: set<string>, s: Swept, item: Item, t: Turn)
    requires Sweeping(cd, current, m0, done, s) && item.name !in done
    requires Find(m0, item.name) == if Owned(item.cr, cd) then Some(item.cr) else None
    requires var v := SweepOne(cd, current, s, item, t); var m := Mine(s.world.crs, cd);
             Mine(v.world.crs, cd) ==
                if Owned(item.cr, cd) then Update(m, item.name, Final(cd, current, item.cr)) else m
    ensures Sweeping(cd, current, m0, done + {item.name}, SweepOne(cd, current, s, item, t))
  {
    var v := SweepOne(cd, current, s, item, t);
    CountStep(cd, current, m0, done, item.name);
    SweepCounts(cd, current, s, item, t);
    forall x ensures x in v.stale <==> SweptStale(cd, current, m0, done + {item.name}, x) {
      StaleStep(cd, current, m0, done, item.name, x);
    }
  }

  lemma SweepCounts(cd: Discovery, current: set<string>, s: Swept, item: Item, t: Turn)
    ensures var v := SweepOne(cd, current, s, item, t);
            && v.managed == s.managed + (if Owned(item.cr, cd) && Remains(cd, current, item.cr) then 1 else 0)
            && v.stale == s.stale + (if Owned(item.cr, cd) && Marked(cd, current, item.cr) then [item.cr.id] else [])
  {}

  lemma {:induction false} SweepAllShape(cd: Discovery, current: set<string>, w: World, items: seq<Item>,
                                         turns: nat -> Turn)
    requires Items(items, Mine(w.crs, cd), cd) && forall i: nat :: TurnSpares(turns(i))
    ensures var s := SweepAll(cd, current, w, items, turns);
            s.ok ==> Sweeping(cd, current, Mine(w.crs, cd), Names(items), s)
  {
    var m0 := Mine(w.crs, cd);
    if items == [] {
      assert Counted(cd, current, m0, Names(items)) == {};
    } else {
      var k := |items| - 1;
      SweepAllShape(cd, current, w, items[..k], turns);
      var s := SweepAll(cd, current, w, items[..k], turns);
      assert items[k].name !in Names(items[..k]);
      assert items == items[..k] + [items[k]];
      assert Names(items) == Names(items[..k]) + {items[k].name};
      if s.ok {
        SweepNext(cd, current, m0, Names(items[..k]), s, items[k], turns(k));
      }
    }
  }

  lemma SweepNext(cd: Discovery, current: set<string>, m0: Cluster, done: set<string>, s: Swept, item: Item, t: Turn)
    requires s.ok && TurnSpares(t)
    requires Sweeping(cd, current, m0, done, s) && item.name !in done
    requires Find(m0, item.name) == if Owned(item.cr, cd) then Some(item.cr) else None
    ensures var v := SweepOne(cd, current, s, item, t); v.ok ==> Sweeping(cd, current, m0, done + {item.name}, v)
  {
    assert Find(Mine(s.world.crs, cd), item.name) == Find(m0, item.name);
    SweepOneShape(cd, current, s, item, t);
    if SweepOne(cd, current, s, item, t).ok {
      SweepStep(cd, current, m0, done, s, item, t);
    }
  }

  // ----- The whole poll -----

  lemma ListedItems(items: seq<Item>, crs: Cluster, cd: Discovery)
    requires Lists(items, crs, cd) && cd.name != ""
    ensures Items(items, Mine(crs, cd), cd) && Mine(crs, cd).Keys <= Names(items)
  {
    forall k | k in Mine(crs, cd) ensures k in Names(items) {
      assert crs[k].nameLabel == Some(cd.name);
      assert Item(k, crs[k]) in items;
    }
  }

  /** One name of the mirror: unmarked while its id is among `ids`; otherwise marked stale, or gone, or going
      when a finaliser holds it. Nothing else about it changes, and new ones are exactly what create makes. */
  ghost predicate MirrorsKey(cd: Discovery, ids: seq<string>, m0: Cluster, m: Cluster, k: string) {
    && (k in m && m[k].id in ids ==> m[k].stale == None)
    && (k in m && m[k].id !in ids ==>
          if cd.deletesRemoved then m[k].deleting && m[k].finalizer else m[k].stale == Some(STALE_VALUE))
    && (k in m0 ==> (k !in m <==> cd.deletesRemoved && m0[k].id !in ids && !m0[k].finalizer))
    && (k in m0 && k in m ==> m[k] == m0[k].(stale := m[k].stale, deleting := m[k].deleting))
    && (k in m && k !in m0 ==> m[k] == NewCollector(cd, m[k].id) && m[k].id in ids)
  }

  /** The mirror: `m0` and `m` are the owned Collectors before and after a poll that saw `ids`. */
  ghost predicate Mirrors(cd: Discovery, ids: seq<string>, m0: Cluster, m: Cluster) {
    forall k | k in m0 || k in m :: MirrorsKey(cd, ids, m0, m, k)
  }

  /** What the poll reports. */
  ghost predicate Reports(cd: Discovery, ids: seq<string>, m: Cluster, r: Polled) {
    && r.managed == |set k | k in m && (m[k].id in ids || !cd.deletesRemoved)|
    && Sorted(AtMost, r.stale)
    && (forall x :: x in r.stale <==> !cd.deletesRemoved && x !in ids && exists k :: k in m && m[k].id == x)
    && (forall x | x in ids :: x in r.current || exists c :: c in r.conflicts && c.id == x)
  }

  lemma MirrorFromPhases(n: Naming, cd: Discovery, ids: seq<string>, m0: Cluster, u: Upserted, m1: Cluster,
                         done: set<string>, s: Swept)
    requires n.Valid() && u.ok && Upserting(n, cd, m0, ids, u) && m1 == Mine(u.world.crs, cd)
    requires Sweeping(cd, u.current, m1, done, s) && m1.Keys <= done
    ensures Mirrors(cd, ids, m0, Mine(s.world.crs, cd))
  {
    var m := Mine(s.world.crs, cd);
    forall k ensures MirrorsKey(cd, ids, m0, m, k) {
      assert Find(m, k) == if k in m1 then Final(cd, u.current, m1[k]) else None;
      if k in m1 {
        assert m1[k].id in ids <==> m1[k].id in u.current;
        if k in m0 {
          assert SameButStale(m1[k], m0[k]);
        }
      }
    }
  }

  lemma ReportsFromPhases(n: Naming, cd: Discovery, ids: seq<string>, m0: Cluster, u: Upserted, m1: Cluster,
                          done: set<string>, s: Swept)
    requires n.Valid() && u.ok && Upserting(n, cd, m0, ids, u) && m1 == Mine(u.world.crs, cd)
    requires Sweeping(cd, u.current, m1, done, s) && m1.Keys <= done
    ensures var m := Mine(s.world.crs, cd);
            && s.managed == |set k | k in m && (m[k].id in ids || !cd.deletesRemoved)|
            && (forall x :: x in s.stale <==> !cd.deletesRemoved && x !in ids && exists k :: k in m && m[k].id == x)
  {
    var m := Mine(s.world.crs, cd);
    assert forall k | k in m1 :: m1[k].id in ids <==> m1[k].id in u.current;
    assert forall k :: Find(m, k) == if k in m1 then Final(cd, u.current, m1[k]) else None;
    ManagedCount(cd, ids, u.current, m1, m);
    assert Counted(cd, u.current, m1, done) == Counted(cd, u.current, m1, m1.Keys);
    StaleReported(cd, ids, u.current, m1, m, done);
  }

  lemma ManagedCount(cd: Discovery, ids: seq<string>, current: set<string>, m1: Cluster, m: Cluster)
    requires forall k | k in m1 :: m1[k].id in ids <==> m1[k].id in current
    requires forall k :: Find(m, k) == if k in m1 then Final(cd, current, m1[k]) else None
    ensures (set k | k in m && (m[k].id in ids || !cd.deletesRemoved)) == Counted(cd, current, m1, m1.Keys)
  {
    forall k ensures (k in m && (m[k].id in ids || !cd.deletesRemoved)) <==> (k in m1 && Remains(cd, current, m1[k])) {
      assert Find(m, k) == if k in m1 then Final(cd, current, m1[k]) else None;
    }
  }

  lemma StaleReported(cd: Discovery, ids: seq<string>, current: set<string>, m1: Cluster, m: Cluster, done: set<string>)
    requires forall k | k in m1 :: m1[k].id in ids <==> m1[k].id in current
    requires forall k :: Find(m, k) == if k in m1 then Final(cd, current, m1[k]) else None
    requires m1.Keys <= done
    ensures forall x :: SweptStale(cd, current, m1, done, x) <==>
              !cd.deletesRemoved && x !in ids && exists k :: k in m && m[k].id == x
  {
    forall x
      ensures SweptStale(cd, current, m1, done, x) <==>
                !cd.deletesRemoved && x !in ids && exists k :: k in m && m[k].id == x
    {
      if SweptStale(cd, current, m1, done, x) {
        var k :| k in m1 && k in done && Marked(cd, current, m1[k]) && m1[k].id == x;
        assert Find(m, k) == Final(cd, current, m1[k]);
        assert k in m && m[k].id == x;
      }
      if !cd.deletesRemoved && x !in ids && exists k :: k in m && m[k].id == x {
        var k :| k in m && m[k].id == x;
        assert Find(m, k) == if k in m1 then Final(cd, current, m1[k]) else None;
        assert k in m1 && Marked(cd, current, m1[k]) && m1[k].id == x;
      }
    }
  }

  /** An error-free poll during which nobody seizes a Collector leaves an owned one marked stale, or gone or
      going, exactly when its id is not among the surviving ones. */
  lemma PollMirrors(n: Naming, cd: Discovery, crs: Cluster, ids: seq<string>, p: Script)
    requires n.Valid() && cd.name != "" && NamedById(n, Mine(crs, cd)) && Plausible(n, cd, World(crs, []), ids, p)
    requires ScriptSpares(p)
    requires Poll(n, cd, World(crs, []), ids, p).done
    ensures var r := Poll(n, cd, World(crs, []), ids, p); var m := Mine(r.world.crs, cd);
            && Mirrors(cd, ids, Mine(crs, cd), m) && Reports(cd, ids, m, r)
  {
    var w := World(crs, []);
    assert forall i: nat :: TurnSpares(p.upserts(i));
    assert forall i: nat :: TurnSpares(p.sweeps(i));
    UpsertAllShape(n, cd, w, ids, p.upserts);
    var u := UpsertAll(n, cd, w, ids, p.upserts);
    var v := Interfered(u.world, cd, p.beforeList);
    OthersKeepMine(u.world.crs, cd, p.beforeList);
    ListedItems(p.items, v.crs, cd);
    SweepAllShape(cd, u.current, v, p.items, p.sweeps);
    var s := SweepAll(cd, u.current, v, p.items, p.sweeps);
    MirrorFromPhases(n, cd, ids, Mine(crs, cd), u, Mine(v.crs, cd), Names(p.items), s);
    ReportsFromPhases(n, cd, ids, Mine(crs, cd), u, Mine(v.crs, cd), Names(p.items), s);
    ReportsSorted(n, cd, ids, u, s);
  }

  lemma ReportsSorted(n: Naming, cd: Discovery, ids: seq<string>, u: Upserted, s: Swept)
    requires forall x | x in ids :: x in u.current || exists c :: c in u.conflicts && c.id == x
    ensures Sorted(AtMost, Sort(AtMost, s.stale)) && forall x :: x in Sort(AtMost, s.stale) <==> x in s.stale
    ensures forall x | x in ids :: x in u.current || exists c :: c in Sort(ConflictAtMost, u.conflicts) && c.id == x
  {
    StringOrderIsTotal();
    SortIsSortedPermutation(AtMost, s.stale);
    SortMembers(AtMost, s.stale);
    assert TotalPreorder(ConflictAtMost);
    SortMembers(ConflictAtMost, u.conflicts);
  }

  // ----- Names over every run -----

  /** Every labelled Collector is named after its id. */
  ghost predicate LabelledAreNamed(n: Naming, crs: Cluster)
    requires n.Valid()
  {
    forall k | k in crs && crs[k].nameLabel.Some? :: k == ChooseName(n, crs[k].id)
  }

  /** Nobody else labels a Collector whose name is not derived from its id. */
  ghost predicate ActNames(n: Naming, act: Act)
    requires n.Valid()
  {
    match act
    case Put(name, cr) => WellNamed(n, name, Some(cr))
    case Drop(_) => true
    case Seize(name, after) => WellNamed(n, name, after)
  }

  ghost predicate WellNamed(n: Naming, name: string, o: Option<Collector>)
    requires n.Valid()
  {
    o.Some? && o.value.nameLabel.Some? ==> name == ChooseName(n, o.value.id)
  }

  ghost predicate ActsName(n: Naming, acts: seq<Act>)
    requires n.Valid()
  {
    forall a | a in acts :: ActNames(n, a)
  }

  ghost predicate TurnNames(n: Naming, t: Turn)
    requires n.Valid()
  {
    ActsName(n, t.before) && ActsName(n, t.between)
  }

  ghost predicate ScriptNames(n: Naming, p: Script)
    requires n.Valid()
  {
    ActsName(n, p.beforeList) && forall i: nat :: TurnNames(n, p.upserts(i)) && TurnNames(n, p.sweeps(i))
  }

  lemma {:induction false} OthersKeepNames(n: Naming, crs: Cluster, cd: Discovery, acts: seq<Act>)
    requires n.Valid() && LabelledAreNamed(n, crs) && ActsName(n, acts)
    ensures LabelledAreNamed(n, Others(crs, cd, acts))
  {
    if acts != [] {
      OthersKeepNames(n, crs, cd, acts[..|acts| - 1]);
      assert acts[|acts| - 1] in acts;
    }
  }

  lemma UpsertOneKeepsNames(n: Naming, cd: Discovery, u: Upserted, id: string, t: Turn)
    requires n.Valid() && LabelledAreNamed(n, u.world.crs) && TurnNames(n, t)
    ensures LabelledAreNamed(n, UpsertOne(n, cd, u, id, t).world.crs)
  {
    var v := u.(world := Interfered(u.world, cd, t.before));
    var name, x := ChooseName(n, id), Interfered(v.world, cd, t.between);
    OthersKeepNames(n, u.world.crs, cd, t.before);
    OthersKeepNames(n, v.world.crs, cd, t.between);
    if name in v.world.crs {
      PatchKeepsNames(n, x, name, v.world.crs[name].stale.Some?, None, t.write);
    } else {
      CallKeepsNames(n, x, name, Some(NewCollector(cd, id)), t.write);
    }
  }

  lemma CallKeepsNames(n: Naming, w: World, name: string, after: Option<Collector>, reply: Reply)
    requires n.Valid() && LabelledAreNamed(n, w.crs)
    requires after.Some? && after.value.nameLabel.Some? ==> name == ChooseName(n, after.value.id)
    ensures LabelledAreNamed(n, Call(w, name, after, reply).crs)
  {}

  lemma PatchKeepsNames(n: Naming, w: World, name: string, needed: bool, value: Option<string>, reply: Reply)
    requires n.Valid() && LabelledAreNamed(n, w.crs)
    ensures LabelledAreNamed(n, PatchStale(w, name, needed, value, reply).0.crs)
  {
    if name in w.crs {
      CallKeepsNames(n, w, name, Some(w.crs[name].(stale := value)), reply);
    }
  }

  lemma SweepOneKeepsNames(n: Naming, cd: Discovery, current: set<string>, s: Swept, item: Item, t: Turn)
    requires n.Valid() && LabelledAreNamed(n, s.world.crs) && TurnNames(n, t)
    ensures LabelledAreNamed(n, SweepOne(cd, current, s, item, t).world.crs)
  {
    OthersKeepNames(n, s.world.crs, cd, t.between);
    var v := Interfered(s.world, cd, t.between);
    PatchKeepsNames(n, v, item.name, item.cr.stale.Some?, None, t.write);
    PatchKeepsNames(n, v, item.name, item.cr.stale != Some(STALE_VALUE), Some(STALE_VALUE), t.write);
    if item.name in v.crs {
      CallKeepsNames(n, v, item.name, Deleted(v.crs[item.name]), t.write);
    }
  }

  lemma {:induction false} UpsertAllKeepsNames(n: Naming, cd: Discovery, w: World, ids: seq<string>, turns: nat -> Turn)
    requires n.Valid() && LabelledAreNamed(n, w.crs) && forall i: nat :: TurnNames(n, turns(i))
    ensures LabelledAreNamed(n, UpsertAll(n, cd, w, ids, turns).world.crs)
  {
    if ids != [] {
      var k := |ids| - 1;
      UpsertAllKeepsNames(n, cd, w, ids[..k], turns);
      var u := UpsertAll(n, cd, w, ids[..k], turns);
      if u.ok {
        UpsertOneKeepsNames(n, cd, u, ids[k], turns(k));
      }
    }
  }

  lemma {:induction false} SweepAllKeepsNames(n: Naming, cd: Discovery, current: set<string>, w: World,
                                              items: seq<Item>, turns: nat -> Turn)
    requires n.Valid() && LabelledAreNamed(n, w.crs) && forall i: nat :: TurnNames(n, turns(i))
    ensures LabelledAreNamed(n, SweepAll(cd, current, w, items, turns).world.crs)
  {
    if items != [] {
      var k := |items| - 1;
      SweepAllKeepsNames(n, cd, current, w, items[..k], turns);
      var s := SweepAll(cd, current, w, items[..k], turns);
      if s.ok {
        SweepOneKeepsNames(n, cd, current, s, items[k], turns(k));
      }
    }
  }

  lemma PollKeepsNames(n: Naming, cd: Discovery, w: World, ids: seq<string>, p: Script)
    requires n.Valid() && LabelledAreNamed(n, w.crs) && ScriptNames(n, p)
    ensures LabelledAreNamed(n, Poll(n, cd, w, ids, p).world.crs)
  {
    assert forall i: nat :: TurnNames(n, p.upserts(i));
    assert forall i: nat :: TurnNames(n, p.sweeps(i));
    UpsertAllKeepsNames(n, cd, w, ids, p.upserts);
    var u := UpsertAll(n, cd, w, ids, p.upserts);
    OthersKeepNames(n, u.world.crs, cd, p.beforeList);
    SweepAllKeepsNames(n, cd, u.current, Interfered(u.world, cd, p.beforeList), p.items, p.sweeps);
  }

  datatype Event = PollBy(cd: Discovery, ids: seq<string>, script: Script)
                 | ByUser(name: string, after: Option<Collector>)

  function Apply(n: Naming, crs: Cluster, e: Event): Cluster
    requires n.Valid()
  {
    match e
    case PollBy(cd, ids, p) => Poll(n, cd, World(crs, []), ids, p).world.crs
    case ByUser(name, after) => Update(crs, name, after)
  }

  function ApplyAll(n: Naming, crs: Cluster, es: seq<Event>): Cluster
    requires n.Valid()
    decreases |es|
  {
    if es == [] then crs else ApplyAll(n, Apply(n, crs, es[0]), es[1..])
  }

  ghost predicate EventNames(n: Naming, e: Event)
    requires n.Valid()
  {
    match e
    case PollBy(_, _, p) => ScriptNames(n, p)
    case ByUser(name, after) => WellNamed(n, name, after)
  }

  /** Over every run of polls of any discoveries, complete or not, and of users, labelled Collectors keep
      names derived from their ids. */
  lemma {:induction false} NamesStayDerived(n: Naming, crs: Cluster, es: seq<Event>)
    requires n.Valid() && LabelledAreNamed(n, crs) && forall e | e in es :: EventNames(n, e)
    ensures LabelledAreNamed(n, ApplyAll(n, crs, es))
    decreases |es|
  {
    if es != [] {
      assert es[0] in es && forall e | e in es[1..] :: e in es;
      match es[0] {
        case PollBy(cd, ids, p) => PollKeepsNames(n, cd, World(crs, []), ids, p);
        case ByUser(_, _) =>
      }
      NamesStayDerived(n, Apply(n, crs, es[0]), es[1..]);
    }
  }

  /** So after any such run from an empty namespace, an error-free poll mirrors the records that pass its
      filters. */
  lemma RunThenPollMirrors(n: Naming, cd: Discovery, es: seq<Event>, blank: string -> bool,
                           records: seq<Option<Record>>, p: Script)
    requires n.Valid() && cd.name != "" && forall e | e in es :: EventNames(n, e)
    requires ScriptSpares(p)
    requires var crs := ApplyAll(n, map[], es); var ids := Surviving(cd, blank, records);
             Plausible(n, cd, World(crs, []), ids, p) && Poll(n, cd, World(crs, []), ids, p).done
    ensures var crs := ApplyAll(n, map[], es); var ids := Surviving(cd, blank, records);
            var r := Poll(n, cd, World(crs, []), ids, p); var m := Mine(r.world.crs, cd);
            Mirrors(cd, ids, Mine(crs, cd), m) && Reports(cd, ids, m, r)
  {
    NamesStayDerived(n, map[], es);
    var crs := ApplyAll(n, map[], es);
    assert NamedById(n, Mine(crs, cd));
    PollMirrors(n, cd, crs, Surviving(cd, blank, records), p);
  }
}
