/** The CollectorDiscovery reconciler in its own form: loops over what Fleet lists and over its Collectors,
    one API call at a time. Each method is proved against the function it carries out. */
module DiscoveryController {
  import opened Common
  import opened Strings
  import opened Sorting
  import opened DiscoveryNames
  import opened FleetCalls
  import opened DiscoveryMirror

  method FilterCollectors(cd: Discovery, blank: string -> bool, records: seq<Option<Record>>) returns (out: seq<string>)
    ensures out == Surviving(cd, blank, records)
  {
    out := [];
    var allowed := set id | id in cd.collectorIds;
    for i := 0 to |records|
      invariant out == Surviving(cd, blank, records[..i])
    {
      assert records[..i + 1][..i] == records[..i];
      var c := records[i];
      if c.None? || blank(c.value.id) {
        continue;
      }
      if !cd.includeInactive && c.value.inactive {
        continue;
      }
      if |cd.collectorIds| > 0 && c.value.id !in allowed {
        continue;
      }
      out := out + [c.value.id];
    }
    assert records[..|records|] == records;
  }

  method ChooseCRName(n: Naming, id: string) returns (name: string)
    requires n.Valid()
    ensures name == ChooseName(n, id)
  {
    var sanitized, lossy := SanitizedName(n, id);
    name := if sanitized == "" || lossy then HashedName(n, id) else sanitized;
  }

  class CollectorDiscoveryReconciler {
    const naming: Naming
    var crs: Cluster
    ghost var writes: seq<Write>

    ghost function Now(): World
      reads this
    {
      World(crs, writes)
    }

    constructor (naming: Naming, crs: Cluster)
      ensures this.naming == naming && Now() == World(crs, [])
    {
      this.naming, this.crs := naming, crs;
      writes := [];
    }

    method OthersAct(cd: Discovery, acts: seq<Act>)
      modifies this
      ensures Now() == Interfered(old(Now()), cd, acts)
    {
      crs := Others(crs, cd, acts);
    }

    /** Create, Patch and Delete, as the API server carries them out. */
    method Write(name: string, after: Option<Collector>, reply: Reply)
      modifies this
      ensures Now() == Call(old(Now()), name, after, reply)
    {
      if reply.Applied() {
        writes := writes + [DiscoveryMirror.Write(name, Find(crs, name), after)];
        crs := Update(crs, name, after);
      }
    }

    method PatchAnnotation(name: string, value: Option<string>, reply: Reply) returns (ok: bool)
      modifies this
      ensures (Now(), ok) == PatchStale(old(Now()), name, true, value, reply)
    {
      if name !in crs {
        return false;
      }
      Write(name, Some(crs[name].(stale := value)), reply);
      ok := reply.Done?;
    }

    /** No call when the object read does not carry the annotation. */
    method ClearStaleAnnotation(name: string, cr: Collector, reply: Reply) returns (ok: bool)
      modifies this
      ensures (Now(), ok) == PatchStale(old(Now()), name, cr.stale.Some?, None, reply)
    {
      if cr.stale.None? {
        return true;
      }
      ok := PatchAnnotation(name, None, reply);
    }

    method SetStaleAnnotation(name: string, cr: Collector, reply: Reply) returns (ok: bool)
      modifies this
      ensures (Now(), ok) == PatchStale(old(Now()), name, cr.stale != Some(STALE_VALUE), Some(STALE_VALUE), reply)
    {
      if cr.stale == Some(STALE_VALUE) {
        return true;
      }
      ok := PatchAnnotation(name, Some(STALE_VALUE), reply);
    }

    method UpsertCollector(cd: Discovery, id: string, t: Turn, current: set<string>, conflicts: seq<DiscoveryConflict>)
      returns (current': set<string>, conflicts': seq<DiscoveryConflict>, ok: bool)
      requires naming.Valid()
      modifies this
      ensures Upserted(Now(), current', conflicts', ok) ==
              UpsertOne(naming, cd, Upserted(old(Now()), current, conflicts, true), id, t)
    {
      current', conflicts', ok := current, conflicts, true;
      var name := ChooseCRName(naming, id);
      var valid := IsValidDNS1123(name);
      if !valid {
        conflicts' := conflicts + [DiscoveryConflict(id, name, SanitizeFailed)];
        return;
      }
      OthersAct(cd, t.before);
      if !t.read.Done? {
        ok := false;
        return;
      }
      if name !in crs {
        OthersAct(cd, t.between);
        if name !in crs {
          Write(name, Some(NewCollector(cd, id)), t.write);
        }
        current', ok := current + {id}, t.write.Done?;
        return;
      }
      var existing := crs[name];
      if existing.nameLabel.None? {
        conflicts' := conflicts + [DiscoveryConflict(id, name, NotOwned)];
      } else if !Owned(existing, cd) {
        conflicts' := conflicts + [DiscoveryConflict(id, name, OwnedByOther)];
      } else if existing.id != id {
        conflicts' := conflicts + [DiscoveryConflict(id, name, SanitizeFailed)];
      } else {
        current' := current + {id};
        OthersAct(cd, t.between);
        ok := ClearStaleAnnotation(name, existing, t.write);
      }
    }

    method UpsertCollectorCRs(cd: Discovery, surviving: seq<string>, turns: nat -> Turn)
      returns (conflicts: seq<DiscoveryConflict>, current: set<string>, ok: bool)
      requires naming.Valid()
      modifies this
      ensures var u := UpsertAll(naming, cd, old(Now()), surviving, turns);
              && Now() == u.world && ok == u.ok && current == u.current
              && conflicts == if ok then Sort(ConflictAtMost, u.conflicts) else u.conflicts
    {
      conflicts, current, ok := [], {}, true;
      for i := 0 to |surviving|
        invariant ok
        invariant Upserted(Now(), current, conflicts, ok) == UpsertAll(naming, cd, old(Now()), surviving[..i], turns)
      {
        assert surviving[..i + 1][..i] == surviving[..i];
        current, conflicts, ok := UpsertCollector(cd, surviving[i], turns(i), current, conflicts);
        if !ok {
          StopsShort(naming, cd, old(Now()), surviving, turns, i + 1);
          return;
        }
      }
      assert surviving[..|surviving|] == surviving;
      conflicts := Sort(ConflictAtMost, conflicts);
    }

    /** List by the name label, in whatever order the API returns. */
    method ListManaged(cd: Discovery) returns (items: seq<Item>)
      ensures Lists(items, crs, cd)
    {
      items := [];
      var todo := crs.Keys;
      while todo != {}
        invariant todo <= crs.Keys
        invariant forall i | 0 <= i < |items| :: items[i].name !in todo && Find(crs, items[i].name) == Some(items[i].cr)
        invariant forall i, j | 0 <= i < j < |items| :: items[i].name != items[j].name
        invariant forall k | k in crs && k !in todo && crs[k].nameLabel == Some(cd.name) :: Item(k, crs[k]) in items
        decreases todo
      {
        var k :| k in todo;
        if crs[k].nameLabel == Some(cd.name) {
          items := items + [Item(k, crs[k])];
        }
        todo := todo - {k};
      }
    }

    method SweepItem(cd: Discovery, current: set<string>, item: Item, t: Turn, stale: seq<string>, managed: int)
      returns (stale': seq<string>, managed': int, ok: bool)
      modifies this
      ensures Swept(Now(), stale', managed', ok) ==
              SweepOne(cd, current, Swept(old(Now()), stale, managed, true), item, t)
    {
      stale', managed', ok := stale, managed, true;
      OthersAct(cd, t.between);
      if !Owned(item.cr, cd) {
        return;
      }
      managed' := managed' + 1;
      if item.cr.id in current {
        ok := ClearStaleAnnotation(item.name, item.cr, t.write);
      } else if cd.deletesRemoved {
        if item.name in crs {
          Write(item.name, Deleted(crs[item.name]), t.write);
        }
        ok := t.write.Done?;
        managed' := managed' - 1;
      } else {
        stale' := stale' + [item.cr.id];
        ok := SetStaleAnnotation(item.name, item.cr, t.write);
      }
    }

    method ProcessStale(cd: Discovery, current: set<string>, items: seq<Item>, turns: nat -> Turn)
      returns (stale: seq<string>, managed: int, ok: bool)
      modifies this
      ensures var s := SweepAll(cd, current, old(Now()), items, turns);
              && Now() == s.world && ok == s.ok && managed == s.managed
              && stale == if ok then Sort(AtMost, s.stale) else s.stale
    {
      stale, managed, ok := [], 0, true;
      for i := 0 to |items|
        invariant ok && Swept(Now(), stale, managed, ok) == SweepAll(cd, current, old(Now()), items[..i], turns)
      {
        assert items[..i + 1][..i] == items[..i];
        stale, managed, ok := SweepItem(cd, current, items[i], turns(i), stale, managed);
        if !ok {
          SweepStopsShort(cd, current, old(Now()), items, turns, i + 1);
          return;
        }
      }
      assert items[..|items|] == items;
      stale := Sort(AtMost, stale);
    }

    /** One poll leaves exactly the namespace the function gives, for the listing the API returned. */
    method Poll(cd: Discovery, ids: seq<string>, p: Script)
      returns (done: bool, stale: seq<string>, managed: int, conflicts: seq<DiscoveryConflict>, ghost used: Script)
      requires naming.Valid()
      modifies this
      ensures used == p.(items := used.items) && Plausible(naming, cd, old(Now()), ids, used)
      ensures var r := DiscoveryMirror.Poll(naming, cd, old(Now()), ids, used);
              Now() == r.world && done == r.done
              && (done ==> stale == r.stale && managed == r.managed && conflicts == r.conflicts)
    {
      used := p;
      var current, ok;
      done, stale, managed := false, [], 0;
      conflicts, current, ok := UpsertCollectorCRs(cd, ids, p.upserts);
      if !ok {
        return;
      }
      OthersAct(cd, p.beforeList);
      if !p.list.Done? {
        return;
      }
      var items := ListManaged(cd);
      used := p.(items := items);
      stale, managed, done := ProcessStale(cd, current, items, p.sweeps);
    }
  }

  /** Nothing follows the first failure. */
  lemma {:induction false} StopsShort(n: Naming, cd: Discovery, w: World, ids: seq<string>, turns: nat -> Turn, k: nat)
    requires n.Valid() && k <= |ids| && !UpsertAll(n, cd, w, ids[..k], turns).ok
    ensures UpsertAll(n, cd, w, ids, turns) == UpsertAll(n, cd, w, ids[..k], turns)
    decreases |ids|
  {
    if k == |ids| {
      assert ids[..k] == ids;
    } else {
      assert ids[..|ids| - 1][..k] == ids[..k];
      StopsShort(n, cd, w, ids[..|ids| - 1], turns, k);
    }
  }

  lemma {:induction false} SweepStopsShort(cd: Discovery, current: set<string>, w: World, items: seq<Item>,
                                           turns: nat -> Turn, k: nat)
    requires k <= |items| && !SweepAll(cd, current, w, items[..k], turns).ok
    ensures SweepAll(cd, current, w, items, turns) == SweepAll(cd, current, w, items[..k], turns)
    decreases |items|
  {
    if k == |items| {
      assert items[..k] == items;
    } else {
      assert items[..|items| - 1][..k] == items[..k];
      SweepStopsShort(cd, current, w, items[..|items| - 1], turns, k);
    }
  }
}
