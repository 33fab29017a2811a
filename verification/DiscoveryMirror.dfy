/** One poll of a CollectorDiscovery over the Collectors of its target namespace: upsert what Fleet lists,
    then mark or delete what it no longer lists. Other writers act between any two calls. */
module DiscoveryMirror {
  import opened Common
  import opened Strings
  import opened Sorting
  import opened DiscoveryNames
  import opened FleetCalls

  const STALE_VALUE := "true"

  /** A Collector resource: its id, the labels and annotations of discovery, and its deletion state. */
  datatype Collector = Collector(id: string, nameLabel: Option<string>, namespaceLabel: Option<string>,
                                 discoveredBy: Option<string>, fleetId: Option<string>, stale: Option<string>,
                                 finalizer: bool, deleting: bool)

  /** The Collectors of the target namespace, by name. */
  type Cluster = map<string, Collector>

  datatype Discovery = Discovery(namespace: string, name: string, deletesRemoved: bool,
                                 includeInactive: bool, collectorIds: seq<string>)
  {
    function OwnerAnnotation(): string {
      namespace + "/" + name
    }
  }

  function OrEmpty(o: Option<string>): string {
    if o.Some? then o.value else ""
  }

  predicate Owned(cr: Collector, cd: Discovery) {
    && OrEmpty(cr.nameLabel) == cd.name
    && if cr.namespaceLabel.Some? then cr.namespaceLabel.value == cd.namespace
       else OrEmpty(cr.discoveredBy) == cd.OwnerAnnotation()
  }

  function NewCollector(cd: Discovery, id: string): Collector {
    Collector(id, Some(cd.name), Some(cd.namespace), Some(cd.OwnerAnnotation()), Some(id), None, false, false)
  }

  function Find<V>(m: map<string, V>, k: string): Option<V> {
    if k in m then Some(m[k]) else None
  }

  /** The part of the cluster a discovery owns. */
  function Mine(crs: Cluster, cd: Discovery): Cluster {
    map k | k in crs && Owned(crs[k], cd) :: crs[k]
  }

  // ----- Other writers -----

  /** What other writers do. Putting and dropping keep off Collectors of this discovery, as the other
      discoveries do; a seizure replaces or removes any Collector, as users can. */
  datatype Act = Put(name: string, cr: Collector) | Drop(name: string) | Seize(name: string, after: Option<Collector>)

  predicate IsMine(o: Option<Collector>, cd: Discovery) {
    o.Some? && Owned(o.value, cd)
  }

  /** One act on the Collector of its name. */
  function Acted(o: Option<Collector>, cd: Discovery, act: Act): Option<Collector> {
    match act
    case Put(_, cr) => if IsMine(o, cd) || Owned(cr, cd) then o else Some(cr)
    case Drop(_) => if IsMine(o, cd) then o else None
    case Seize(_, after) => after
  }

  function Update(crs: Cluster, name: string, after: Option<Collector>): Cluster {
    if after.Some? then crs[name := after.value] else crs - {name}
  }

  function ByOthers(crs: Cluster, cd: Discovery, act: Act): Cluster {
    Update(crs, act.name, Acted(Find(crs, act.name), cd, act))
  }

  function Others(crs: Cluster, cd: Discovery, acts: seq<Act>): Cluster {
    if acts == [] then crs else ByOthers(Others(crs, cd, acts[..|acts| - 1]), cd, acts[|acts| - 1])
  }

  /** One item's calls: what others do before the read and before the write, and how the calls end. */
  datatype Turn = Turn(before: seq<Act>, read: Reply, between: seq<Act>, write: Reply)

  // ----- Writes -----

  datatype Write = Write(name: string, before: Option<Collector>, after: Option<Collector>)

  /** The cluster, and every write of this discovery. */
  datatype World = World(crs: Cluster, writes: seq<Write>)

  function Interfered(w: World, cd: Discovery, acts: seq<Act>): World {
    w.(crs := Others(w.crs, cd, acts))
  }

  function Call(w: World, name: string, after: Option<Collector>, reply: Reply): World {
    if !reply.Applied() then w
    else World(Update(w.crs, name, after), w.writes + [Write(name, Find(w.crs, name), after)])
  }

  /** A merge patch of the stale annotation, by name; nothing is sent when the object read needs no change. */
  function PatchStale(w: World, name: string, needed: bool, value: Option<string>, reply: Reply): (World, bool) {
    if !needed then (w, true)
    else if name !in w.crs then (w, false)
    else (Call(w, name, Some(w.crs[name].(stale := value)), reply), reply.Done?)
  }

  function Deleted(cr: Collector): Option<Collector> {
    if cr.finalizer then Some(cr.(deleting := true)) else None
  }

  // ----- Upserting -----

  datatype Reason = NotOwned | OwnedByOther | SanitizeFailed

  datatype DiscoveryConflict = DiscoveryConflict(id: string, name: string, reason: Reason)

  datatype Upserted = Upserted(world: World, current: set<string>, conflicts: seq<DiscoveryConflict>, ok: bool)
  {
    function Clash(id: string, name: string, reason: Reason): Upserted {
      this.(conflicts := conflicts + [DiscoveryConflict(id, name, reason)])
    }

    /** After a call: the id is claimed if it succeeded. */
    function Claim(id: string, w: World, success: bool): Upserted {
      this.(world := w, current := current + {id}, ok := success)
    }
  }

  function Create(cd: Discovery, u: Upserted, id: string, name: string, t: Turn): Upserted {
    var w := Interfered(u.world, cd, t.between);
    if name in w.crs then u.Claim(id, w, t.write.Done?)
    else u.Claim(id, Call(w, name, Some(NewCollector(cd, id)), t.write), t.write.Done?)
  }

  function Adopt(cd: Discovery, u: Upserted, id: string, name: string, existing: Collector, t: Turn): Upserted {
    if existing.nameLabel.None? then u.Clash(id, name, NotOwned)
    else if !Owned(existing, cd) then u.Clash(id, name, OwnedByOther)
    else if existing.id != id then u.Clash(id, name, SanitizeFailed)
    else
      var (w, ok) := PatchStale(Interfered(u.world, cd, t.between), name, existing.stale.Some?, None, t.write);
      u.Claim(id, w, ok)
  }

  function UpsertOne(n: Naming, cd: Discovery, u: Upserted, id: string, t: Turn): Upserted
    requires n.Valid()
  {
    var name := ChooseName(n, id);
    if !ValidLabel(name) then u.Clash(id, name, SanitizeFailed)
    else
      var v := u.(world := Interfered(u.world, cd, t.before));
      if !t.read.Done? then v.(ok := false)
      else if name !in v.world.crs then Create(cd, v, id, name, t)
      else Adopt(cd, v, id, name, v.world.crs[name], t)
  }

  function UpsertAll(n: Naming, cd: Discovery, w: World, ids: seq<string>, turns: nat -> Turn): Upserted
    requires n.Valid()
  {
    if ids == [] then Upserted(w, {}, [], true)
    else
      var k := |ids| - 1;
      var u := UpsertAll(n, cd, w, ids[..k], turns);
      if u.ok then UpsertOne(n, cd, u, ids[k], turns(k)) else u
  }

  // ----- Sweeping -----

  datatype Item = Item(name: string, cr: Collector)

  datatype Swept = Swept(world: World, stale: seq<string>, managed: int, ok: bool)

  /** The call, if any, is made with the object the listing returned. */
  function SweepOne(cd: Discovery, current: set<string>, s: Swept, item: Item, t: Turn): Swept {
    var v := Interfered(s.world, cd, t.between);
    if !Owned(item.cr, cd) then s.(world := v)
    else if item.cr.id in current then
      var (w, ok) := PatchStale(v, item.name, item.cr.stale.Some?, None, t.write);
      Swept(w, s.stale, s.managed + 1, ok)
    else if cd.deletesRemoved then
      var w := if item.name in v.crs then Call(v, item.name, Deleted(v.crs[item.name]), t.write) else v;
      Swept(w, s.stale, s.managed, t.write.Done?)
    else
      var (w, ok) := PatchStale(v, item.name, item.cr.stale != Some(STALE_VALUE), Some(STALE_VALUE), t.write);
      Swept(w, s.stale + [item.cr.id], s.managed + 1, ok)
  }

  function SweepAll(cd: Discovery, current: set<string>, w: World, items: seq<Item>, turns: nat -> Turn): Swept {
    if items == [] then Swept(w, [], 0, true)
    else
      var k := |items| - 1;
      var s := SweepAll(cd, current, w, items[..k], turns);
      if s.ok then SweepOne(cd, current, s, items[k], turns(k)) else s
  }

  /** The listing by name label: every matching Collector once, in some order. */
  ghost predicate Lists(items: seq<Item>, crs: Cluster, cd: Discovery) {
    && (forall i, j | 0 <= i < j < |items| :: items[i].name != items[j].name)
    && (forall i | 0 <= i < |items| :: Find(crs, items[i].name) == Some(items[i].cr))
    && (forall k | k in crs && crs[k].nameLabel == Some(cd.name) :: Item(k, crs[k]) in items)
  }

  // ----- One poll -----

  datatype Script = Script(upserts: nat -> Turn, beforeList: seq<Act>, list: Reply, items: seq<Item>,
                           sweeps: nat -> Turn)

  datatype Polled = Polled(world: World, done: bool, stale: seq<string>, managed: int,
                           conflicts: seq<DiscoveryConflict>, current: set<string>)

  predicate ConflictAtMost(a: DiscoveryConflict, b: DiscoveryConflict) {
    AtMost(a.id, b.id)
  }

  function Poll(n: Naming, cd: Discovery, w: World, ids: seq<string>, p: Script): Polled
    requires n.Valid()
  {
    var u := UpsertAll(n, cd, w, ids, p.upserts);
    if !u.ok then Polled(u.world, false, [], 0, [], {})
    else
      var v := Interfered(u.world, cd, p.beforeList);
      if !p.list.Done? then Polled(v, false, [], 0, [], {})
      else
        var s := SweepAll(cd, u.current, v, p.items, p.sweeps);
        if !s.ok then Polled(s.world, false, [], 0, [], {})
        else Polled(s.world, true, Sort(AtMost, s.stale), s.managed, Sort(ConflictAtMost, u.conflicts), u.current)
  }

  /** The listing the script answers with is the one of that moment. */
  ghost predicate Plausible(n: Naming, cd: Discovery, w: World, ids: seq<string>, p: Script)
    requires n.Valid()
  {
    var u := UpsertAll(n, cd, w, ids, p.upserts);
    u.ok && p.list.Done? ==> Lists(p.items, Interfered(u.world, cd, p.beforeList).crs, cd)
  }

  // ----- Which collectors survive -----

  /** A record Fleet lists; nil entries are None. */
  datatype Record = Record(id: string, inactive: bool)

  predicate Survives(cd: Discovery, blank: string -> bool, r: Option<Record>) {
    && r.Some? && !blank(r.value.id)
    && (cd.includeInactive || !r.value.inactive)
    && (cd.collectorIds == [] || r.value.id in cd.collectorIds)
  }

  function Surviving(cd: Discovery, blank: string -> bool, records: seq<Option<Record>>): seq<string> {
    if records == [] then []
    else
      var k := |records| - 1;
      Surviving(cd, blank, records[..k]) + if Survives(cd, blank, records[k]) then [records[k].value.id] else []
  }

  /** Fleet lists the id as active, or as inactive. */
  predicate Listed(records: seq<Option<Record>>, id: string, inactive: bool) {
    Some(Record(id, inactive)) in records
  }

  /** An id survives exactly when it is not blank, the selector has no ids or names it, and Fleet lists it as
      active, or as inactive and those are included. */
  lemma {:induction false} SurvivingExactly(cd: Discovery, blank: string -> bool, records: seq<Option<Record>>,
                                            id: string)
    ensures id in Surviving(cd, blank, records) <==>
              && !blank(id) && (cd.collectorIds == [] || id in cd.collectorIds)
              && (Listed(records, id, false) || (cd.includeInactive && Listed(records, id, true)))
  {
    if records != [] {
      var k := |records| - 1;
      SurvivingExactly(cd, blank, records[..k], id);
      assert forall r :: r in records <==> r in records[..k] || r == records[k];
    }
  }

  // ----- Ownership -----

  lemma SameSuffix(a: string, b: string, c: string)
    requires a + c == b + c
    ensures a == b
  {
    assert |a| == |b|;
    assert (a + c)[..|a|] == a && (b + c)[..|b|] == b;
  }

  /** A Collector belongs to one discovery at most. */
  lemma OwnerIsUnique(cr: Collector, a: Discovery, b: Discovery)
    requires Owned(cr, a) && Owned(cr, b)
    ensures a.namespace == b.namespace && a.name == b.name
  {
    if cr.namespaceLabel.None? {
      assert a.namespace + "/" + a.name == a.namespace + ("/" + a.name);
      assert b.namespace + "/" + b.name == b.namespace + ("/" + b.name);
      SameSuffix(a.namespace, b.namespace, "/" + a.name);
    }
  }

  /** No act seizes anything. */
  predicate Spares(acts: seq<Act>) {
    forall a | a in acts :: !a.Seize?
  }

  lemma {:induction false} OthersKeepMine(crs: Cluster, cd: Discovery, acts: seq<Act>)
    requires Spares(acts)
    ensures Mine(Others(crs, cd, acts), cd) == Mine(crs, cd)
  {
    if acts != [] {
      var k := |acts| - 1;
      OthersKeepMine(crs, cd, acts[..k]);
      assert acts[k] in acts;
      ActKeepsMine(Others(crs, cd, acts[..k]), cd, acts[k]);
    }
  }

  lemma ActKeepsMine(crs: Cluster, cd: Discovery, act: Act)
    requires !act.Seize?
    ensures Mine(ByOthers(crs, cd, act), cd) == Mine(crs, cd)
  {}

  lemma CallOnMine(w: World, cd: Discovery, name: string, after: Option<Collector>, reply: Reply)
    requires reply.Applied() && (after.Some? ==> Owned(after.value, cd))
    ensures Mine(Call(w, name, after, reply).crs, cd) == Update(Mine(w.crs, cd), name, after)
  {}
}
