/** Fleet Management as its clients see it: pipelines keyed by name, with ids the server assigns. */
module FleetStore {
  import opened Pipelines

  /** Who created an entry: one CR's upsert, or anybody else. */
  datatype Creator = ByPipeline(key: Key) | BySomeoneElse

  datatype Entry = Entry(id: nat, body: Body, creator: Creator)

  datatype Fleet = Fleet(pipelines: map<string, Entry>, nextId: nat)

  /** Ids are non-empty, already issued, and never shared. */
  ghost predicate Consistent(f: Fleet) {
    && f.nextId > 0
    && (forall n | n in f.pipelines :: 0 < f.pipelines[n].id < f.nextId)
    && (forall m, n | m in f.pipelines && n in f.pipelines :: f.pipelines[m].id == f.pipelines[n].id ==> m == n)
  }

  /** Upsert is keyed by name: it keeps the id of an existing entry and issues a fresh one otherwise. */
  function Upsert(f: Fleet, creator: Creator, name: string, body: Body): Fleet {
    if name in f.pipelines
    then f.(pipelines := f.pipelines[name := f.pipelines[name].(body := body)])
    else Fleet(f.pipelines[name := Entry(f.nextId, body, creator)], f.nextId + 1)
  }

  function Delete(f: Fleet, id: nat): Fleet {
    f.(pipelines := map n | n in f.pipelines && f.pipelines[n].id != id :: f.pipelines[n])
  }

  /** What other Fleet clients may do between two calls of one reconcile. */
  datatype ForeignAct = Put(name: string, body: Body) | Remove(name: string)

  function Foreign(f: Fleet, act: ForeignAct): Fleet {
    match act
    case Put(name, body) => Upsert(f, BySomeoneElse, name, body)
    case Remove(name) => f.(pipelines := f.pipelines - {name})
  }

  function ForeignAll(f: Fleet, acts: seq<ForeignAct>): Fleet {
    if acts == [] then f else Foreign(ForeignAll(f, acts[..|acts| - 1]), acts[|acts| - 1])
  }

  lemma {:induction false} ForeignConsistent(f: Fleet, acts: seq<ForeignAct>)
    requires Consistent(f)
    ensures Consistent(ForeignAll(f, acts)) && f.nextId <= ForeignAll(f, acts).nextId
  {
    if acts != [] {
      ForeignConsistent(f, acts[..|acts| - 1]);
    }
  }

  /** An id, once issued, is only ever the id of the name it was issued for. */
  ghost predicate IdOnlyNames(f: Fleet, id: nat, name: string) {
    forall n | n in f.pipelines && f.pipelines[n].id == id :: n == name
  }

  lemma {:induction false} ForeignKeepsIdNames(f: Fleet, acts: seq<ForeignAct>, id: nat, name: string)
    requires Consistent(f) && id < f.nextId && IdOnlyNames(f, id, name)
    ensures IdOnlyNames(ForeignAll(f, acts), id, name)
  {
    if acts != [] {
      ForeignConsistent(f, acts[..|acts| - 1]);
      ForeignKeepsIdNames(f, acts[..|acts| - 1], id, name);
    }
  }

  /** A live pipeline that one CR's upsert created. */
  predicate Created(f: Fleet, key: Key, n: string) {
    n in f.pipelines && f.pipelines[n].creator == ByPipeline(key)
  }

  /** Everything a CR created that is live in `g` was already live in `f`, under the same id. */
  ghost predicate CreatedShrinks(f: Fleet, g: Fleet, key: Key) {
    forall n | Created(g, key, n) :: Created(f, key, n) && g.pipelines[n].id == f.pipelines[n].id
  }

  lemma {:induction false} ForeignCreatesNothing(f: Fleet, acts: seq<ForeignAct>, key: Key)
    ensures CreatedShrinks(f, ForeignAll(f, acts), key)
  {
    if acts != [] {
      ForeignCreatesNothing(f, acts[..|acts| - 1], key);
    }
  }
}
