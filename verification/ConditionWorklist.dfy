/** The worklist that resolves reasons passed through parameters, and what it computes. */
module ConditionWorklist {
  import opened ConditionScan

  // ----- Seeding the whole package -----

  ghost predicate FileSeeds(p: Package, path: string, fns: seq<Func>, triples: seq<Triple>, pending: seq<Frame>) {
    && (forall t :: t in triples <==> exists fn, s | fn in fns && s in fn.setters :: SetterEmits(p, path, fn, s, t))
    && (forall f | f in pending :: f.homeCrd == p.crdOf(path) && f.node.file == path)
    && (forall f | f in pending :: exists fn, s | fn in fns && s in fn.setters :: SetterPends(p, path, fn, s, f.node))
    && (forall fn, s, node | fn in fns && s in fn.setters && SetterPends(p, path, fn, s, node) ::
          Frame(p.crdOf(path), node) in pending)
  }

  lemma FileSeedsExtend(p: Package, path: string, fns: seq<Func>, ta: seq<Triple>, qa: seq<Frame>,
                        fn: Func, tb: seq<Triple>, qb: seq<Frame>)
    requires FileSeeds(p, path, fns, ta, qa) && FuncSeeds(p, path, fn, fn.setters, tb, qb)
    ensures FileSeeds(p, path, fns + [fn], ta + tb, qa + qb)
  {
    assert forall g :: g in fns + [fn] <==> g in fns || g == fn;
    forall t ensures t in ta + tb <==>
             exists g, s | g in fns + [fn] && s in g.setters :: SetterEmits(p, path, g, s, t) {
      assert t in ta + tb <==> t in ta || t in tb;
    }
    forall f | f in qa + qb
      ensures f.homeCrd == p.crdOf(path) && f.node.file == path
      ensures exists g, s | g in fns + [fn] && s in g.setters :: SetterPends(p, path, g, s, f.node)
    {
      assert f in qa || f in qb;
    }
  }

  method ScanFile(p: Package, path: string, fns: seq<Func>) returns (triples: seq<Triple>, pending: seq<Frame>)
    ensures FileSeeds(p, path, fns, triples, pending)
  {
    triples, pending := [], [];
    for i := 0 to |fns|
      invariant FileSeeds(p, path, fns[..i], triples, pending)
    {
      var t, q := ScanFunc(p, path, fns[i]);
      FileSeedsExtend(p, path, fns[..i], triples, pending, fns[i], t, q);
      assert fns[..i + 1] == fns[..i] + [fns[i]];
      triples, pending := triples + t, pending + q;
    }
    assert fns[..|fns|] == fns;
  }

  /** Seeds of the files in `done`. */
  ghost predicate PackageSeeds(p: Package, done: set<string>, triples: seq<Triple>, pending: seq<Frame>) {
    && (forall t :: t in triples <==>
          exists path, fn, s | path in done && path in p.files && fn in p.files[path] && s in fn.setters ::
            SetterEmits(p, path, fn, s, t))
    && (forall f | f in pending :: f.homeCrd == p.crdOf(f.node.file) && Pending(p, f.node))
    && (forall path, fn, s, node | path in done && path in p.files && fn in p.files[path] && s in fn.setters
                                   && SetterPends(p, path, fn, s, node) ::
          Frame(p.crdOf(path), node) in pending)
  }

  lemma PackageSeedsExtend(p: Package, done: set<string>, ta: seq<Triple>, qa: seq<Frame>,
                           path: string, tb: seq<Triple>, qb: seq<Frame>)
    requires PackageSeeds(p, done, ta, qa) && path in p.files && FileSeeds(p, path, p.files[path], tb, qb)
    ensures PackageSeeds(p, done + {path}, ta + tb, qa + qb)
  {
    forall t ensures t in ta + tb <==>
      exists file, fn, s | file in done + {path} && file in p.files && fn in p.files[file] && s in fn.setters ::
        SetterEmits(p, file, fn, s, t)
    {
      assert t in ta + tb <==> t in ta || t in tb;
    }
    forall f | f in qa + qb ensures f.homeCrd == p.crdOf(f.node.file) && Pending(p, f.node) {
      assert f in qa || f in qb;
    }
  }

  method ScanPackage(p: Package) returns (triples: seq<Triple>, pending: seq<Frame>)
    ensures PackageSeeds(p, p.files.Keys, triples, pending)
  {
    triples, pending := [], [];
    var todo := p.files.Keys;
    ghost var done: set<string> := {};
    while todo != {}
      invariant done + todo == p.files.Keys && done !! todo
      invariant PackageSeeds(p, done, triples, pending)
      decreases todo
    {
      var path :| path in todo;
      var t, q := ScanFile(p, path, p.files[path]);
      PackageSeedsExtend(p, done, triples, pending, path, t, q);
      triples, pending := triples + t, pending + q;
      todo, done := todo - {path}, done + {path};
    }
    assert done == p.files.Keys;
  }

  // ----- Expanding one frame -----

  /** The calls of one function; `callerCrd` is the frame's home CRD for a method, the file's otherwise. */
  method ExpandFunc(p: Package, node: Node, path: string, callerCrd: string, fn: Func)
    returns (triples: seq<Triple>, frames: seq<Frame>)
    requires callerCrd == p.crdOf(path)
    ensures forall t :: t in triples <==> FuncEmits(p, node, path, fn, t)
    ensures forall f | f in frames ::
              FuncForwards(p, node, path, fn, f.node) && f.homeCrd == callerCrd && f.node.file == path
    ensures forall n | FuncForwards(p, node, path, fn, n) :: Frame(callerCrd, n) in frames
  {
    var index := ParamIndex(fn.params);
    triples, frames := [], [];
    for i := 0 to |fn.calls|
      invariant forall t :: t in triples <==> CallsEmit(p, node, path, fn.calls[..i], t)
      invariant forall f | f in frames ::
                  CallsForward(p, node, path, fn, fn.calls[..i], f.node)
                     && f.homeCrd == callerCrd && f.node.file == path
      invariant forall n | CallsForward(p, node, path, fn, fn.calls[..i], n) :: Frame(callerCrd, n) in frames
    {
      var call := fn.calls[i];
      var ts, fs := ExpandCall(p, node, path, callerCrd, fn, index, call);
      assert fn.calls[..i + 1] == fn.calls[..i] + [call];
      CallsPrefix(p, node, path, fn, fn.calls[..i], call);
      triples, frames := triples + ts, frames + fs;
    }
    assert fn.calls[..|fn.calls|] == fn.calls;
  }

  lemma CallsPrefix(p: Package, node: Node, path: string, fn: Func, calls: seq<Call>, call: Call)
    ensures forall t :: CallsEmit(p, node, path, calls + [call], t) <==>
              CallsEmit(p, node, path, calls, t) || CallEmits(p, node, path, call, t)
    ensures forall n :: CallsForward(p, node, path, fn, calls + [call], n) <==>
              CallsForward(p, node, path, fn, calls, n) || CallForwards(p, node, path, fn, call, n)
  {
    assert forall c :: c in calls + [call] <==> c in calls || c == call;
  }

  /** One call site: a constant argument yields a triple, a forwarded parameter another frame. */
  method ExpandCall(p: Package, node: Node, path: string, callerCrd: string, fn: Func, index: map<string, nat>,
                    call: Call)
    returns (triples: seq<Triple>, frames: seq<Frame>)
    requires callerCrd == p.crdOf(path)
    requires forall n | n in index :: IsParam(fn.params, n, index[n])
    requires forall i | 0 <= i < |fn.params| && fn.params[i] != "" :: fn.params[i] in index
    ensures forall t :: t in triples <==> CallEmits(p, node, path, call, t)
    ensures forall f | f in frames ::
              CallForwards(p, node, path, fn, call, f.node) && f.homeCrd == callerCrd && f.node.file == path
    ensures forall n | CallForwards(p, node, path, fn, call, n) :: Frame(callerCrd, n) in frames
  {
    triples, frames := [], [];
    if call.callee == node.fn && node.index < |call.args| {
      var arg := call.args[node.index];
      var s := ConstantValue(p, arg);
      if s != "" {
        triples := [Triple(callerCrd, node.ctype, s)];
      } else if arg.Ident? && arg.name in index {
        frames := [Frame(callerCrd, Node(fn.name, index[arg.name], node.ctype, path, fn.isMethod))];
      }
    }
  }

  method ExpandFile(p: Package, node: Node, path: string, callerCrd: string, fns: seq<Func>)
    returns (triples: seq<Triple>, frames: seq<Frame>)
    requires callerCrd == p.crdOf(path)
    ensures forall t :: t in triples <==> FileEmits(p, node, path, fns, t)
    ensures forall f | f in frames ::
              FileForwards(p, node, path, fns, f.node) && f.homeCrd == callerCrd && f.node.file == path
    ensures forall n | FileForwards(p, node, path, fns, n) :: Frame(callerCrd, n) in frames
  {
    triples, frames := [], [];
    for i := 0 to |fns|
      invariant forall t :: t in triples <==> FileEmits(p, node, path, fns[..i], t)
      invariant forall f | f in frames ::
                  FileForwards(p, node, path, fns[..i], f.node) && f.homeCrd == callerCrd && f.node.file == path
      invariant forall n | FileForwards(p, node, path, fns[..i], n) :: Frame(callerCrd, n) in frames
    {
      var t, q := ExpandFunc(p, node, path, callerCrd, fns[i]);
      assert fns[..i + 1] == fns[..i] + [fns[i]];
      FilePrefix(p, node, path, fns[..i], fns[i]);
      triples, frames := triples + t, frames + q;
    }
    assert fns[..|fns|] == fns;
  }

  lemma FilePrefix(p: Package, node: Node, path: string, fns: seq<Func>, fn: Func)
    ensures forall t :: FileEmits(p, node, path, fns + [fn], t) <==>
              FileEmits(p, node, path, fns, t) || FuncEmits(p, node, path, fn, t)
    ensures forall n :: FileForwards(p, node, path, fns + [fn], n) <==>
              FileForwards(p, node, path, fns, n) || FuncForwards(p, node, path, fn, n)
  {
    assert forall g :: g in fns + [fn] <==> g in fns || g == fn;
  }

  /** Everything one frame contributes; its home CRD is the CRD of its file. */
  method Expand(p: Package, fr: Frame) returns (triples: seq<Triple>, frames: seq<Frame>)
    requires fr.homeCrd == p.crdOf(fr.node.file)
    ensures forall t :: t in triples <==> Emits(p, fr.node, t)
    ensures forall f | f in frames :: Forwards(p, fr.node, f.node) && f.homeCrd == p.crdOf(f.node.file)
    ensures forall n | Forwards(p, fr.node, n) :: Frame(p.crdOf(n.file), n) in frames
  {
    triples, frames := [], [];
    var todo := if !fr.node.isMethod then p.files.Keys
                else if fr.node.file in p.files then {fr.node.file} else {};
    ghost var scope := todo;
    ghost var done: set<string> := {};
    assert forall path :: path in scope <==> InScope(p, fr.node, path);
    while todo != {}
      invariant done + todo == scope && done !! todo
      invariant forall t :: t in triples <==>
                  exists path | path in done && path in p.files :: FileEmits(p, fr.node, path, p.files[path], t)
      invariant forall f | f in frames :: f.homeCrd == p.crdOf(f.node.file)
      invariant forall f | f in frames ::
                  exists path | path in done && path in p.files :: FileForwards(p, fr.node, path, p.files[path], f.node)
      invariant forall path, n | path in done && path in p.files && FileForwards(p, fr.node, path, p.files[path], n) ::
                  Frame(p.crdOf(n.file), n) in frames
      decreases todo
    {
      var path :| path in todo;
      var callerCrd := if fr.node.isMethod then fr.homeCrd else p.crdOf(path);
      var t, q := ExpandFile(p, fr.node, path, callerCrd, p.files[path]);
      triples, frames := triples + t, frames + q;
      todo, done := todo - {path}, done + {path};
    }
    assert done == scope;
  }

  // ----- Termination -----

  /** Every parameter of every function, for each condition type. */
  function AllNodes(p: Package, types: set<string>): set<Node> {
    set path, i, k, ty | path in p.files && 0 <= i < |p.files[path]|
                      && 0 <= k < |p.files[path][i].params| && ty in types ::
      Node(p.files[path][i].name, k, ty, path, p.files[path][i].isMethod)
  }

  lemma ForwardsStayInside(p: Package, types: set<string>, node: Node, next: Node)
    requires Forwards(p, node, next) && node.ctype in types
    ensures next in AllNodes(p, types) && next.ctype in types
  {
    var path :| InScope(p, node, path) && FileForwards(p, node, path, p.files[path], next);
    var fn :| fn in p.files[path] && FuncForwards(p, node, path, fn, next);
    var i :| 0 <= i < |p.files[path]| && p.files[path][i] == fn;
  }

  lemma PendingInside(p: Package, types: set<string>, node: Node)
    requires Pending(p, node) && node.ctype in types
    ensures node in AllNodes(p, types)
  {
    var path, fn, s :| path in p.files && fn in p.files[path] && s in fn.setters && SetterPends(p, path, fn, s, node);
    var i :| 0 <= i < |p.files[path]| && p.files[path][i] == fn;
  }

  // ----- The loop invariant -----

  ghost predicate Queued(worklist: seq<Frame>, node: Node) {
    exists f | f in worklist :: f.node == node
  }

  /** Only reachable nodes are queued or visited, and every queued frame knows the CRD of its file, which
      is why the visited key can leave the CRD out. */
  ghost predicate Sound(p: Package, types: set<string>, worklist: seq<Frame>, visited: set<Node>,
                        triples: seq<Triple>) {
    && (forall f | f in worklist :: f.homeCrd == p.crdOf(f.node.file) && Reachable(p, f.node))
    && (forall f | f in worklist :: f.node.ctype in types && f.node in AllNodes(p, types))
    && visited <= AllNodes(p, types)
    && (forall t | t in triples :: CanSet(p, t))
  }

  /** Nothing reachable is lost: seeds are queued or visited, and visited nodes are done. */
  ghost predicate Complete(p: Package, worklist: seq<Frame>, visited: set<Node>, triples: seq<Triple>) {
    && (forall t | Direct(p, t) :: t in triples)
    && (forall n | Pending(p, n) :: n in visited || Queued(worklist, n))
    && (forall n, t | n in visited && Emits(p, n, t) :: t in triples)
    && (forall n, next | n in visited && Forwards(p, n, next) :: next in visited || Queued(worklist, next))
  }

  lemma ForwardedIsReachable(p: Package, node: Node, next: Node)
    requires Reachable(p, node) && Forwards(p, node, next)
    ensures Reachable(p, next)
  {
    var n: nat :| ReachedIn(p, node, n);
    assert ReachedIn(p, next, n + 1);
  }

  lemma SeedsSoundAndComplete(p: Package, types: set<string>, triples: seq<Triple>, pending: seq<Frame>)
    requires PackageSeeds(p, p.files.Keys, triples, pending)
    requires forall f | f in pending :: f.node.ctype in types
    ensures Sound(p, types, pending, {}, triples) && Complete(p, pending, {}, triples)
  {
    forall f | f in pending ensures Reachable(p, f.node) && f.node in AllNodes(p, types) {
      PendingInside(p, types, f.node);
      assert ReachedIn(p, f.node, 0);
    }
    forall n | Pending(p, n) ensures Queued(pending, n) {
      var path, fn, s :| path in p.files && fn in p.files[path] && s in fn.setters && SetterPends(p, path, fn, s, n);
      assert Frame(p.crdOf(path), n) in pending;
    }
    forall t | t in triples ensures Direct(p, t) {}
  }

  lemma RevisitKeeps(p: Package, types: set<string>, worklist: seq<Frame>, visited: set<Node>, triples: seq<Triple>)
    requires worklist != [] && worklist[0].node in visited
    requires Sound(p, types, worklist, visited, triples) && Complete(p, worklist, visited, triples)
    ensures Sound(p, types, worklist[1..], visited, triples) && Complete(p, worklist[1..], visited, triples)
  {
    DropFirst(worklist);
    assert forall f :: f in worklist[1..] ==> f in worklist;
  }

  lemma DropFirst(worklist: seq<Frame>)
    requires worklist != []
    ensures forall n :: Queued(worklist, n) <==> n == worklist[0].node || Queued(worklist[1..], n)
  {
    assert worklist == [worklist[0]] + worklist[1..];
    assert forall f :: f in worklist <==> f == worklist[0] || f in worklist[1..];
  }

  lemma ExpandKeepsSound(p: Package, types: set<string>, worklist: seq<Frame>, visited: set<Node>, triples: seq<Triple>,
                         ts: seq<Triple>, frames: seq<Frame>)
    requires worklist != [] && Sound(p, types, worklist, visited, triples)
    requires forall t | t in ts :: Emits(p, worklist[0].node, t)
    requires forall f | f in frames :: Forwards(p, worklist[0].node, f.node) && f.homeCrd == p.crdOf(f.node.file)
    ensures Sound(p, types, worklist[1..] + frames, visited + {worklist[0].node}, triples + ts)
  {
    var fr := worklist[0];
    assert fr in worklist;
    forall f | f in worklist[1..] + frames
      ensures f.homeCrd == p.crdOf(f.node.file) && Reachable(p, f.node)
      ensures f.node.ctype in types && f.node in AllNodes(p, types)
    {
      if f in frames {
        ForwardedIsReachable(p, fr.node, f.node);
        ForwardsStayInside(p, types, fr.node, f.node);
      } else {
        assert f in worklist[1..] && f in worklist;
      }
    }
    forall t | t in triples + ts ensures CanSet(p, t) {
      assert t in triples || t in ts;
    }
  }

  lemma ExpandKeepsComplete(p: Package, worklist: seq<Frame>, visited: set<Node>, triples: seq<Triple>,
                            ts: seq<Triple>, frames: seq<Frame>)
    requires worklist != [] && Complete(p, worklist, visited, triples)
    requires forall t | Emits(p, worklist[0].node, t) :: t in ts
    requires forall n | Forwards(p, worklist[0].node, n) :: Frame(p.crdOf(n.file), n) in frames
    ensures Complete(p, worklist[1..] + frames, visited + {worklist[0].node}, triples + ts)
  {
    var node := worklist[0].node;
    DropFirst(worklist);
    assert forall n :: Queued(worklist[1..], n) ==> Queued(worklist[1..] + frames, n);
    forall n | Forwards(p, node, n) ensures Queued(worklist[1..] + frames, n) {
      assert Frame(p.crdOf(n.file), n) in worklist[1..] + frames;
    }
  }

  /** With nothing queued, every reachable node was visited. */
  lemma {:induction false} ReachedIsVisited(p: Package, visited: set<Node>, triples: seq<Triple>, node: Node, n: nat)
    requires Complete(p, [], visited, triples) && ReachedIn(p, node, n)
    ensures node in visited
    decreases n
  {
    if n > 0 {
      var prev :| ReachedIn(p, prev, n - 1) && Forwards(p, prev, node);
      ReachedIsVisited(p, visited, triples, prev, n - 1);
    }
  }

  lemma DoneIsExact(p: Package, types: set<string>, visited: set<Node>, triples: seq<Triple>)
    requires Sound(p, types, [], visited, triples) && Complete(p, [], visited, triples)
    ensures forall t :: t in triples <==> CanSet(p, t)
  {
    forall t | CanSet(p, t) ensures t in triples {
      if !Direct(p, t) {
        var node :| Reachable(p, node) && Emits(p, node, t);
        var n: nat :| ReachedIn(p, node, n);
        ReachedIsVisited(p, visited, triples, node, n);
      }
    }
  }

  lemma VisitShrinks(all: set<Node>, visited: set<Node>, node: Node)
    requires node in all && node !in visited
    ensures |all - (visited + {node})| < |all - visited|
  {
    assert all - (visited + {node}) == (all - visited) - {node};
  }

  /** The scan terminates and returns exactly the triples some chain of parameter passing can set. */
  method ScanConditionCalls(p: Package) returns (triples: seq<Triple>)
    ensures forall t :: t in triples <==> CanSet(p, t)
  {
    var worklist: seq<Frame>;
    triples, worklist := ScanPackage(p);
    ghost var types := set f | f in worklist :: f.node.ctype;
    SeedsSoundAndComplete(p, types, triples, worklist);
    var visited: set<Node> := {};
    while |worklist| > 0
      invariant Sound(p, types, worklist, visited, triples)
      invariant Complete(p, worklist, visited, triples)
      decreases |AllNodes(p, types) - visited|, |worklist|
    {
      var fr := worklist[0];
      assert fr in worklist;
      if fr.node in visited {
        RevisitKeeps(p, types, worklist, visited, triples);
        worklist := worklist[1..];
      } else {
        var ts, frames := Expand(p, fr);
        ExpandKeepsSound(p, types, worklist, visited, triples, ts, frames);
        ExpandKeepsComplete(p, worklist, visited, triples, ts, frames);
        VisitShrinks(AllNodes(p, types), visited, fr.node);
        worklist, visited, triples := worklist[1..] + frames, visited + {fr.node}, triples + ts;
      }
    }
    assert worklist == [];
    DoneIsExact(p, types, visited, triples);
  }
}
