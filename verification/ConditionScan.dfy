/** The documentation lint that collects every (CRD, condition type, reason) the controllers can set,
    following reasons passed through parameters (hack/docgen/conditions.go). */
module ConditionScan {

  datatype Arg = Literal(text: string) | Ident(name: string) | Other

  /** A call, matched by the trailing identifier of what it calls. */
  datatype Call = Call(callee: string, args: seq<Arg>)

  /** A meta.SetStatusCondition call: its Type and Reason expressions. */
  datatype Setter = Setter(ctype: Arg, reason: Arg)

  datatype Assignment = Assignment(variable: string, value: Arg)

  /** A function with a body; an anonymous parameter has the empty name. */
  datatype Func = Func(name: string, isMethod: bool, params: seq<string>,
                       calls: seq<Call>, setters: seq<Setter>, assignments: seq<Assignment>)

  /** The controller files of the package, its string constants, and the CRD each file reconciles. */
  datatype Package = Package(files: map<string, seq<Func>>, consts: map<string, string>, crdOf: string -> string)

  datatype Triple = Triple(crd: string, ctype: string, reason: string)

  /** A parameter a reason flows through, for one condition type. */
  datatype Node = Node(fn: string, index: nat, ctype: string, file: string, isMethod: bool)

  datatype Frame = Frame(homeCrd: string, node: Node)

  /** The empty string stands for "not a constant". */
  function ConstantValue(p: Package, a: Arg): string {
    match a
    case Literal(t) => t
    case Ident(n) => if n in p.consts then p.consts[n] else ""
    case Other => ""
  }

  // ----- Parameters -----

  /** The position of a named parameter; of several with one name, the last. */
  predicate IsParam(params: seq<string>, name: string, i: int) {
    && 0 <= i < |params| && name != "" && params[i] == name
    && forall j | i < j < |params| :: params[j] != name
  }

  method ParamIndex(params: seq<string>) returns (index: map<string, nat>)
    ensures forall n | n in index :: IsParam(params, n, index[n])
    ensures forall i | 0 <= i < |params| && params[i] != "" :: params[i] in index
  {
    index := map[];
    for i := 0 to |params|
      invariant forall n | n in index :: index[n] < i && IsParam(params[..i], n, index[n])
      invariant forall j | 0 <= j < i && params[j] != "" :: params[j] in index
    {
      if params[i] != "" {
        index := index[params[i] := i];
      }
    }
    assert params[..|params|] == params;
  }

  // ----- What one call site contributes -----

  /** `call`, made in function `fn` of file `path`, passes something for the parameter `node`. */
  predicate Passes(node: Node, call: Call) {
    call.callee == node.fn && node.index < |call.args|
  }

  /** The frame's scope: a method is only called from its own file, a plain function from any. */
  predicate InScope(p: Package, node: Node, path: string) {
    path in p.files && (node.isMethod ==> path == node.file)
  }

  predicate CallEmits(p: Package, node: Node, path: string, call: Call, t: Triple) {
    && Passes(node, call) && ConstantValue(p, call.args[node.index]) != ""
    && t == Triple(p.crdOf(path), node.ctype, ConstantValue(p, call.args[node.index]))
  }

  /** The argument is itself the parameter `next.index` of the calling function. */
  predicate CallForwards(p: Package, node: Node, path: string, fn: Func, call: Call, next: Node) {
    && Passes(node, call) && ConstantValue(p, call.args[node.index]) == ""
    && call.args[node.index].Ident?
    && IsParam(fn.params, call.args[node.index].name, next.index)
    && next == Node(fn.name, next.index, node.ctype, path, fn.isMethod)
  }

  ghost predicate CallsEmit(p: Package, node: Node, path: string, calls: seq<Call>, t: Triple) {
    exists call | call in calls :: CallEmits(p, node, path, call, t)
  }

  ghost predicate CallsForward(p: Package, node: Node, path: string, fn: Func, calls: seq<Call>, next: Node) {
    exists call | call in calls :: CallForwards(p, node, path, fn, call, next)
  }

  ghost predicate FuncEmits(p: Package, node: Node, path: string, fn: Func, t: Triple) {
    CallsEmit(p, node, path, fn.calls, t)
  }

  ghost predicate FuncForwards(p: Package, node: Node, path: string, fn: Func, next: Node) {
    CallsForward(p, node, path, fn, fn.calls, next)
  }

  ghost predicate FileEmits(p: Package, node: Node, path: string, fns: seq<Func>, t: Triple) {
    exists fn | fn in fns :: FuncEmits(p, node, path, fn, t)
  }

  ghost predicate FileForwards(p: Package, node: Node, path: string, fns: seq<Func>, next: Node) {
    exists fn | fn in fns :: FuncForwards(p, node, path, fn, next)
  }

  ghost predicate Emits(p: Package, node: Node, t: Triple) {
    exists path :: InScope(p, node, path) && FileEmits(p, node, path, p.files[path], t)
  }

  ghost predicate Forwards(p: Package, node: Node, next: Node) {
    exists path :: InScope(p, node, path) && FileForwards(p, node, path, p.files[path], next)
  }

  // ----- Seeds -----

  /** Every constant assigned to a local variable, provided nothing else is assigned to it. */
  ghost predicate LocalConstant(p: Package, fn: Func, name: string, value: string) {
    && (exists a | a in fn.assignments :: a.variable == name && value == ConstantValue(p, a.value))
    && (forall a | a in fn.assignments && a.variable == name :: ConstantValue(p, a.value) != "")
  }

  ghost predicate SetterEmits(p: Package, path: string, fn: Func, s: Setter, t: Triple) {
    && ConstantValue(p, s.ctype) != "" && t.ctype == ConstantValue(p, s.ctype) && t.crd == p.crdOf(path)
    && if ConstantValue(p, s.reason) != "" then t.reason == ConstantValue(p, s.reason)
       else s.reason.Ident? && LocalConstant(p, fn, s.reason.name, t.reason)
  }

  ghost predicate SetterPends(p: Package, path: string, fn: Func, s: Setter, node: Node) {
    && ConstantValue(p, s.ctype) != "" && ConstantValue(p, s.reason) == "" && s.reason.Ident?
    && (forall v :: !LocalConstant(p, fn, s.reason.name, v))
    && IsParam(fn.params, s.reason.name, node.index)
    && node == Node(fn.name, node.index, ConstantValue(p, s.ctype), path, fn.isMethod)
  }

  /** Set with a constant reason at the call itself. */
  ghost predicate Direct(p: Package, t: Triple) {
    exists path, fn, s | path in p.files && fn in p.files[path] && s in fn.setters ::
      SetterEmits(p, path, fn, s, t)
  }

  /** Set with a parameter of the enclosing function. */
  ghost predicate Pending(p: Package, node: Node) {
    exists path, fn, s | path in p.files && fn in p.files[path] && s in fn.setters ::
      SetterPends(p, path, fn, s, node)
  }

  // ----- What the scan is for -----

  /** `node` is reached from a pending reason by forwarding it `n` times. */
  ghost predicate ReachedIn(p: Package, node: Node, n: nat)
    decreases n
  {
    if n == 0 then Pending(p, node)
    else exists prev :: ReachedIn(p, prev, n - 1) && Forwards(p, prev, node)
  }

  ghost predicate Reachable(p: Package, node: Node) {
    exists n: nat :: ReachedIn(p, node, n)
  }

  /** Some call chain of parameter passing can set this condition with this reason. */
  ghost predicate CanSet(p: Package, t: Triple) {
    Direct(p, t) || exists node :: Reachable(p, node) && Emits(p, node, t)
  }

  // ----- Seeding -----

  method LocalAssignments(p: Package, fn: Func, name: string) returns (values: seq<string>)
    ensures forall v :: v in values <==> LocalConstant(p, fn, name, v)
  {
    values := [];
    var allConst := true;
    for i := 0 to |fn.assignments|
      invariant allConst <==>
                        forall a | a in fn.assignments[..i] && a.variable == name :: ConstantValue(p, a.value) != ""
      invariant allConst ==> forall v :: v in values <==>
                  exists a | a in fn.assignments[..i] :: a.variable == name && v == ConstantValue(p, a.value)
    {
      var a := fn.assignments[i];
      assert fn.assignments[..i + 1] == fn.assignments[..i] + [a];
      if a.variable == name {
        if ConstantValue(p, a.value) != "" {
          values := values + [ConstantValue(p, a.value)];
        } else {
          allConst := false;
        }
      }
    }
    assert fn.assignments[..|fn.assignments|] == fn.assignments;
    if !allConst {
      values := [];
    }
  }

  ghost predicate FuncSeeds(p: Package, path: string, fn: Func, setters: seq<Setter>, triples: seq<Triple>,
                            pending: seq<Frame>) {
    && (forall t :: t in triples <==> exists s | s in setters :: SetterEmits(p, path, fn, s, t))
    && (forall f | f in pending :: f.homeCrd == p.crdOf(path))
    && (forall f | f in pending :: exists s | s in setters :: SetterPends(p, path, fn, s, f.node))
    && (forall s, node | s in setters && SetterPends(p, path, fn, s, node) :: Frame(p.crdOf(path), node) in pending)
  }

  method ScanSetter(p: Package, path: string, fn: Func, s: Setter, index: map<string, nat>)
    returns (triples: seq<Triple>, pending: seq<Frame>)
    requires forall n | n in index :: IsParam(fn.params, n, index[n])
    requires forall i | 0 <= i < |fn.params| && fn.params[i] != "" :: fn.params[i] in index
    ensures FuncSeeds(p, path, fn, [s], triples, pending)
  {
    var ctype, reason := ConstantValue(p, s.ctype), ConstantValue(p, s.reason);
    triples, pending := [], [];
    assert forall r :: r in [s] <==> r == s;
    if ctype == "" {
      return;
    }
    if reason != "" {
      triples := [Triple(p.crdOf(path), ctype, reason)];
      assert SetterEmits(p, path, fn, s, triples[0]);
      return;
    }
    if !s.reason.Ident? {
      return;
    }
    var values := LocalAssignments(p, fn, s.reason.name);
    triples := seq(|values|, i requires 0 <= i < |values| => Triple(p.crdOf(path), ctype, values[i]));
    forall t ensures t in triples <==> SetterEmits(p, path, fn, s, t) {
      if SetterEmits(p, path, fn, s, t) {
        var i :| 0 <= i < |values| && values[i] == t.reason;
        assert triples[i] == t;
      }
    }
    if values == [] && s.reason.name in index {
      pending := [Frame(p.crdOf(path), Node(fn.name, index[s.reason.name], ctype, path, fn.isMethod))];
      assert SetterPends(p, path, fn, s, pending[0].node);
    }
    if values != [] {
      assert LocalConstant(p, fn, s.reason.name, values[0]);
    }
  }

  method ScanFunc(p: Package, path: string, fn: Func) returns (triples: seq<Triple>, pending: seq<Frame>)
    ensures FuncSeeds(p, path, fn, fn.setters, triples, pending)
  {
    var index := ParamIndex(fn.params);
    triples, pending := [], [];
    for i := 0 to |fn.setters|
      invariant FuncSeeds(p, path, fn, fn.setters[..i], triples, pending)
    {
      var t, q := ScanSetter(p, path, fn, fn.setters[i], index);
      SeedsStep(p, path, fn, i, triples, pending, t, q);
      triples, pending := triples + t, pending + q;
    }
    assert fn.setters[..|fn.setters|] == fn.setters;
  }

  lemma SeedsStep(p: Package, path: string, fn: Func, i: nat, ta: seq<Triple>, qa: seq<Frame>, tb: seq<Triple>,
                  qb: seq<Frame>)
    requires i < |fn.setters| && FuncSeeds(p, path, fn, fn.setters[..i], ta, qa)
    requires FuncSeeds(p, path, fn, [fn.setters[i]], tb, qb)
    ensures FuncSeeds(p, path, fn, fn.setters[..i + 1], ta + tb, qa + qb)
  {
    assert fn.setters[..i] + [fn.setters[i]] == fn.setters[..i + 1];
    SeedsAppend(p, path, fn, fn.setters[..i], ta, qa, [fn.setters[i]], tb, qb);
  }

  lemma SeedsAppend(p: Package, path: string, fn: Func, a: seq<Setter>, ta: seq<Triple>, qa: seq<Frame>,
                    b: seq<Setter>, tb: seq<Triple>, qb: seq<Frame>)
    requires FuncSeeds(p, path, fn, a, ta, qa) && FuncSeeds(p, path, fn, b, tb, qb)
    ensures FuncSeeds(p, path, fn, a + b, ta + tb, qa + qb)
  {
    assert forall s :: s in a + b <==> s in a || s in b;
    assert forall t :: t in ta + tb <==> t in ta || t in tb;
    assert forall f :: f in qa + qb <==> f in qa || f in qb;
  }
}
