/** A package in the style of the controllers, and exactly what its reasons resolve to: a method takes its reason
    from a caller in its own file, and hands it to a plain helper of another file. */
module ConditionExample {
  import opened ConditionScan

  function Helper(): Func {
    Func("setReadyCondition", false, ["conditions", "reason"], [],
         [Setter(Ident("conditionTypeReady"), Ident("reason"))], [])
  }

  function Middle(): Func {
    Func("updateStatusError", true, ["reason"], [Call("setReadyCondition", [Other, Ident("reason")])], [], [])
  }

  /** Called from its own controller with a constant. */
  function Caller(): Func {
    Func("Reconcile", true, [], [Call("updateStatusError", [Ident("reasonFailed")])], [], [])
  }

  /** Another controller has a method of the same name, and sets a second condition from a local variable. */
  function Stranger(): Func {
    Func("Poll", true, [], [Call("updateStatusError", [Literal("PollFailed")])],
         [Setter(Literal("Stalled"), Ident("why")), Setter(Literal("Synced"), Ident("reasonFailed"))],
         [Assignment("why", Literal("Idle")), Assignment("why", Literal("Blocked"))])
  }

  function Example(crdOf: string -> string): Package {
    Package(map["external.go" := [Helper()], "pipeline.go" := [Middle(), Caller()], "discovery.go" := [Stranger()]],
            map["conditionTypeReady" := "Ready", "reasonFailed" := "SyncFailed"], crdOf)
  }

  function HelperReason(): Node {
    Node("setReadyCondition", 1, "Ready", "external.go", false)
  }

  function MiddleReason(): Node {
    Node("updateStatusError", 0, "Ready", "pipeline.go", true)
  }

  lemma Seeds(crdOf: string -> string)
    ensures forall node :: Pending(Example(crdOf), node) <==> node == HelperReason()
    ensures forall t :: Direct(Example(crdOf), t) <==>
              t in {Triple(crdOf("discovery.go"), "Stalled", "Idle"),
                    Triple(crdOf("discovery.go"), "Stalled", "Blocked"),
                    Triple(crdOf("discovery.go"), "Synced", "SyncFailed")}
  {
    var p := Example(crdOf);
    assert Helper() in p.files["external.go"] && Stranger() in p.files["discovery.go"];
    var h, s, d := Helper().setters[0], Stranger().setters[0], Stranger().setters[1];
    assert h in Helper().setters && s in Stranger().setters && d in Stranger().setters;
    assert IsParam(Helper().params, "reason", 1);
    assert forall v :: !LocalConstant(p, Helper(), "reason", v);
    assert SetterPends(p, "external.go", Helper(), h, HelperReason());
    var a, b := Stranger().assignments[0], Stranger().assignments[1];
    assert a in Stranger().assignments && b in Stranger().assignments;
    assert LocalConstant(p, Stranger(), "why", "Idle") && LocalConstant(p, Stranger(), "why", "Blocked");
    assert SetterEmits(p, "discovery.go", Stranger(), s, Triple(crdOf("discovery.go"), "Stalled", "Idle"));
    assert SetterEmits(p, "discovery.go", Stranger(), s, Triple(crdOf("discovery.go"), "Stalled", "Blocked"));
    assert SetterEmits(p, "discovery.go", Stranger(), d, Triple(crdOf("discovery.go"), "Synced", "SyncFailed"));
  }

  lemma Steps(crdOf: string -> string)
    ensures forall next :: Forwards(Example(crdOf), HelperReason(), next) <==> next == MiddleReason()
    ensures forall next :: !Forwards(Example(crdOf), MiddleReason(), next)
    ensures forall t :: !Emits(Example(crdOf), HelperReason(), t)
    ensures forall t :: Emits(Example(crdOf), MiddleReason(), t) <==>
              t == Triple(crdOf("pipeline.go"), "Ready", "SyncFailed")
  {
    var p := Example(crdOf);
    assert Middle() in p.files["pipeline.go"] && Caller() in p.files["pipeline.go"];
    var c, d := Middle().calls[0], Caller().calls[0];
    assert c in Middle().calls && d in Caller().calls;
    assert IsParam(Middle().params, "reason", 0);
    assert CallForwards(p, HelperReason(), "pipeline.go", Middle(), c, MiddleReason());
    assert FuncForwards(p, HelperReason(), "pipeline.go", Middle(), MiddleReason());
    assert InScope(p, HelperReason(), "pipeline.go");
    assert FileForwards(p, HelperReason(), "pipeline.go", p.files["pipeline.go"], MiddleReason());
    var t := Triple(crdOf("pipeline.go"), "Ready", "SyncFailed");
    assert CallEmits(p, MiddleReason(), "pipeline.go", d, t);
    assert FuncEmits(p, MiddleReason(), "pipeline.go", Caller(), t);
    assert InScope(p, MiddleReason(), "pipeline.go");
    assert FileEmits(p, MiddleReason(), "pipeline.go", p.files["pipeline.go"], t);
  }

  /** One seed forwarded once: two nodes are reached. */
  ghost predicate TwoSteps(p: Package, a: Node, b: Node) {
    && (forall node :: Pending(p, node) <==> node == a)
    && (forall next :: Forwards(p, a, next) <==> next == b)
    && (forall next :: !Forwards(p, b, next))
  }

  lemma {:induction false} ReachedNodes(p: Package, a: Node, b: Node, node: Node, n: nat)
    requires TwoSteps(p, a, b) && ReachedIn(p, node, n)
    ensures node in {a, b}
    decreases n
  {
    if n > 0 {
      var prev :| ReachedIn(p, prev, n - 1) && Forwards(p, prev, node);
      ReachedNodes(p, a, b, prev, n - 1);
    }
  }

  lemma TwoReachable(p: Package, a: Node, b: Node)
    requires TwoSteps(p, a, b)
    ensures forall node :: Reachable(p, node) <==> node in {a, b}
  {
    assert ReachedIn(p, a, 0);
    assert Forwards(p, a, b) && ReachedIn(p, b, 1);
    forall node, n: nat | ReachedIn(p, node, n) ensures node in {a, b} {
      ReachedNodes(p, a, b, node, n);
    }
  }

  lemma ExampleSteps(crdOf: string -> string)
    ensures TwoSteps(Example(crdOf), HelperReason(), MiddleReason())
  {
    Seeds(crdOf);
    Steps(crdOf);
  }

  lemma CanSetIs(p: Package, a: Node, b: Node, t: Triple)
    requires TwoSteps(p, a, b)
    ensures CanSet(p, t) <==> Direct(p, t) || Emits(p, a, t) || Emits(p, b, t)
  {
    TwoReachable(p, a, b);
  }

  /** The constant is attributed to the controller whose method was called, the other controller's call of the
      same name does not count, and both values of the local variable do. */
  lemma ExampleResolves(crdOf: string -> string, t: Triple)
    ensures CanSet(Example(crdOf), t) <==>
              t in {Triple(crdOf("pipeline.go"), "Ready", "SyncFailed"),
                    Triple(crdOf("discovery.go"), "Stalled", "Idle"),
                    Triple(crdOf("discovery.go"), "Stalled", "Blocked"),
                    Triple(crdOf("discovery.go"), "Synced", "SyncFailed")}
  {
    ExampleSteps(crdOf);
    CanSetIs(Example(crdOf), HelperReason(), MiddleReason(), t);
    Seeds(crdOf);
    Steps(crdOf);
  }
}
