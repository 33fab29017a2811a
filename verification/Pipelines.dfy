/** The Pipeline resource and the Fleet name the operator derives from it (api/v1alpha1). */
module Pipelines {
  import opened Common

  const SCOPE_NONE := "none"
  const SCOPE_NAMESPACE := "namespace"
  const MODE_READ_ONLY := "read-only"

  datatype SourceKind = Git | Terraform | Grafana | Kubernetes | Unspecified

  datatype Source = Source(kind: SourceKind, namespace: string)

  /** Everything an upsert sends besides the name. */
  datatype Body = Body(contents: string, matchers: seq<string>, enabled: bool, configType: string,
                       source: Option<Source>)

  datatype Spec = Spec(name: string, body: Body, paused: bool)

  /** Server ids are numbers, 0 standing for the empty string. */
  datatype Annotations = Annotations(nameScope: Option<string>, importMode: Option<string>,
                                     fleetPipelineId: Option<nat>)

  datatype Key = Key(namespace: string, name: string)

  datatype Reason = Synced | SyncFailed | ValidationError | DeleteFailed | ReadOnly

  datatype Ready = Ready(ok: bool, reason: Reason)

  datatype Status = Status(id: nat, syncedName: string, observedGeneration: nat, ready: Option<Ready>)

  datatype Pipeline = Pipeline(key: Key, generation: nat, spec: Spec, annotations: Annotations,
                               finalizer: bool, deleting: bool, status: Status)
  {
    predicate IsDiscovered() {
      annotations.fleetPipelineId.Some?
    }

    predicate IsReadOnly() {
      || (spec.body.source.Some? && spec.body.source.value.kind.Grafana?)
      || annotations.importMode == Some(MODE_READ_ONLY)
    }

    function BaseName(): string {
      if spec.name != "" then spec.name else key.name
    }

    /** A known annotation value wins; anything else falls back to the cluster default. */
    function EffectiveNameScope(defaultScope: string): string {
      if annotations.nameScope == Some(SCOPE_NAMESPACE) then SCOPE_NAMESPACE
      else if annotations.nameScope == Some(SCOPE_NONE) then SCOPE_NONE
      else defaultScope
    }

    function DesiredFleetName(defaultScope: string): string {
      if EffectiveNameScope(defaultScope) != SCOPE_NAMESPACE then BaseName()
      else if IsDiscovered() || IsReadOnly() then BaseName()
      else ScopedName(key.namespace, BaseName())
    }

    /** The body of an upsert request: only three source kinds are sent to Fleet. */
    function RequestBody(): Body {
      match spec.body.source
      case Some(s) =>
        if s.kind.Git? || s.kind.Terraform? || s.kind.Grafana? then spec.body else spec.body.(source := None)
      case None => spec.body
    }

    /** The id a read-only pipeline observes: a non-empty annotation wins over status. */
    function ReadOnlyId(): nat {
      if annotations.fleetPipelineId.Some? && annotations.fleetPipelineId.value != 0
      then annotations.fleetPipelineId.value
      else status.id
    }

    /** The webhook's name-scope check, `clusterDefault` being the scope it was started with. */
    predicate NameScopeAdmitted(clusterDefault: string) {
      && (annotations.nameScope.Some? ==> annotations.nameScope.value in [SCOPE_NAMESPACE, SCOPE_NONE])
      && !(&& clusterDefault == SCOPE_NAMESPACE
           && EffectiveNameScope(clusterDefault) == SCOPE_NONE
           && spec.name != "" && HasReservedPrefix(spec.name))
    }
  }

  /** What is sent carries this content; the source goes along for the kinds Fleet knows. */
  predicate Conveys(sent: Body, content: Body) {
    && sent.contents == content.contents && sent.matchers == content.matchers
    && sent.enabled == content.enabled && sent.configType == content.configType
    && (sent.source.Some? <==> content.source.Some? && content.source.value.kind in {Git, Terraform, Grafana})
    && (sent.source.Some? ==> sent.source == content.source)
  }

  lemma RequestConveysSpec(p: Pipeline)
    ensures Conveys(p.RequestBody(), p.spec.body)
  {}

  function ScopedName(namespace: string, base: string): string {
    namespace + "." + base
  }

  predicate IsLabelEdge(c: char) {
    'a' <= c <= 'z' || '0' <= c <= '9'
  }

  /** The shape of a DNS-1123 label, without its length limit. */
  predicate IsLabel(s: string) {
    && s != [] && IsLabelEdge(s[0]) && IsLabelEdge(s[|s| - 1])
    && forall i | 0 <= i < |s| :: IsLabelEdge(s[i]) || s[i] == '-'
  }

  /** What reservedScopePrefixRe matches: a label, then a dot, at the start. */
  predicate HasReservedPrefix(s: string) {
    exists i | 0 <= i < |s| :: s[i] == '.' && IsLabel(s[..i])
  }

  /** The Fleet names whose first segment is `namespace`. */
  predicate InTerritory(namespace: string, name: string) {
    |namespace| < |name| && name[..|namespace|] == namespace && name[|namespace|] == '.'
  }

  /** A name lies in at most one namespace's territory: labels have no dots. */
  lemma TerritoriesDisjoint(a: string, b: string, name: string)
    requires IsLabel(a) && IsLabel(b)
    requires InTerritory(a, name) && InTerritory(b, name)
    ensures a == b
  {
    DotEndsLabel(a, b, name);
    DotEndsLabel(b, a, name);
  }

  lemma DotEndsLabel(a: string, b: string, name: string)
    requires IsLabel(b) && InTerritory(a, name) && InTerritory(b, name)
    ensures |b| <= |a|
  {
    assert forall i | 0 <= i < |b| :: name[i] == b[i] && b[i] != '.';
  }

  /** Scoped names are injective in both parts. */
  lemma ScopedNameInjective(a: string, x: string, b: string, y: string)
    requires IsLabel(a) && IsLabel(b)
    ensures ScopedName(a, x) == ScopedName(b, y) <==> a == b && x == y
  {
    if ScopedName(a, x) == ScopedName(b, y) {
      TerritoriesDisjoint(a, b, ScopedName(a, x));
      assert x == ScopedName(a, x)[|a| + 1..] == ScopedName(b, y)[|b| + 1..] == y;
    }
  }

  /** The regular expression matches exactly the names lying in some namespace's territory. */
  lemma ReservedPrefixMeansTerritory(s: string)
    ensures HasReservedPrefix(s) <==> exists ns :: IsLabel(ns) && InTerritory(ns, s)
  {
    if HasReservedPrefix(s) {
      var i :| 0 <= i < |s| && s[i] == '.' && IsLabel(s[..i]);
      assert InTerritory(s[..i], s);
    }
    if ns :| IsLabel(ns) && InTerritory(ns, s) {
      assert s[|ns|] == '.' && s[..|ns|] == ns;
    }
  }

  /** A pipeline that name scoping prefixes. */
  predicate Scoped(p: Pipeline, clusterDefault: string) {
    p.EffectiveNameScope(clusterDefault) == SCOPE_NAMESPACE && !p.IsDiscovered() && !p.IsReadOnly()
  }

  /** A pipeline that opted out under a name the webhook let through. */
  predicate OptedOut(p: Pipeline, clusterDefault: string) {
    && p.EffectiveNameScope(clusterDefault) == SCOPE_NONE
    && p.spec.name != "" && p.NameScopeAdmitted(clusterDefault)
  }

  /** In a namespace-scoped cluster no admitted pipeline of another namespace can desire a scoped name. */
  lemma ScopedNameIsPrivate(p: Pipeline, q: Pipeline)
    requires Scoped(p, SCOPE_NAMESPACE) && (Scoped(q, SCOPE_NAMESPACE) || OptedOut(q, SCOPE_NAMESPACE))
    requires IsLabel(p.key.namespace) && IsLabel(q.key.namespace) && p.key.namespace != q.key.namespace
    ensures InTerritory(p.key.namespace, p.DesiredFleetName(SCOPE_NAMESPACE))
    ensures !InTerritory(p.key.namespace, q.DesiredFleetName(SCOPE_NAMESPACE))
  {
    ReservedPrefixMeansTerritory(q.spec.name);
    var name := q.DesiredFleetName(SCOPE_NAMESPACE);
    if Scoped(q, SCOPE_NAMESPACE) && InTerritory(p.key.namespace, name) {
      assert InTerritory(q.key.namespace, name);
      TerritoriesDisjoint(p.key.namespace, q.key.namespace, name);
    }
  }

  /** The guard reads spec.name only: with an empty one, a dotted metadata.name takes another
      namespace's scoped name and is admitted. */
  lemma EmptySpecNameEscapesTheGuard(p: Pipeline, q: Pipeline)
    requires Scoped(p, SCOPE_NAMESPACE) && p.key.namespace == "a" && p.BaseName() == "x"
    requires q.annotations.nameScope == Some(SCOPE_NONE)
    requires q.key == Key("b", "a.x") && q.spec.name == ""
    ensures q.NameScopeAdmitted(SCOPE_NAMESPACE)
    ensures q.DesiredFleetName(SCOPE_NAMESPACE) == p.DesiredFleetName(SCOPE_NAMESPACE)
  {
    assert "a" + "." + "x" == "a.x";
  }

  /** An admitted opt-out stays clear of every territory exactly when its base name does;
      the webhook checks that only for a non-empty spec.name. */
  lemma OptOutSafeExactly(q: Pipeline)
    requires q.annotations.nameScope == Some(SCOPE_NONE) && q.NameScopeAdmitted(SCOPE_NAMESPACE)
    ensures (forall ns | IsLabel(ns) :: !InTerritory(ns, q.DesiredFleetName(SCOPE_NAMESPACE)))
       <==> q.spec.name != "" || !HasReservedPrefix(q.key.name)
  {
    ReservedPrefixMeansTerritory(q.BaseName());
  }

  /** A label and a dot in front, of a namespace other than this one. */
  predicate HasForeignPrefix(namespace: string, s: string) {
    HasReservedPrefix(s) && !InTerritory(namespace, s)
  }

  lemma ForeignPrefixMeansTerritory(namespace: string, s: string)
    requires IsLabel(namespace)
    ensures HasForeignPrefix(namespace, s) <==> exists ns :: IsLabel(ns) && ns != namespace && InTerritory(ns, s)
  {
    ReservedPrefixMeansTerritory(s);
    if ns :| IsLabel(ns) && ns != namespace && InTerritory(ns, s) {
      if InTerritory(namespace, s) {
        TerritoriesDisjoint(ns, namespace, s);
      }
    }
  }

  /** For every admitted writable pipeline of a namespace-scoped cluster: it stays clear of the other
      namespaces' names exactly when it is scoped, or opted out under a non-empty spec.name, or its base name
      has no other namespace's prefix. Opting out is not the sole way to an unscoped name. */
  lemma WritableSafeExactly(p: Pipeline)
    requires p.NameScopeAdmitted(SCOPE_NAMESPACE) && !p.IsReadOnly() && IsLabel(p.key.namespace)
    ensures (forall ns | IsLabel(ns) && ns != p.key.namespace :: !InTerritory(ns, p.DesiredFleetName(SCOPE_NAMESPACE)))
       <==> || Scoped(p, SCOPE_NAMESPACE)
            || (p.EffectiveNameScope(SCOPE_NAMESPACE) == SCOPE_NONE && p.spec.name != "")
            || !HasForeignPrefix(p.key.namespace, p.BaseName())
  {
    ForeignPrefixMeansTerritory(p.key.namespace, p.DesiredFleetName(SCOPE_NAMESPACE));
    if Scoped(p, SCOPE_NAMESPACE) {
      assert InTerritory(p.key.namespace, p.DesiredFleetName(SCOPE_NAMESPACE));
    } else {
      assert p.DesiredFleetName(SCOPE_NAMESPACE) == p.BaseName();
    }
  }

  /** The id annotation users can set makes a pipeline count as discovered: it is neither scoped nor guarded. */
  lemma DiscoveredNameEscapesTheGuard(p: Pipeline, q: Pipeline)
    requires Scoped(p, SCOPE_NAMESPACE) && p.key.namespace == "a" && p.BaseName() == "x"
    requires q.annotations.nameScope.None? && q.IsDiscovered() && !q.IsReadOnly()
    requires q.key.namespace == "b" && q.spec.name == "a.x"
    ensures q.NameScopeAdmitted(SCOPE_NAMESPACE)
    ensures q.DesiredFleetName(SCOPE_NAMESPACE) == p.DesiredFleetName(SCOPE_NAMESPACE)
  {
    assert "a" + "." + "x" == "a.x";
  }

  /** The desired Fleet name from what the resource and the cluster flag say: the annotation decides when it is
      "namespace" or "none", the flag otherwise; discovered and read-only pipelines are never prefixed. */
  lemma DesiredNameExactly(p: Pipeline, clusterDefault: string)
    ensures var base := if p.spec.name == "" then p.key.name else p.spec.name;
            var scoped := || p.annotations.nameScope == Some("namespace")
                          || (p.annotations.nameScope != Some("none") && clusterDefault == "namespace");
            var readOnly := || (p.spec.body.source.Some? && p.spec.body.source.value.kind == Grafana)
                            || p.annotations.importMode == Some("read-only");
            p.DesiredFleetName(clusterDefault) ==
            if scoped && !readOnly && p.annotations.fleetPipelineId.None? then p.key.namespace + "." + base else base
  {}
}
