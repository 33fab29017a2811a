/** Selectors over collectors, and the keys they are indexed under (internal/controller/attributes). */
module SelectorMatch {
  import opened Common

  const COLLECTOR_ID := "collector.id"
  const HAS_NEGATION := "__has_negation__"
  const COLLECTOR_IDS_ONLY := "__collector_ids_only__"

  datatype Operator = Equal | NotEqual | Matches | NotMatches

  datatype Parsed = Parsed(key: string, op: Operator, raw: string)

  /** The regular expressions: the matcher grammar, and user patterns that may not compile. */
  datatype Engine = Engine(parse: string -> Option<Parsed>, compiles: string -> bool, matches: (string, string) -> bool)

  datatype Selector = Selector(matchers: seq<string>, collectorIDs: seq<string>)

  /** One layer of double quotes is stripped. */
  function Unquoted(raw: string): string {
    if |raw| >= 2 && raw[0] == '"' && raw[|raw| - 1] == '"' then raw[1..|raw| - 1] else raw
  }

  /** A missing attribute reads as the empty string. */
  function Reads(key: string, id: string, attrs: Attrs): string {
    if key == COLLECTOR_ID then id else if key in attrs then attrs[key] else ""
  }

  /** A parsed matcher on the value it reads; a pattern that does not compile accepts nothing. */
  predicate Accepts(e: Engine, m: Parsed, got: string) {
    var value := Unquoted(m.raw);
    match m.op
    case Equal => got == value
    case NotEqual => got != value
    case Matches => e.compiles(value) && e.matches(value, got)
    case NotMatches => e.compiles(value) && !e.matches(value, got)
  }

  predicate MatchOne(e: Engine, matcher: string, id: string, attrs: Attrs) {
    var m := e.parse(matcher);
    m.Some? && Accepts(e, m.value, Reads(m.value.key, id, attrs))
  }

  /** Listed ids always match; otherwise there must be matchers and all must accept. */
  predicate Match(e: Engine, s: Selector, id: string, attrs: Attrs) {
    || id in s.collectorIDs
    || (s.matchers != [] && forall m | m in s.matchers :: MatchOne(e, m, id, attrs))
  }

  predicate IsNegation(m: Parsed) {
    m.op.NotEqual? || m.op.NotMatches?
  }

  /** The keys one matcher is indexed under. */
  predicate KeyOfMatcher(e: Engine, matcher: string, k: string) {
    var m := e.parse(matcher);
    m.Some? && (k == m.value.key || (k == HAS_NEGATION && IsNegation(m.value)))
  }

  method MatcherKeys(e: Engine, matchers: seq<string>) returns (keys: set<string>)
    ensures forall k :: k in keys <==> exists m | m in matchers :: KeyOfMatcher(e, m, k)
  {
    keys := {};
    var hasNegation := false;
    for i := 0 to |matchers|
      invariant hasNegation <==> exists m | m in matchers[..i] :: e.parse(m).Some? && IsNegation(e.parse(m).value)
      invariant forall k :: k in keys <==>
                  exists m | m in matchers[..i] :: e.parse(m).Some? && k == e.parse(m).value.key
    {
      var parts := e.parse(matchers[i]);
      assert matchers[..i + 1] == matchers[..i] + [matchers[i]];
      assert forall m :: m in matchers[..i + 1] <==> m in matchers[..i] || m == matchers[i];
      if parts.Some? {
        keys := keys + {parts.value.key};
        if IsNegation(parts.value) {
          hasNegation := true;
        }
      }
    }
    assert matchers[..|matchers|] == matchers;
    if hasNegation {
      keys := keys + {HAS_NEGATION};
    }
  }

  /** The index extractor: matcher keys, and a sentinel for selectors by id alone. */
  predicate Indexed(e: Engine, s: Selector, k: string) {
    || (exists m | m in s.matchers :: KeyOfMatcher(e, m, k))
    || (k == COLLECTOR_IDS_ONLY && s.matchers == [] && s.collectorIDs != [])
  }

  method IndexKeys(e: Engine, s: Selector) returns (keys: set<string>)
    ensures forall k :: k in keys <==> Indexed(e, s, k)
  {
    keys := MatcherKeys(e, s.matchers);
    if |s.matchers| == 0 && |s.collectorIDs| > 0 {
      keys := keys + {COLLECTOR_IDS_ONLY};
    }
  }

  // ----- Collectors -----

  datatype Collector = Collector(namespace: string, name: string, id: string,
                                 localAttributes: Attrs, remoteAttributes: Attrs)

  /** What the matchers see of a collector. */
  function SelectorAttrs(c: Collector): Attrs {
    c.localAttributes[COLLECTOR_ID := c.id]
  }

  predicate Selects(e: Engine, s: Selector, c: Collector) {
    Match(e, s, c.id, SelectorAttrs(c))
  }

  const ALWAYS_QUERIED: set<string> := {COLLECTOR_ID, HAS_NEGATION, COLLECTOR_IDS_ONLY}

  /** The index keys a collector event looks up. */
  function LookupKeys(c: Collector): set<string> {
    c.remoteAttributes.Keys + c.localAttributes.Keys + ALWAYS_QUERIED
  }

  /** A collector event finds this selector through the index. */
  ghost predicate Woken(e: Engine, s: Selector, c: Collector) {
    exists k :: k in LookupKeys(c) && Indexed(e, s, k)
  }

  /** The matcher accepts a collector that lacks the attribute. */
  predicate AcceptsAbsent(e: Engine, matcher: string) {
    var m := e.parse(matcher);
    m.Some? && Accepts(e, m.value, "")
  }

  /** The index covers the selector: it is under a key every lookup queries, or it has no id list and
      some matcher turns down collectors that lack its attribute. */
  predicate Covered(e: Engine, s: Selector) {
    || (exists k | k in ALWAYS_QUERIED :: Indexed(e, s, k))
    || (s.collectorIDs == [] && (s.matchers == [] || exists m | m in s.matchers :: !AcceptsAbsent(e, m)))
  }

  lemma CoveredIsWoken(e: Engine, s: Selector, c: Collector)
    requires Covered(e, s) && Selects(e, s, c)
    ensures Woken(e, s, c)
  {
    if k :| k in ALWAYS_QUERIED && Indexed(e, s, k) {
      assert k in LookupKeys(c);
    } else {
      var m :| m in s.matchers && !AcceptsAbsent(e, m);
      assert MatchOne(e, m, c.id, SelectorAttrs(c));
      var key := e.parse(m).value.key;
      assert KeyOfMatcher(e, m, key);
      assert key in LookupKeys(c);
    }
  }

  /** A collector the selector matches but no lookup finds. */
  lemma UncoveredIsMissed(e: Engine, s: Selector) returns (c: Collector)
    requires !Covered(e, s)
    ensures Selects(e, s, c) && !Woken(e, s, c)
  {
    c := Collector("ns", "name", if s.collectorIDs == [] then "id" else s.collectorIDs[0], map[], map[]);
    assert LookupKeys(c) == ALWAYS_QUERIED;
    if s.collectorIDs == [] {
      forall m | m in s.matchers ensures MatchOne(e, m, c.id, SelectorAttrs(c)) {
        assert AcceptsAbsent(e, m);
        assert KeyOfMatcher(e, m, e.parse(m).value.key);
        assert e.parse(m).value.key != COLLECTOR_ID;
      }
    }
  }

  /** The index finds every matched collector exactly for the covered selectors: not for those with
      both lists and no always-queried key, nor for those whose matchers all accept an absent attribute. */
  lemma IndexCompleteExactly(e: Engine, s: Selector)
    ensures (forall c | Selects(e, s, c) :: Woken(e, s, c)) <==> Covered(e, s)
  {
    if Covered(e, s) {
      forall c | Selects(e, s, c) ensures Woken(e, s, c) {
        CoveredIsWoken(e, s, c);
      }
    } else {
      var c := UncoveredIsMissed(e, s);
    }
  }

  /** A collector update whose match with a covered selector changes wakes it from the old or the new object. */
  lemma ChangeOfMatchWakes(e: Engine, s: Selector, before: Collector, after: Collector)
    requires Covered(e, s) && Selects(e, s, before) != Selects(e, s, after)
    ensures Woken(e, s, before) || Woken(e, s, after)
  {
    if Selects(e, s, before) {
      CoveredIsWoken(e, s, before);
    } else {
      CoveredIsWoken(e, s, after);
    }
  }

  /** The shapes the design asks for are covered. */
  lemma IntendedShapesCovered(e: Engine, s: Selector)
    requires || (s.matchers == [])
             || (&& s.collectorIDs == []
                 && forall m | m in s.matchers && e.parse(m).Some? && !IsNegation(e.parse(m).value) ::
                      !AcceptsAbsent(e, m))
    ensures Covered(e, s)
  {
    if s.matchers == [] && s.collectorIDs != [] {
      assert Indexed(e, s, COLLECTOR_IDS_ONLY);
    } else if s.matchers != [] {
      var m := s.matchers[0];
      assert m in s.matchers;
      if e.parse(m).Some? && IsNegation(e.parse(m).value) {
        assert KeyOfMatcher(e, m, HAS_NEGATION);
        assert Indexed(e, s, HAS_NEGATION);
      } else {
        assert !AcceptsAbsent(e, m);
      }
    }
  }

  // ----- What selectors mean -----

  /** `value` is `raw` without one layer of double quotes around it. */
  ghost predicate Bare(raw: string, value: string) {
    raw == "\"" + value + "\"" || (raw == value && forall inner: string :: raw != "\"" + inner + "\"")
  }

  /** Every raw value has exactly one bare form. */
  lemma BareIsUnique(raw: string, value: string)
    ensures Bare(raw, value) <==> value == Unquoted(raw)
  {
    var u := Unquoted(raw);
    if |raw| >= 2 && raw[0] == '"' && raw[|raw| - 1] == '"' {
      assert raw == "\"" + u + "\"";
      assert Bare(raw, value) ==> value == ("\"" + value + "\"")[1..|value| + 1] == u;
    } else {
      forall inner: string ensures raw != "\"" + inner + "\"" {
        var quoted := "\"" + inner + "\"";
        assert |quoted| >= 2 && quoted[0] == '"' && quoted[|quoted| - 1] == '"';
      }
    }
  }

  /** What a matcher on the key sees: the id for collector.id, and nothing for a missing attribute. */
  predicate Sees(key: string, id: string, attrs: Attrs, got: string) {
    if key == "collector.id" then got == id
    else if key in attrs then got == attrs[key]
    else got == ""
  }

  lemma OneMatcher(e: Engine, m: string, key: string, op: Operator, raw: string, value: string,
                   id: string, attrs: Attrs, got: string)
    requires e.parse(m) == Some(Parsed(key, op, raw)) && Bare(raw, value) && Sees(key, id, attrs, got)
    ensures Match(e, Selector([m], []), id, attrs) <==> Accepts(e, Parsed(key, op, raw), got)
    ensures Unquoted(raw) == value
  {
    BareIsUnique(raw, value);
    assert forall x | x in [m] :: x == m;
    assert m in [m];
  }

  /** A selector with one matcher selects by what the matcher sees, the value being bare of quotes. */
  lemma OperatorsMean(e: Engine, m: string, key: string, op: Operator, raw: string, value: string,
                      id: string, attrs: Attrs, got: string)
    requires e.parse(m) == Some(Parsed(key, op, raw)) && Bare(raw, value) && Sees(key, id, attrs, got)
    ensures op == Equal ==> (Match(e, Selector([m], []), id, attrs) <==> got == value)
    ensures op == NotEqual ==> (Match(e, Selector([m], []), id, attrs) <==> got != value)
    ensures op == Matches ==> (Match(e, Selector([m], []), id, attrs) <==> e.compiles(value) && e.matches(value, got))
    ensures op == NotMatches ==>
              (Match(e, Selector([m], []), id, attrs) <==> e.compiles(value) && !e.matches(value, got))
  {
    OneMatcher(e, m, key, op, raw, value, id, attrs, got);
  }

  /** Two matchers on one key and value with opposite operators select complementary collectors, unless the
      value is a pattern that does not compile; then neither selects any. */
  lemma OppositesPartition(e: Engine, m: string, n: string, key: string, op: Operator, not: Operator, raw: string,
                           id: string, attrs: Attrs)
    requires e.parse(m) == Some(Parsed(key, op, raw)) && e.parse(n) == Some(Parsed(key, not, raw))
    requires (op == Equal && not == NotEqual) || (op == Matches && not == NotMatches)
    ensures var some, others := Match(e, Selector([m], []), id, attrs), Match(e, Selector([n], []), id, attrs);
            if op == Equal || exists v :: Bare(raw, v) && e.compiles(v) then some != others else !some && !others
  {
    var got := Reads(key, id, attrs);
    var value := Unquoted(raw);
    BareIsUnique(raw, value);
    OneMatcher(e, m, key, op, raw, value, id, attrs, got);
    OneMatcher(e, n, key, not, raw, value, id, attrs, got);
    forall v | Bare(raw, v) ensures v == value {
      BareIsUnique(raw, v);
    }
  }

  /** Listed ids are selected; other collectors are when there are matchers and each alone selects them. A
      matcher that does not parse selects none. */
  lemma SelectorIsConjunction(e: Engine, s: Selector, id: string, attrs: Attrs)
    ensures Match(e, s, id, attrs) <==>
              || id in s.collectorIDs
              || (s.matchers != [] && forall m | m in s.matchers :: Match(e, Selector([m], []), id, attrs))
    ensures forall m | m in s.matchers && e.parse(m).None? :: !Match(e, Selector([m], []), id, attrs)
  {
    forall m | m in s.matchers ensures Match(e, Selector([m], []), id, attrs) <==> MatchOne(e, m, id, attrs) {
      assert m in [m] && forall x | x in [m] :: x == m;
    }
  }

  // ----- Which selectors the index finds -----

  /** The keys of an indexed selector, spelled out. */
  lemma IndexedUnder(e: Engine, s: Selector, k: string)
    ensures Indexed(e, s, k) <==>
              || (exists m | m in s.matchers :: e.parse(m).Some? && e.parse(m).value.key == k)
              || (k == "__has_negation__" &&
                  exists m | m in s.matchers :: e.parse(m).Some? && e.parse(m).value.op in {NotEqual, NotMatches})
              || (k == "__collector_ids_only__" && s.matchers == [] && s.collectorIDs != [])
  {}

  /** A matcher on the id, a negative one, or, without listed ids, an equality with a non-empty value. */
  ghost predicate AnchorsIndex(e: Engine, s: Selector, m: string) {
    match e.parse(m)
    case None => false
    case Some(p) =>
      || p.key == "collector.id" || p.op in {NotEqual, NotMatches}
      || (s.collectorIDs == [] && p.op == Equal && !Bare(p.raw, ""))
  }

  /** A collector selected by its id alone, or by a selector with such a matcher, finds it by one of its
      attributes or one of the three keys that are always looked up. */
  lemma AnchoredIsWoken(e: Engine, s: Selector, c: Collector)
    requires Selects(e, s, c) && (s.matchers == [] || exists m | m in s.matchers :: AnchorsIndex(e, s, m))
    ensures exists k :: Indexed(e, s, k) && (k in c.localAttributes || k in c.remoteAttributes
                                             || k in {"collector.id", "__has_negation__", "__collector_ids_only__"})
  {
    if s.matchers == [] {
      assert Indexed(e, s, "__collector_ids_only__");
    } else {
      var m :| m in s.matchers && AnchorsIndex(e, s, m);
      var p := e.parse(m).value;
      assert Indexed(e, s, p.key);
      if p.op in {NotEqual, NotMatches} {
        assert Indexed(e, s, "__has_negation__");
      } else if p.key != "collector.id" {
        assert MatchOne(e, m, c.id, SelectorAttrs(c));
        BareIsUnique(p.raw, "");
      }
    }
  }
}
