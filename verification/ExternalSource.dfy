/** Records fetched from an external source, and their projection to per-collector claims. */
module ExternalSource {
  import opened Common
  import opened IntFormat

  /** A field value; a float carries the text strconv renders it as. */
  datatype Value = Text(s: string) | Flag(b: bool) | Integer(i: int) | Float(rendered: string) | Nil | Unsupported

  type Record = map<string, Value>

  predicate WellTyped(r: Record) {
    forall k | k in r :: r[k].Integer? ==> IsInt64(r[k].i)
  }

  /** The string form of a field, None standing for ok=false. */
  method FieldString(r: Record, key: string) returns (text: Option<string>)
    requires WellTyped(r)
    ensures text == FieldText(r, key)
  {
    if key !in r {
      return None;
    }
    match r[key]
    case Text(s) => text := Some(s);
    case Flag(b) => text := Some(if b then "true" else "false");
    case Integer(i) =>
      var s := FormatInt64(i);
      text := Some(s);
    case Float(s) => text := Some(s);
    case Nil => text := None;
    case Unsupported => text := None;
  }

  function FieldText(r: Record, key: string): Option<string>
    requires WellTyped(r)
  {
    if key !in r then None
    else match r[key]
      case Text(s) => Some(s)
      case Flag(b) => Some(if b then "true" else "false")
      case Integer(i) => Some(Formatted(i))
      case Float(s) => Some(s)
      case Nil => None
      case Unsupported => None
  }

  datatype Mapping = Mapping(collectorIdField: string, attributeFields: map<string, string>, requiredKeys: seq<string>)

  /** The attributes one record claims: the mapped fields it has. */
  function RecordAttrs(r: Record, m: Mapping): Attrs
    requires WellTyped(r)
  {
    map k | k in m.attributeFields && FieldText(r, m.attributeFields[k]).Some? ::
      FieldText(r, m.attributeFields[k]).value
  }

  /** The collector a record applies to, if it applies at all. */
  function AppliesTo(r: Record, m: Mapping, matched: set<string>): Option<string>
    requires WellTyped(r)
  {
    var id := FieldText(r, m.collectorIdField);
    if id.None? || id.value == "" then None
    else if exists k | k in m.requiredKeys :: k !in r then None
    else if id.value !in matched then None
    else if RecordAttrs(r, m) == map[] then None
    else id
  }

  predicate AllTyped(records: seq<Record>) {
    forall r | r in records :: WellTyped(r)
  }

  /** The last record that applies to the collector. */
  ghost predicate LastFor(records: seq<Record>, m: Mapping, matched: set<string>, id: string, i: int)
    requires AllTyped(records)
  {
    && 0 <= i < |records| && AppliesTo(records[i], m, matched) == Some(id)
    && forall j | i < j < |records| :: AppliesTo(records[j], m, matched) != Some(id)
  }

  type Claims = map<string, Attrs>

  /** Each collector some record applies to gets the attributes of the last such record. */
  ghost predicate Projects(records: seq<Record>, m: Mapping, matched: set<string>, owned: Claims)
    requires AllTyped(records)
  {
    && (forall id | id in owned ::
         exists i :: LastFor(records, m, matched, id, i) && owned[id] == RecordAttrs(records[i], m))
    && (forall i | 0 <= i < |records| && AppliesTo(records[i], m, matched).Some? ::
          AppliesTo(records[i], m, matched).value in owned)
  }

  function AppliedCount(records: seq<Record>, m: Mapping, matched: set<string>): nat
    requires AllTyped(records)
  {
    if records == [] then 0
    else
      var n := |records| - 1;
      assert forall r | r in records[..n] :: r in records;
      AppliedCount(records[..n], m, matched) + if AppliesTo(records[n], m, matched).Some? then 1 else 0
  }

  lemma ProjectStep(records: seq<Record>, r: Record, m: Mapping, matched: set<string>, owned: Claims)
    requires AllTyped(records) && WellTyped(r) && AllTyped(records + [r]) && Projects(records, m, matched, owned)
    ensures var id := AppliesTo(r, m, matched);
            Projects(records + [r], m, matched, if id.Some? then owned[id.value := RecordAttrs(r, m)] else owned)
    ensures AppliedCount(records + [r], m, matched)
            == AppliedCount(records, m, matched) + if AppliesTo(r, m, matched).Some? then 1 else 0
  {
    var all := records + [r];
    assert all[..|records|] == records;
    var target := AppliesTo(r, m, matched);
    var after := if target.Some? then owned[target.value := RecordAttrs(r, m)] else owned;
    forall id | id in after
      ensures exists i :: LastFor(all, m, matched, id, i) && after[id] == RecordAttrs(all[i], m)
    {
      if target == Some(id) {
        assert LastFor(all, m, matched, id, |records|);
      } else {
        var i :| LastFor(records, m, matched, id, i) && owned[id] == RecordAttrs(records[i], m);
        assert LastFor(all, m, matched, id, i);
      }
    }
  }

  lemma {:induction false} ClaimsAtMostApplied(records: seq<Record>, m: Mapping, matched: set<string>, owned: Claims)
    requires AllTyped(records) && Projects(records, m, matched, owned)
    ensures |owned| <= AppliedCount(records, m, matched) <= |records|
  {
    if records == [] {
      assert forall id :: id !in owned;
      assert owned == map[];
    } else {
      var n := |records| - 1;
      var front, r := records[..n], records[n];
      assert records == front + [r];
      assert AllTyped(front) by { assert forall x | x in front :: x in records; }
      assert r in records;
      var smaller := Project(front, m, matched);
      ClaimsAtMostApplied(front, m, matched, smaller);
      ProjectStep(front, r, m, matched, smaller);
      ProjectsUnique(records, m, matched, owned, if AppliesTo(r, m, matched).Some?
        then smaller[AppliesTo(r, m, matched).value := RecordAttrs(r, m)] else smaller);
    }
  }

  lemma ProjectsUnique(records: seq<Record>, m: Mapping, matched: set<string>, a: Claims, b: Claims)
    requires AllTyped(records) && Projects(records, m, matched, a) && Projects(records, m, matched, b)
    ensures a == b
  {
    forall id ensures id in a <==> id in b {}
    forall id | id in a ensures a[id] == b[id] {
      var i :| LastFor(records, m, matched, id, i) && a[id] == RecordAttrs(records[i], m);
      var j :| LastFor(records, m, matched, id, j) && b[id] == RecordAttrs(records[j], m);
      assert i == j;
    }
  }

  /** The projection as a function. */
  function Project(records: seq<Record>, m: Mapping, matched: set<string>): (owned: Claims)
    requires AllTyped(records)
    ensures Projects(records, m, matched, owned)
  {
    if records == [] then map[]
    else
      var n := |records| - 1;
      assert forall r | r in records[..n] :: r in records;
      assert records[n] in records && records == records[..n] + [records[n]];
      var before := Project(records[..n], m, matched);
      ProjectStep(records[..n], records[n], m, matched, before);
      var id := AppliesTo(records[n], m, matched);
      if id.Some? then before[id.value := RecordAttrs(records[n], m)] else before
  }

  method CollectAttrs(r: Record, m: Mapping) returns (attrs: Attrs)
    requires WellTyped(r)
    ensures attrs == RecordAttrs(r, m)
  {
    attrs := map[];
    var todo := m.attributeFields.Keys;
    while todo != {}
      invariant todo <= m.attributeFields.Keys
      invariant attrs == map k | k in m.attributeFields && k !in todo && FieldText(r, m.attributeFields[k]).Some? ::
                           FieldText(r, m.attributeFields[k]).value
      decreases todo
    {
      var k :| k in todo;
      var text := FieldString(r, m.attributeFields[k]);
      if text.Some? {
        attrs := attrs[k := text.value];
      }
      todo := todo - {k};
    }
  }

  method HasAllRequired(r: Record, required: seq<string>) returns (all: bool)
    ensures all <==> forall k | k in required :: k in r
  {
    for i := 0 to |required|
      invariant forall j | 0 <= j < i :: required[j] in r
    {
      if required[i] !in r {
        return false;
      }
    }
    all := true;
  }

  /** Last record wins; the count is of records applied, not of collectors. */
  method ProjectRecords(records: seq<Record>, m: Mapping, matched: set<string>) returns (owned: Claims, applied: nat)
    requires AllTyped(records)
    ensures owned == Project(records, m, matched) && applied == AppliedCount(records, m, matched)
  {
    owned, applied := map[], 0;
    for i := 0 to |records|
      invariant AllTyped(records[..i])
      invariant Projects(records[..i], m, matched, owned)
      invariant applied == AppliedCount(records[..i], m, matched)
    {
      var r := records[i];
      assert r in records && records[..i + 1] == records[..i] + [r];
      ProjectStep(records[..i], r, m, matched, owned);
      var id := FieldString(r, m.collectorIdField);
      if id.Some? && id.value != "" {
        var complete := HasAllRequired(r, m.requiredKeys);
        if complete && id.value in matched {
          var attrs := CollectAttrs(r, m);
          if attrs != map[] {
            owned, applied := owned[id.value := attrs], applied + 1;
          }
        }
      }
    }
    assert records[..|records|] == records;
    ProjectsUnique(records, m, matched, owned, Project(records, m, matched));
  }

  /** No claim is for the empty collector id, and none is empty. */
  lemma ClaimsAreReal(records: seq<Record>, m: Mapping, matched: set<string>, id: string)
    requires AllTyped(records) && id in Project(records, m, matched)
    ensures id != "" && id in matched && Project(records, m, matched)[id] != map[]
  {
    var i :| LastFor(records, m, matched, id, i)
             && Project(records, m, matched)[id] == RecordAttrs(records[i], m);
  }

  // ----- The projection, said of the fields -----

  /** The field of the record is there and reads as this text. */
  ghost predicate ReadsAs(r: Record, key: string, text: string)
    requires WellTyped(r)
  {
    && key in r
    && match r[key]
       case Text(s) => text == s
       case Flag(b) => (b ==> text == "true") && (!b ==> text == "false")
       case Integer(i) => text == Formatted(i)
       case Float(s) => text == s
       case _ => false
  }

  lemma FieldTextReads(r: Record, key: string, text: string)
    requires WellTyped(r)
    ensures FieldText(r, key) == Some(text) <==> ReadsAs(r, key, text)
  {}

  /** The record names the collector, which is matched, has the required fields and some mapped one. */
  ghost predicate Names(r: Record, m: Mapping, matched: set<string>, id: string)
    requires WellTyped(r)
  {
    && id != "" && id in matched && ReadsAs(r, m.collectorIdField, id)
    && (forall k | k in m.requiredKeys :: k in r)
    && exists k, text :: k in m.attributeFields && ReadsAs(r, m.attributeFields[k], text)
  }

  /** What a record gives: each mapped attribute whose field it has, as the text of that field. */
  ghost predicate Gives(r: Record, m: Mapping, attrs: Attrs)
    requires WellTyped(r)
  {
    forall k, text ::
      k in attrs && attrs[k] == text <==> k in m.attributeFields && ReadsAs(r, m.attributeFields[k], text)
  }

  lemma RecordGives(r: Record, m: Mapping, matched: set<string>, id: string)
    requires WellTyped(r)
    ensures Gives(r, m, RecordAttrs(r, m))
    ensures AppliesTo(r, m, matched) == Some(id) <==> Names(r, m, matched, id)
  {
    var attrs := RecordAttrs(r, m);
    forall k, text
      ensures k in attrs && attrs[k] == text <==> k in m.attributeFields && ReadsAs(r, m.attributeFields[k], text)
    {
      if k in m.attributeFields {
        FieldTextReads(r, m.attributeFields[k], text);
      }
    }
    FieldTextReads(r, m.collectorIdField, id);
    if k :| k in attrs {
      assert ReadsAs(r, m.attributeFields[k], attrs[k]);
    }
    if k, text :| k in m.attributeFields && ReadsAs(r, m.attributeFields[k], text) {
      assert k in attrs;
    }
  }

  /** The last record that names the collector. */
  ghost predicate LastNaming(records: seq<Record>, m: Mapping, matched: set<string>, id: string, i: int)
    requires AllTyped(records)
  {
    && 0 <= i < |records| && Names(records[i], m, matched, id)
    && forall j | i < j < |records| :: !Names(records[j], m, matched, id)
  }

  /** A collector is claimed exactly when some record names it, and gets what the last such record gives. */
  lemma ProjectionExactly(records: seq<Record>, m: Mapping, matched: set<string>, id: string)
    requires AllTyped(records)
    ensures var owned := Project(records, m, matched);
            && (id in owned <==> exists i :: 0 <= i < |records| && Names(records[i], m, matched, id))
            && (id in owned ==> exists i :: LastNaming(records, m, matched, id, i) && Gives(records[i], m, owned[id]))
  {
    var owned := Project(records, m, matched);
    forall i | 0 <= i < |records|
      ensures AppliesTo(records[i], m, matched) == Some(id) <==> Names(records[i], m, matched, id)
      ensures Gives(records[i], m, RecordAttrs(records[i], m))
    {
      RecordGives(records[i], m, matched, id);
    }
    if id in owned {
      var i :| LastFor(records, m, matched, id, i) && owned[id] == RecordAttrs(records[i], m);
      assert LastNaming(records, m, matched, id, i);
    }
  }

  /** The positions of the records that name some collector. */
  ghost function Applied(records: seq<Record>, m: Mapping, matched: set<string>): set<int>
    requires AllTyped(records)
  {
    set i | 0 <= i < |records| && (exists id :: Names(records[i], m, matched, id))
  }

  lemma AppliedNext(records: seq<Record>, n: nat, m: Mapping, matched: set<string>)
    requires n + 1 == |records| && AllTyped(records) && AllTyped(records[..n]) && WellTyped(records[n])
    ensures Applied(records, m, matched) ==
            Applied(records[..n], m, matched) + if AppliesTo(records[n], m, matched).Some? then {n} else {}
    ensures |Applied(records, m, matched)| ==
            |Applied(records[..n], m, matched)| + if AppliesTo(records[n], m, matched).Some? then 1 else 0
  {
    var r := records[n];
    forall x ensures AppliesTo(r, m, matched) == Some(x) <==> Names(r, m, matched, x) {
      RecordGives(r, m, matched, x);
    }
    assert AppliesTo(r, m, matched).Some? <==> exists x :: Names(r, m, matched, x);
  }

  lemma AppliedCountNext(records: seq<Record>, n: nat, m: Mapping, matched: set<string>)
    requires n + 1 == |records| && AllTyped(records) && AllTyped(records[..n]) && WellTyped(records[n])
    ensures AppliedCount(records, m, matched) ==
            AppliedCount(records[..n], m, matched) + if AppliesTo(records[n], m, matched).Some? then 1 else 0
  {}

  /** The applied count is the number of such records, not of collectors. */
  lemma {:induction false} AppliedCountExactly(records: seq<Record>, m: Mapping, matched: set<string>)
    requires AllTyped(records)
    ensures AppliedCount(records, m, matched) == |Applied(records, m, matched)|
  {
    if records != [] {
      var n := |records| - 1;
      assert forall r | r in records[..n] :: r in records;
      AppliedCountExactly(records[..n], m, matched);
      assert records[n] in records;
      AppliedNext(records, n, m, matched);
      AppliedCountNext(records, n, m, matched);
    }
  }
}
