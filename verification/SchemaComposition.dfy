/** Platform fields and a tenant's domain fields composed into one schema per input type, and the
    validation of a document's metadata against it. */
module SchemaComposition {
  import opened Wrappers
  import opened InputSchema

  /** An ordered dictionary of definitions; a value that is not a dictionary defines nothing. */
  type Fields = seq<(string, Option<FieldDef>)>

  datatype Common = Common(required: seq<string>, fields: Fields)

  datatype Schema = Schema(required: seq<string>, fields: Fields)

  type Metadata = map<string, Value>

  function Names(fields: Fields): set<string> {
    set k | 0 <= k < |fields| :: fields[k].0
  }

  ghost predicate UniqueNames(fields: Fields) {
    forall j, k :: 0 <= j < k < |fields| ==> fields[j].0 != fields[k].0
  }

  // ----- Composition -----

  /** Fields the endpoint supplies itself. */
  predicate Injected(name: string) {
    name == "domain_id" || name == "input_type"
  }

  function WithoutInjected(names: seq<string>): seq<string> {
    if names == [] then []
    else (if Injected(names[0]) then [] else [names[0]]) + WithoutInjected(names[1..])
  }

  function DropInjected(fields: Fields): Fields {
    if fields == [] then []
    else (if Injected(fields[0].0) then [] else [fields[0]]) + DropInjected(fields[1..])
  }

  /** Fields flagged required: true, in order. */
  function DomainRequired(fields: Fields): seq<string> {
    if fields == [] then []
    else (if fields[0].1.Some? && fields[0].1.value.required then [fields[0].0] else []) + DomainRequired(fields[1..])
  }

  function Lookup(fields: Fields, name: string): Option<FieldDef>
    requires name in Names(fields)
  {
    if fields[0].0 == name then fields[0].1 else Lookup(fields[1..], name)
  }

  /** {**common, **domain}: common positions first, with the domain's value where it has one. */
  function Override(common: Fields, domain: Fields): Fields {
    Replaced(common, domain) + Added(domain, Names(common))
  }

  function Replaced(common: Fields, domain: Fields): Fields {
    if common == [] then []
    else [(common[0].0, if common[0].0 in Names(domain) then Lookup(domain, common[0].0) else common[0].1)]
         + Replaced(common[1..], domain)
  }

  function Added(domain: Fields, known: set<string>): Fields {
    if domain == [] then []
    else (if domain[0].0 in known then [] else [domain[0]]) + Added(domain[1..], known)
  }

  /** The names in the order in which they first occur. */
  function Distinct(names: seq<string>): seq<string> {
    if names == [] then []
    else
      var before, last := Distinct(names[..|names| - 1]), names[|names| - 1];
      if last in names[..|names| - 1] then before else before + [last]
  }

  /** Each name once, one before another exactly as their first occurrences are. */
  ghost predicate InOrderOfFirst(result: seq<string>, names: seq<string>) {
    && (forall n :: n in result <==> n in names)
    && forall j, k :: 0 <= j < k < |result| ==> FirstBefore(names, result[j], result[k])
  }

  /** Some occurrence of a has no occurrence of b before it or at it. */
  ghost predicate FirstBefore(names: seq<string>, a: string, b: string) {
    exists i :: 0 <= i < |names| && names[i] == a && b !in names[..i + 1]
  }

  lemma {:induction false} DistinctIsInOrder(names: seq<string>)
    ensures InOrderOfFirst(Distinct(names), names)
  {
    if names != [] {
      var n := |names| - 1;
      var front, last := names[..n], names[n];
      DistinctIsInOrder(front);
      assert names == front + [last];
      var result := Distinct(names);
      forall j, k | 0 <= j < k < |result| ensures FirstBefore(names, result[j], result[k]) {
        if k < |Distinct(front)| {
          assert FirstBefore(front, result[j], result[k]);
          var i :| 0 <= i < |front| && front[i] == result[j] && result[k] !in front[..i + 1];
          assert names[..i + 1] == front[..i + 1];
        } else {
          assert result[j] == Distinct(front)[j] && result[j] in front;
          var i :| 0 <= i < |front| && front[i] == result[j];
          assert names[..i + 1] == front[..i + 1];
        }
      }
    }
  }

  /** list(dict.fromkeys(names)): first occurrences, in order. */
  method FirstOccurrences(names: seq<string>) returns (result: seq<string>)
    ensures result == Distinct(names) && InOrderOfFirst(result, names)
  {
    result := [];
    for i := 0 to |names|
      invariant result == Distinct(names[..i])
    {
      DistinctIsInOrder(names[..i]);
      assert names[..i + 1][..i] == names[..i];
      if names[i] !in result { result := result + [names[i]]; }
    }
    assert names[..|names|] == names;
    DistinctIsInOrder(names);
  }

  /** The required names of both layers, the platform's first, each where it first occurs; and the
      platform's definitions under the tenant's. */
  ghost predicate IsComposition(schema: Schema, common: Common, domain: Fields) {
    && InOrderOfFirst(schema.required, WithoutInjected(common.required) + DomainRequired(domain))
    && schema.fields == Override(DropInjected(common.fields), domain)
  }

  method Compose(common: Common, domain: Fields) returns (schema: Schema)
    ensures IsComposition(schema, common, domain)
    ensures forall n :: n in schema.required <==>
              || (n in common.required && n != "domain_id" && n != "input_type")
              || exists e :: e in domain && e.0 == n && e.1.Some? && e.1.value.required
    ensures UniqueNames(domain) ==> forall e :: e in schema.fields <==>
              || e in domain
              || (e in common.fields && e.0 != "domain_id" && e.0 != "input_type"
                  && forall g :: g in domain ==> g.0 != e.0)
  {
    WithoutInjectedMembers(common.required);
    DomainRequiredMembers(domain);
    if UniqueNames(domain) {
      forall e ensures e in Override(DropInjected(common.fields), domain) <==>
          e in domain || (e in common.fields && e.0 != "domain_id" && e.0 != "input_type"
                          && forall g :: g in domain ==> g.0 != e.0)
      {
        OverrideMembers(common.fields, domain, e);
      }
    }
    var required := FirstOccurrences(WithoutInjected(common.required) + DomainRequired(domain));
    schema := Schema(required, Override(DropInjected(common.fields), domain));
  }

  lemma WithoutInjectedMembers(names: seq<string>)
    ensures forall n :: n in WithoutInjected(names) <==> n in names && !Injected(n)
  {}

  // ----- Validation of metadata -----

  predicate EmptyText(v: Value) {
    v == Null || v == Str("")
  }

  /** What the required check takes for missing. */
  predicate Blank(v: Value) {
    EmptyText(v) || v == List([])
  }

  predicate Present(metadata: Metadata, name: string) {
    name in metadata && !Blank(metadata[name])
  }

  ghost predicate FieldOk(metadata: Metadata, name: string, d: Option<FieldDef>, f: Foreign) {
    d.Some? && name in metadata && !EmptyText(metadata[name]) ==> Conforms(metadata[name], d.value, f)
  }

  ghost predicate Accepts(schema: Schema, metadata: Metadata, f: Foreign) {
    && (forall n :: n in schema.required ==> Present(metadata, n))
    && (forall e :: e in schema.fields ==> FieldOk(metadata, e.0, e.1, f))
  }

  method CheckRequired(required: seq<string>, metadata: Metadata) returns (errors: seq<FieldError>)
    ensures errors == [] <==> forall n :: n in required ==> Present(metadata, n)
    ensures forall e :: e in errors <==>
              e.code == Missing && e.position == [] && e.field in required && !Present(metadata, e.field)
  {
    errors := [];
    for i := 0 to |required|
      invariant errors == [] <==> forall n :: n in required[..i] ==> Present(metadata, n)
      invariant forall e :: e in errors <==>
                  e.code == Missing && e.position == [] && e.field in required[..i] && !Present(metadata, e.field)
    {
      if !Present(metadata, required[i]) { errors := errors + [FieldError(required[i], [], Missing)]; }
    }
    assert required[..|required|] == required;
  }

  /** validate: no input type means no check, an unknown one is an error, and otherwise the list
      of errors is empty exactly when the schema accepts the metadata. */
  method Validate(schemas: map<string, Schema>, inputType: Option<string>, metadata: Metadata, f: Foreign)
    returns (errors: seq<FieldError>)
    ensures errors == [] <==>
              inputType.None? || (inputType.value in schemas && Accepts(schemas[inputType.value], metadata, f))
    ensures inputType.Some? && inputType.value !in schemas ==>
              errors == [FieldError("input_type", [], UnknownInputType)]
  {
    if inputType.None? { return []; }
    if inputType.value !in schemas { return [FieldError("input_type", [], UnknownInputType)]; }
    var schema := schemas[inputType.value];
    errors := CheckRequired(schema.required, metadata);
    ghost var requiredOk := errors == [];
    for i := 0 to |schema.fields|
      invariant errors == [] <==>
                  requiredOk && forall k :: 0 <= k < i ==> FieldOk(metadata, schema.fields[k].0, schema.fields[k].1, f)
    {
      var (name, d) := schema.fields[i];
      if d.Some? && name in metadata && !EmptyText(metadata[name]) {
        NoNewErrorIffConforms(errors, name, [], metadata[name], d.value, f);
        errors := ValidateField(errors, name, [], metadata[name], d.value, f);
      }
    }
  }

  // ----- What a tenant can and cannot change -----

  lemma {:induction false} LookupMember(fields: Fields, name: string)
    requires name in Names(fields)
    ensures (name, Lookup(fields, name)) in fields
  {
    if fields[0].0 != name {
      assert name in Names(fields[1..]) by {
        var k :| 0 <= k < |fields| && fields[k].0 == name;
        assert fields[1..][k - 1].0 == name;
      }
      LookupMember(fields[1..], name);
    }
  }

  lemma {:induction false} ReplacedMembers(common: Fields, domain: Fields, e: (string, Option<FieldDef>))
    ensures e in Replaced(common, domain) <==>
            (e.0 in Names(common) && e.0 in Names(domain) && e.1 == Lookup(domain, e.0))
            || (e in common && e.0 !in Names(domain))
  {
    if common != [] {
      ReplacedMembers(common[1..], domain, e);
      assert common == [common[0]] + common[1..];
      assert e.0 in Names(common) <==> e.0 == common[0].0 || e.0 in Names(common[1..]) by { NamesCons(common, e.0); }
    }
  }

  lemma {:induction false} NamesCons(fields: Fields, name: string)
    requires fields != []
    ensures name in Names(fields) <==> name == fields[0].0 || name in Names(fields[1..])
  {}

  lemma {:induction false} AddedMembers(domain: Fields, known: set<string>, e: (string, Option<FieldDef>))
    ensures e in Added(domain, known) <==> e in domain && e.0 !in known
  {
    if domain != [] {
      AddedMembers(domain[1..], known, e);
      assert domain == [domain[0]] + domain[1..];
    }
  }

  lemma {:induction false} DropInjectedMembers(fields: Fields, e: (string, Option<FieldDef>))
    ensures e in DropInjected(fields) <==> e in fields && !Injected(e.0)
  {
    if fields != [] {
      DropInjectedMembers(fields[1..], e);
      assert fields == [fields[0]] + fields[1..];
    }
  }

  /** The tenant's definition of a name wins; a platform definition stays where the tenant is
      silent and the endpoint does not supply the field. */
  lemma {:induction false} OverrideMembers(common: Fields, domain: Fields, e: (string, Option<FieldDef>))
    requires UniqueNames(domain)
    ensures e in Override(DropInjected(common), domain) <==>
            e in domain || (e in common && !Injected(e.0) && e.0 !in Names(domain))
  {
    var kept := DropInjected(common);
    ReplacedMembers(kept, domain, e);
    AddedMembers(domain, Names(kept), e);
    DropInjectedMembers(common, e);
    if e.0 in Names(domain) {
      LookupMember(domain, e.0);
      if e in domain {
        var j :| 0 <= j < |domain| && domain[j] == (e.0, Lookup(domain, e.0));
        var k :| 0 <= k < |domain| && domain[k] == e;
        assert j == k;
      }
    }
  }

  lemma DomainRequiredMembers(fields: Fields)
    ensures forall n :: n in DomainRequired(fields) <==>
              exists e :: e in fields && e.0 == n && e.1.Some? && e.1.value.required
  {}

  /** A composed schema accepts metadata exactly when the platform's and the tenant's required
      fields are present, every tenant definition holds, and every platform definition the tenant
      did not replace holds. */
  lemma {:induction false} CompositionMeaning(schema: Schema, common: Common, domain: Fields, metadata: Metadata,
      f: Foreign)
    requires UniqueNames(domain) && IsComposition(schema, common, domain)
    ensures Accepts(schema, metadata, f) <==>
            && (forall n :: n in common.required && !Injected(n) ==> Present(metadata, n))
            && (forall e :: e in domain && e.1.Some? && e.1.value.required ==> Present(metadata, e.0))
            && (forall e :: e in domain ==> FieldOk(metadata, e.0, e.1, f))
            && (forall e :: e in common.fields && !Injected(e.0) && e.0 !in Names(domain) ==>
                  FieldOk(metadata, e.0, e.1, f))
  {
    DomainRequiredMembers(domain);
    WithoutInjectedMembers(common.required);
    forall e
      ensures e in schema.fields <==> e in domain || (e in common.fields && !Injected(e.0) && e.0 !in Names(domain))
    {
      OverrideMembers(common.fields, domain, e);
    }
  }

  /** No tenant schema, however it redefines fields, accepts metadata that lacks a field the
      platform requires, apart from the two the endpoint supplies. */
  lemma {:induction false} PlatformRequiredCannotBeDropped(schema: Schema, common: Common, domain: Fields,
      metadata: Metadata, f: Foreign, name: string)
    requires IsComposition(schema, common, domain) && Accepts(schema, metadata, f)
    requires name in common.required && name != "domain_id" && name != "input_type"
    ensures name in metadata && metadata[name] != Null && metadata[name] != Str("") && metadata[name] != List([])
  {
    WithoutInjectedMembers(common.required);
    assert name in schema.required;
  }
}
