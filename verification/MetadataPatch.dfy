/** PATCH of a document's metadata: what is validated is a merged view, what is stored is the patch
    itself. This module proves when the stored document conforms to what was validated. */
module MetadataPatch {
  import opened Wrappers
  import opened InputSchema
  import opened SchemaComposition

  /** The patchable columns of a documents row, and its metadata column. */
  datatype Document = Document(columns: map<string, Value>, metadata: Metadata)

  /** Which columns there are. view: those the validation view shows, besides acl, which comes from
      the chunks. stored: those update_partial writes, besides the metadata column. defaults: what
      a falsy stored value of a column reads back as. */
  datatype Layout = Layout(view: set<string>, stored: set<string>, defaults: map<string, Value>,
                           acl: string, metadata: string, inputType: string)

  const DOCUMENTS: Layout := Layout(
    {"title", "security_level", "owner", "tags", "valid_from", "valid_until", "department", "doc_type", "input_type"},
    {"title", "security_level", "owner", "tags", "valid_from", "valid_until", "department", "doc_type", "input_type",
     "source_type", "object_storage_path", "language"},
    map["tags" := List([]), "security_level" := Str("internal"), "language" := Str("ko")],
    "acl", "metadata", "input_type")

  ghost predicate Proper(l: Layout) {
    && l.view <= l.stored && l.acl !in l.stored && l.metadata !in l.stored && l.acl != l.metadata
    && l.inputType in l.view && l.inputType !in l.defaults
  }

  lemma DocumentsProper()
    ensures Proper(DOCUMENTS)
  {}

  ghost predicate WellTyped(l: Layout, doc: Document) {
    doc.columns.Keys == l.stored
  }

  predicate Falsy(v: Value) {
    v == Null || v == Bool(false) || v == Int(0) || v == Float(0.0) || v == Str("") || v == List([]) || v == Obj(map[])
  }

  function ReadBack(l: Layout, column: string, v: Value): Value {
    if column in l.defaults && Falsy(v) then l.defaults[column] else v
  }

  function PatchedMetadata(l: Layout, patch: Metadata): Metadata {
    if l.metadata in patch && patch[l.metadata].Obj? then patch[l.metadata].members else map[]
  }

  function Restrict(m: Metadata, names: set<string>): Metadata {
    map k | k in m && k in names :: m[k]
  }

  /** The validation view of a stored document. */
  function View(l: Layout, doc: Document, acl: Value): Metadata {
    Restrict(doc.columns, l.view)[l.acl := acl] + doc.metadata
  }

  /** The view the validator is given: the document's view, then the patch's columns, then the
      patch's metadata, each over what came before. */
  function Merged(l: Layout, doc: Document, patch: Metadata, acl: Value): Metadata {
    View(l, doc, acl) + (patch - {l.metadata}) + PatchedMetadata(l, patch)
  }

  /** update_partial: known columns are replaced, the metadata column as a whole. */
  function Stored(l: Layout, doc: Document, patch: Metadata): Document {
    Document(
      map k | k in doc.columns :: if k in patch then ReadBack(l, k, patch[k]) else doc.columns[k],
      if l.metadata in patch then PatchedMetadata(l, patch) else doc.metadata)
  }

  // ----- The same, key by key -----

  /** Nothing to speak of: null, false, zero or empty. */
  predicate IsNothing(v: Value) {
    match v
    case Null => true
    case Bool(b) => !b
    case Int(i) => i == 0
    case Float(r) => r == 0.0
    case Str(s) => |s| == 0
    case List(items) => |items| == 0
    case Obj(members) => |members| == 0
  }

  /** What a patch leaves in the row: a patched column holds the patched value, or its default where
      it has one and nothing was patched in; the metadata is replaced as a whole; the rest stays. */
  ghost predicate StoredAsAsked(l: Layout, doc: Document, patch: Metadata, after: Document) {
    && after.columns.Keys == doc.columns.Keys
    && (forall k :: k in doc.columns && k !in patch ==> after.columns[k] == doc.columns[k])
    && (forall k :: k in doc.columns && k in patch && !(k in l.defaults && IsNothing(patch[k])) ==>
          after.columns[k] == patch[k])
    && (forall k :: k in doc.columns && k in patch && k in l.defaults && IsNothing(patch[k]) ==>
          after.columns[k] == l.defaults[k])
    && (l.metadata !in patch ==> after.metadata == doc.metadata)
    && (l.metadata in patch ==>
          after.metadata == match patch[l.metadata] case Obj(members) => members case _ => map[])
  }

  /** Where the validator's value of a key comes from: the patch's metadata, its column, the stored
      metadata, the chunks' acl, the stored column, in this order. */
  ghost predicate ValidatedFrom(l: Layout, doc: Document, patch: Metadata, acl: Value, m: Metadata, k: string) {
    if l.metadata in patch && patch[l.metadata].Obj? && k in patch[l.metadata].members then
      k in m && m[k] == patch[l.metadata].members[k]
    else if k in patch && k != l.metadata then k in m && m[k] == patch[k]
    else if k in doc.metadata then k in m && m[k] == doc.metadata[k]
    else if k == l.acl then k in m && m[k] == acl
    else if k in l.view && k in doc.columns then k in m && m[k] == doc.columns[k]
    else k !in m
  }

  lemma {:induction false} FalsyIsNothing(v: Value)
    ensures Falsy(v) <==> IsNothing(v)
  {
    if v.Obj? { assert |v.members| == 0 <==> v.members == map[]; }
  }

  lemma {:induction false} StoredMeaning(l: Layout, doc: Document, patch: Metadata)
    ensures StoredAsAsked(l, doc, patch, Stored(l, doc, patch))
  {
    forall v: Value ensures Falsy(v) <==> IsNothing(v) {
      FalsyIsNothing(v);
    }
  }

  lemma {:induction false} MergedMeaning(l: Layout, doc: Document, patch: Metadata, acl: Value, k: string)
    ensures ValidatedFrom(l, doc, patch, acl, Merged(l, doc, patch, acl), k)
  {}

  /** A view shows the stored metadata, the chunks' acl and the viewed columns, in this order. */
  lemma {:induction false} ViewMeaning(l: Layout, doc: Document, acl: Value, k: string)
    ensures ValidatedFrom(l, doc, map[], acl, View(l, doc, acl), k)
  {}

  /** A patched value that is something is read back as itself in the view of the stored row, unless
      a metadata key has the column's name. */
  lemma {:induction false} SomethingReadsBack(l: Layout, doc: Document, patch: Metadata, acl: Value, column: string)
    requires Proper(l) && WellTyped(l, doc) && column in l.view && column in patch && !IsNothing(patch[column])
    requires column !in Stored(l, doc, patch).metadata
    ensures var s := View(l, Stored(l, doc, patch), acl);
            column in s && s[column] == patch[column]
  {
    StoredMeaning(l, doc, patch);
    ViewMeaning(l, Stored(l, doc, patch), acl, column);
  }

  /** A documents row: nothing patched into the security level, the language or the tags reads back
      as internal, ko and no tags, and as what was patched in any other column; three columns are
      written and not viewed. */
  lemma {:induction false} DocumentsReadBack(doc: Document, acl: Value, k: string, v: Value, m: Metadata)
    requires WellTyped(DOCUMENTS, doc) && k in doc.columns && IsNothing(v)
    ensures Stored(DOCUMENTS, doc, map[k := v]).columns[k] ==
            if k == "security_level" then Str("internal") else if k == "language" then Str("ko")
            else if k == "tags" then List([]) else v
    ensures k in DOCUMENTS.view <==> k != "source_type" && k != "object_storage_path" && k != "language"
    ensures Stored(DOCUMENTS, doc, map["metadata" := Obj(m)]).metadata == m
    ensures "acl" !in doc.metadata ==> "acl" in View(DOCUMENTS, doc, acl) && View(DOCUMENTS, doc, acl)["acl"] == acl
  {
    FalsyIsNothing(v);
  }

  /** base holds start with the entries of patch over it, those still to do excepted. */
  ghost predicate Overlaid<K(!new), V>(base: map<K, V>, start: map<K, V>, patch: map<K, V>, todo: set<K>) {
    forall x {:trigger x in base} :: if x in patch && x !in todo then x in base && base[x] == patch[x]
                                     else (x in base <==> x in start) && (x in base ==> base[x] == start[x])
  }

  lemma OverlayStep<K(!new), V>(base: map<K, V>, start: map<K, V>, patch: map<K, V>, todo: set<K>, k: K)
    requires Overlaid(base, start, patch, todo) && k in todo && k in patch
    ensures Overlaid(base[k := patch[k]], start, patch, todo - {k})
  {}

  lemma OverlayDone<K(!new), V>(base: map<K, V>, start: map<K, V>, patch: map<K, V>, except: K)
    requires Overlaid(base, start, patch, {except})
    ensures base == start + (patch - {except})
  {}

  /** Puts every entry but one over a map, key by key. */
  method Overlay<K(==, !new), V>(start: map<K, V>, patch: map<K, V>, except: K) returns (base: map<K, V>)
    ensures base == start + (patch - {except})
  {
    base := start;
    var todo := patch.Keys - {except};
    while todo != {}
      invariant todo <= patch.Keys && except !in todo
      invariant Overlaid(base, start, patch, todo + {except})
      decreases todo
    {
      var k :| k in todo;
      OverlayStep(base, start, patch, todo + {except}, k);
      assert todo + {except} - {k} == (todo - {k}) + {except};
      base, todo := base[k := patch[k]], todo - {k};
    }
    assert todo + {except} == {except};
    OverlayDone(base, start, patch, except);
  }

  /** _merge_for_validation. */
  method MergeForValidation(l: Layout, doc: Document, patch: Metadata, acl: Value) returns (base: Metadata)
    ensures base == Merged(l, doc, patch, acl)
    ensures forall k :: ValidatedFrom(l, doc, patch, acl, base, k)
  {
    base := Overlay(View(l, doc, acl), patch, l.metadata);
    base := base + PatchedMetadata(l, patch);
    forall k ensures ValidatedFrom(l, doc, patch, acl, base, k) {
      MergedMeaning(l, doc, patch, acl, k);
    }
  }

  /** The input type a view names, with the existing one as fallback; none means no check. */
  function InputTypeOf(l: Layout, view: Metadata, existing: Value): Option<Value> {
    var named := if l.inputType in view then view[l.inputType] else Null;
    if !Falsy(named) then Some(named) else if !Falsy(existing) then Some(existing) else None
  }

  /** The named type if it is something, or else the existing one if that is. */
  lemma {:induction false} InputTypeMeaning(l: Layout, view: Metadata, existing: Value)
    ensures var t, named := InputTypeOf(l, view, existing), l.inputType in view && !IsNothing(view[l.inputType]);
            && (named ==> t == Some(view[l.inputType]))
            && (!named && !IsNothing(existing) ==> t == Some(existing))
            && (!named && IsNothing(existing) ==> t == None)
  {
    FalsyIsNothing(existing);
    if l.inputType in view { FalsyIsNothing(view[l.inputType]); }
  }

  ghost predicate Valid(l: Layout, schemas: map<string, Schema>, view: Metadata, existing: Value, f: Foreign) {
    var t := InputTypeOf(l, view, existing);
    t.Some? ==> t.value.Str? && t.value.s in schemas && Accepts(schemas[t.value.s], view, f)
  }

  /** update up to the document row: rejected patches change nothing, accepted ones are stored. */
  method Update(l: Layout, doc: Document, patch: Metadata, acl: Value, schemas: map<string, Schema>, f: Foreign)
    returns (result: Option<Document>)
    requires Proper(l) && WellTyped(l, doc)
    ensures result.Some? <==> Valid(l, schemas, Merged(l, doc, patch, acl), doc.columns[l.inputType], f)
    ensures result.Some? ==> result.value == Stored(l, doc, patch) && StoredAsAsked(l, doc, patch, result.value)
  {
    StoredMeaning(l, doc, patch);
    var merged := MergeForValidation(l, doc, patch, acl);
    var t := InputTypeOf(l, merged, doc.columns[l.inputType]);
    if t.Some? {
      if !t.value.Str? { return None; }
      var errors := Validate(schemas, Some(t.value.s), merged, f);
      if errors != [] { return None; }
    }
    result := Some(Stored(l, doc, patch));
  }

  // ----- What no schema can tell apart -----

  /** A value read where v was validated does no harm: the same value, or a missing one for a blank. */
  ghost predicate Agrees(v: Value, w: Value) {
    v == w || (Blank(v) && EmptyText(w))
  }

  /** Whatever was validated under a key is still there when the stored document is viewed. */
  ghost predicate Carries(m: Metadata, s: Metadata, k: string) {
    if k in s then (if k in m then Agrees(m[k], s[k]) else EmptyText(s[k])) else k in m ==> Blank(m[k])
  }

  /** Lists and objects do not differ by the spelling of a number alone, as [1] and [1.0] do. */
  ghost predicate Tellable(m: Metadata, s: Metadata, k: string) {
    k in m && k in s && (m[k].List? || m[k].Obj?) && LooselyEqual(m[k], s[k]) ==> m[k] == s[k]
  }

  ghost predicate Preserved(m: Metadata, s: Metadata) {
    forall schema: Schema, f: Foreign :: Accepts(schema, m, f) ==> Accepts(schema, s, f)
  }

  function AnySearch(): Foreign {
    Foreign((p, v) => true, (v, t) => true)
  }

  function Only(types: Option<TypeSpec>, choices: Option<seq<Value>>, minimum: Option<real>): FieldDef {
    FieldDef(types, choices, None, minimum, None, Bound(None, None), Bound(None, None),
             None, None, Bound(None, None), false)
  }

  /** A definition without items is about the value itself. */
  lemma {:induction false} FlatConforms(v: Value, d: FieldDef, f: Foreign)
    requires d.items.None?
    ensures Conforms(v, d, f) <==> LocalOk(v, d, f)
  {
    assert At(v, d, []) == Some((v, d));
  }

  /** Two values that differ, and not in the spelling of numbers inside them, are told apart by an
      enumeration, a type or a bound. */
  lemma {:induction false} SomeDefinitionTells(v: Value, w: Value) returns (d: FieldDef)
    requires v != w && ((v.List? || v.Obj?) ==> !LooselyEqual(v, w))
    ensures Conforms(v, d, AnySearch()) && !Conforms(w, d, AnySearch())
  {
    if !LooselyEqual(v, w) {
      d := Only(None, Some([v]), None);
      assert v in d.choices.value;
    } else if v.Float? && w.Int? {
      d := Only(None, None, Some(w.i as real + 1.0));
    } else {
      d := Only(Some(Named(if v.Bool? then "boolean" else if v.Int? then "integer" else "number")), None, None);
    }
    FlatConforms(v, d, AnySearch());
    FlatConforms(w, d, AnySearch());
  }

  /** A key that is not carried over is noticed by a schema about that key alone. */
  lemma {:induction false} LossIsSeen(m: Metadata, s: Metadata, k: string)
    requires Tellable(m, s, k) && !Carries(m, s, k)
    ensures !Preserved(m, s)
  {
    if Present(m, k) && !Present(s, k) {
      var schema := Schema([k], []);
      assert k in schema.required;
      assert Accepts(schema, m, AnySearch()) && !Accepts(schema, s, AnySearch());
    } else {
      var d := Only(None, Some([]), None);
      FlatConforms(s[k], d, AnySearch());
      if k in m && !EmptyText(m[k]) { d := SomeDefinitionTells(m[k], s[k]); }
      var schema := Schema([], [(k, Some(d))]);
      assert (k, Some(d)) in schema.fields;
      assert FieldOk(m, k, Some(d), AnySearch()) && !FieldOk(s, k, Some(d), AnySearch());
      assert Accepts(schema, m, AnySearch()) && !Accepts(schema, s, AnySearch());
    }
  }

  /** Every schema that accepts the one accepts the other, exactly when every key is carried over. */
  lemma {:induction false} PreservedIffCarried(m: Metadata, s: Metadata)
    requires forall k :: Tellable(m, s, k)
    ensures Preserved(m, s) <==> forall k :: Carries(m, s, k)
  {
    if k :| !Carries(m, s, k) {
      LossIsSeen(m, s, k);
    } else {
      forall schema: Schema, f: Foreign | Accepts(schema, m, f) ensures Accepts(schema, s, f) {
        CarriedIsAccepted(m, s, schema, f);
      }
    }
  }

  lemma {:induction false} CarriedIsAccepted(m: Metadata, s: Metadata, schema: Schema, f: Foreign)
    requires (forall k :: Carries(m, s, k)) && Accepts(schema, m, f)
    ensures Accepts(schema, s, f)
  {
    forall n | n in schema.required ensures Present(s, n) {
      assert Present(m, n) && Carries(m, s, n);
    }
    forall e | e in schema.fields ensures FieldOk(s, e.0, e.1, f) {
      assert FieldOk(m, e.0, e.1, f) && Carries(m, s, e.0);
    }
  }

  // ----- When the stored document is what was validated -----

  /** The patch sets this key at top level and its metadata does not set it again. */
  ghost predicate PatchesColumn(l: Layout, patch: Metadata, k: string) {
    k in patch && k != l.metadata && k !in PatchedMetadata(l, patch)
  }

  /** A stored metadata key that a metadata patch leaves out gives way to what is below it: the
      column or acl of that name, or nothing. */
  ghost predicate ForgetsNothing(l: Layout, doc: Document, patch: Metadata, acl: Value) {
    l.metadata in patch ==>
      forall k :: k in doc.metadata && k !in PatchedMetadata(l, patch) && !PatchesColumn(l, patch, k) ==>
        var v := doc.metadata[k];
        if k == l.acl then Agrees(v, acl)
        else if k in l.view && k in doc.columns then Agrees(v, doc.columns[k]) else Blank(v)
  }

  /** A patched key that stored metadata also has is hidden by it, unless the metadata is replaced. */
  ghost predicate NothingHidden(l: Layout, doc: Document, patch: Metadata) {
    l.metadata !in patch ==> forall k :: k in doc.metadata && k in patch ==> Agrees(patch[k], doc.metadata[k])
  }

  ghost predicate Exposed(l: Layout, doc: Document, patch: Metadata, k: string) {
    PatchesColumn(l, patch, k) && (l.metadata in patch || k !in doc.metadata)
  }

  /** A patched key the view does not show is dropped, or written where the view does not look. */
  ghost predicate NothingDropped(l: Layout, doc: Document, patch: Metadata) {
    forall k :: Exposed(l, doc, patch, k) && k !in l.view && k != l.acl ==> Blank(patch[k])
  }

  /** acl belongs to the chunks and is not written. */
  ghost predicate AclAsItWas(l: Layout, doc: Document, patch: Metadata, acl: Value) {
    Exposed(l, doc, patch, l.acl) ==> Agrees(patch[l.acl], acl)
  }

  /** A falsy value of a column with a default reads back as the default. */
  ghost predicate ReadsBack(l: Layout, doc: Document, patch: Metadata) {
    forall k :: Exposed(l, doc, patch, k) && k in l.view ==> Agrees(patch[k], ReadBack(l, k, patch[k]))
  }

  ghost predicate Faithful(l: Layout, doc: Document, patch: Metadata, acl: Value) {
    && ForgetsNothing(l, doc, patch, acl) && NothingHidden(l, doc, patch) && NothingDropped(l, doc, patch)
    && AclAsItWas(l, doc, patch, acl) && ReadsBack(l, doc, patch)
  }

  /** The conditions for one key. */
  ghost predicate FaithfulAt(l: Layout, doc: Document, patch: Metadata, acl: Value, k: string)
    requires WellTyped(l, doc)
  {
    if k in doc.metadata && l.metadata in patch && k !in PatchedMetadata(l, patch) && !PatchesColumn(l, patch, k) then
      var v := doc.metadata[k];
      if k == l.acl then Agrees(v, acl)
      else if k in l.view && k in doc.columns then Agrees(v, doc.columns[k]) else Blank(v)
    else if l.metadata !in patch && k in doc.metadata && k in patch then Agrees(patch[k], doc.metadata[k])
    else if Exposed(l, doc, patch, k) then
      if k == l.acl then Agrees(patch[k], acl)
      else if k in l.view then Agrees(patch[k], ReadBack(l, k, patch[k]))
      else Blank(patch[k])
    else true
  }

  lemma {:induction false} CarriesIffFaithfulAt(l: Layout, doc: Document, patch: Metadata, acl: Value, k: string)
    requires Proper(l) && WellTyped(l, doc)
    ensures Carries(Merged(l, doc, patch, acl), View(l, Stored(l, doc, patch), acl), k)
            <==> FaithfulAt(l, doc, patch, acl, k)
  {}

  lemma {:induction false} FaithfulIsPerKey(l: Layout, doc: Document, patch: Metadata, acl: Value)
    requires Proper(l) && WellTyped(l, doc)
    ensures Faithful(l, doc, patch, acl) <==> forall k :: FaithfulAt(l, doc, patch, acl, k)
  {
    if forall k :: FaithfulAt(l, doc, patch, acl, k) {
      forall k | Exposed(l, doc, patch, k)
        ensures if k == l.acl then Agrees(patch[k], acl)
                else if k in l.view then Agrees(patch[k], ReadBack(l, k, patch[k])) else Blank(patch[k])
      {
        assert FaithfulAt(l, doc, patch, acl, k);
      }
      forall k | k in doc.metadata && if l.metadata in patch then k !in PatchedMetadata(l, patch) else k in patch
        ensures FaithfulAt(l, doc, patch, acl, k)
      {}
    }
  }

  /** Whatever schema accepted the merged view also accepts the stored document, exactly when the
      request is faithful in these five ways: validation merges what storage replaces or drops. */
  lemma {:induction false} ConformityKeptIff(l: Layout, doc: Document, patch: Metadata, acl: Value)
    requires Proper(l) && WellTyped(l, doc)
    requires forall k :: Tellable(Merged(l, doc, patch, acl), View(l, Stored(l, doc, patch), acl), k)
    ensures Faithful(l, doc, patch, acl) <==>
            forall schema: Schema, f: Foreign :: Accepts(schema, Merged(l, doc, patch, acl), f)
              ==> Accepts(schema, View(l, Stored(l, doc, patch), acl), f)
  {
    var m, s := Merged(l, doc, patch, acl), View(l, Stored(l, doc, patch), acl);
    FaithfulIsPerKey(l, doc, patch, acl);
    forall k ensures Carries(m, s, k) <==> FaithfulAt(l, doc, patch, acl, k) {
      CarriesIffFaithfulAt(l, doc, patch, acl, k);
    }
    PreservedIffCarried(m, s);
  }

  // ----- Requests that fail -----

  /** One key at fault is enough. */
  lemma {:induction false} OneKeyAtFault(l: Layout, doc: Document, patch: Metadata, acl: Value, k: string)
    requires Proper(l) && WellTyped(l, doc) && !FaithfulAt(l, doc, patch, acl, k)
    requires Tellable(Merged(l, doc, patch, acl), View(l, Stored(l, doc, patch), acl), k)
    ensures exists schema: Schema, f: Foreign :: Accepts(schema, Merged(l, doc, patch, acl), f)
              && !Accepts(schema, View(l, Stored(l, doc, patch), acl), f)
  {
    CarriesIffFaithfulAt(l, doc, patch, acl, k);
    LossIsSeen(Merged(l, doc, patch, acl), View(l, Stored(l, doc, patch), acl), k);
  }

  /** A metadata patch that leaves out a stored key: it is validated from the old document and then
      gone. */
  lemma {:induction false} ForgottenKeyIsLost(l: Layout, doc: Document, acl: Value, key: string, metadata: Metadata)
    requires Proper(l) && WellTyped(l, doc) && key !in l.view && key != l.acl && key != l.metadata
    requires key in doc.metadata && !Blank(doc.metadata[key]) && key !in metadata
    ensures var patch := map[l.metadata := Obj(metadata)];
            exists schema: Schema, f: Foreign :: Accepts(schema, Merged(l, doc, patch, acl), f)
              && !Accepts(schema, View(l, Stored(l, doc, patch), acl), f)
  {
    OneKeyAtFault(l, doc, map[l.metadata := Obj(metadata)], acl, key);
  }

  /** A key the view does not show, stored or unknown: it is validated and then missing. */
  lemma {:induction false} UnviewedKeyIsLost(l: Layout, doc: Document, acl: Value, key: string, v: Value)
    requires Proper(l) && WellTyped(l, doc) && key !in l.view && key != l.acl && key != l.metadata
    requires key !in doc.metadata && !Blank(v)
    ensures exists schema: Schema, f: Foreign :: Accepts(schema, Merged(l, doc, map[key := v], acl), f)
              && !Accepts(schema, View(l, Stored(l, doc, map[key := v]), acl), f)
  {
    OneKeyAtFault(l, doc, map[key := v], acl, key);
  }

  /** A patched acl is validated and then ignored. */
  lemma {:induction false} PatchedAclIsIgnored(l: Layout, doc: Document, acl: Value, names: seq<Value>)
    requires Proper(l) && WellTyped(l, doc) && l.acl !in doc.metadata
    requires acl.List? && !LooselyEqual(List(names), acl)
    ensures exists schema: Schema, f: Foreign :: Accepts(schema, Merged(l, doc, map[l.acl := List(names)], acl), f)
              && !Accepts(schema, View(l, Stored(l, doc, map[l.acl := List(names)]), acl), f)
  {
    OneKeyAtFault(l, doc, map[l.acl := List(names)], acl, l.acl);
  }

  /** A metadata key named like a patched column: the column wins when the patch is validated, the
      metadata key when the document is read. */
  lemma {:induction false} CollidingKeyWinsBack(l: Layout, doc: Document, acl: Value, column: string, text: string)
    requires Proper(l) && WellTyped(l, doc) && column in l.view && column in doc.metadata
    requires !EmptyText(doc.metadata[column]) && doc.metadata[column] != Str(text)
    ensures var patch := map[column := Str(text)];
            && Merged(l, doc, patch, acl)[column] == Str(text)
            && View(l, Stored(l, doc, patch), acl)[column] == doc.metadata[column]
            && exists schema: Schema, f: Foreign :: Accepts(schema, Merged(l, doc, patch, acl), f)
                 && !Accepts(schema, View(l, Stored(l, doc, patch), acl), f)
  {
    OneKeyAtFault(l, doc, map[column := Str(text)], acl, column);
  }

  /** A falsy value of a column with a default is validated as it is and reads back as the default:
      an empty security level comes back as "internal". */
  lemma {:induction false} FalsyReadsBackAsDefault(l: Layout, doc: Document, acl: Value, column: string, level: string)
    requires Proper(l) && WellTyped(l, doc) && column in l.view && column !in doc.metadata
    requires column in l.defaults && l.defaults[column] == Str(level) && level != ""
    ensures var patch := map[column := Str("")];
            && View(l, Stored(l, doc, patch), acl)[column] == Str(level)
            && exists schema: Schema, f: Foreign :: Accepts(schema, Merged(l, doc, patch, acl), f)
                 && !Accepts(schema, View(l, Stored(l, doc, patch), acl), f)
  {
    OneKeyAtFault(l, doc, map[column := Str("")], acl, column);
  }

  // ----- Whole requests -----

  /** The metadata of a patch that switches the input type does not hide the switch from validation. */
  ghost predicate SwitchIsSeen(l: Layout, doc: Document, patch: Metadata)
    requires l.inputType in doc.columns
  {
    var t, pm := l.inputType, PatchedMetadata(l, patch);
    t in patch && t in pm && Falsy(pm[t]) ==> Falsy(patch[t]) || patch[t] == doc.columns[t]
  }

  /** The document is valid for the schema of its input type. */
  ghost predicate ValidDocument(l: Layout, doc: Document, acl: Value, schemas: map<string, Schema>, f: Foreign)
    requires l.inputType in doc.columns
  {
    Valid(l, schemas, View(l, doc, acl), doc.columns[l.inputType], f)
  }

  /** A faithful patch that is accepted leaves a valid document, blanks aside with the very values
      that were validated, whatever the schemas. */
  lemma {:induction false} AcceptedPatchConforms(l: Layout, doc: Document, patch: Metadata, acl: Value,
      schemas: map<string, Schema>, f: Foreign)
    requires Proper(l) && WellTyped(l, doc) && Faithful(l, doc, patch, acl) && SwitchIsSeen(l, doc, patch)
    requires Valid(l, schemas, Merged(l, doc, patch, acl), doc.columns[l.inputType], f)
    ensures forall k :: Carries(Merged(l, doc, patch, acl), View(l, Stored(l, doc, patch), acl), k)
    ensures ValidDocument(l, Stored(l, doc, patch), acl, schemas, f)
  {
    var m, s := Merged(l, doc, patch, acl), View(l, Stored(l, doc, patch), acl);
    FaithfulIsPerKey(l, doc, patch, acl);
    forall k ensures Carries(m, s, k) {
      CarriesIffFaithfulAt(l, doc, patch, acl, k);
    }
    assert Carries(m, s, l.inputType);
    var t := InputTypeOf(l, m, doc.columns[l.inputType]);
    var t' := InputTypeOf(l, s, Stored(l, doc, patch).columns[l.inputType]);
    assert t' == t || t' == None;
    if t'.Some? { CarriedIsAccepted(m, s, schemas[t.value.s], f); }
  }

  /** A patch that sets a new input type as a column and a falsy one in its metadata is validated
      against the old type, or not at all, and stored with the new one, which may not even exist. */
  lemma {:induction false} HiddenSwitchIsNotValidated(l: Layout, doc: Document, patch: Metadata, acl: Value)
    returns (schemas: map<string, Schema>)
    requires Proper(l) && WellTyped(l, doc)
    requires (doc.columns[l.inputType].Str? || Falsy(doc.columns[l.inputType])) && !SwitchIsSeen(l, doc, patch)
    ensures Valid(l, schemas, Merged(l, doc, patch, acl), doc.columns[l.inputType], AnySearch())
    ensures !ValidDocument(l, Stored(l, doc, patch), acl, schemas, AnySearch())
  {
    schemas := if Falsy(doc.columns[l.inputType]) then map[] else map[doc.columns[l.inputType].s := Schema([], [])];
    var s := View(l, Stored(l, doc, patch), acl);
    assert InputTypeOf(l, s, Stored(l, doc, patch).columns[l.inputType]) == Some(patch[l.inputType]);
  }
}
