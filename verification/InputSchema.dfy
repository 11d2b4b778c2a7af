/** The recursive validator of one metadata field. The list of errors it builds is proved to be
    exactly the set of violated keywords at the positions it can reach, and emptiness of that list
    to be a declarative conformance relation. */
module InputSchema {
  import opened Wrappers

  datatype Value =
    | Null
    | Bool(b: bool)
    | Int(i: int)
    | Float(r: real)
    | Str(s: string)
    | List(items: seq<Value>)
    | Obj(members: map<string, Value>)

  /** Equality of the source language does not tell true from 1 or 1 from 1.0. */
  function Canon(v: Value): Value {
    match v
    case Bool(b) => Float(if b then 1.0 else 0.0)
    case Int(i) => Float(i as real)
    case List(items) => List(seq(|items|, k requires 0 <= k < |items| => Canon(items[k])))
    case Obj(members) => Obj(map k | k in members :: Canon(members[k]))
    case _ => v
  }

  predicate LooselyEqual(a: Value, b: Value) {
    Canon(a) == Canon(b)
  }

  function NumberOf(v: Value): Option<real> {
    match v
    case Bool(b) => Some(if b then 1.0 else 0.0)
    case Int(i) => Some(i as real)
    case Float(r) => Some(r)
    case _ => None
  }

  /** The same value: numbers and truth values by their number, lists and objects part by part. */
  predicate SameValue(a: Value, b: Value) {
    match a
    case Null => b.Null?
    case Str(s) => b.Str? && s == b.s
    case List(items) =>
      b.List? && |items| == |b.items| && forall k :: 0 <= k < |items| ==> SameValue(items[k], b.items[k])
    case Obj(members) =>
      b.Obj? && members.Keys == b.members.Keys && forall k :: k in members ==> SameValue(members[k], b.members[k])
    case _ => NumberOf(b) == NumberOf(a)
  }

  lemma {:induction false} LooseIsSame(a: Value, b: Value)
    ensures LooselyEqual(a, b) <==> SameValue(a, b)
  {
    match a
    case List(items) =>
      if b.List? && |items| == |b.items| {
        forall k | 0 <= k < |items| ensures Canon(items[k]) == Canon(b.items[k]) <==> SameValue(items[k], b.items[k]) {
          LooseIsSame(items[k], b.items[k]);
        }
        var c, d := Canon(a).items, Canon(b).items;
        assert forall k :: 0 <= k < |items| ==> c[k] == Canon(items[k]) && d[k] == Canon(b.items[k]);
      } else if b.List? {
        assert |Canon(a).items| != |Canon(b).items|;
      }
    case Obj(members) =>
      if b.Obj? && members.Keys == b.members.Keys {
        forall k | k in members
          ensures Canon(members[k]) == Canon(b.members[k]) <==> SameValue(members[k], b.members[k])
        {
          LooseIsSame(members[k], b.members[k]);
        }
        var c, d := Canon(a).members, Canon(b).members;
        assert forall k :: k in members ==> c[k] == Canon(members[k]) && d[k] == Canon(b.members[k]);
      } else if b.Obj? {
        assert Canon(a).members.Keys == members.Keys && Canon(b).members.Keys == b.members.Keys;
      }
    case _ =>
  }

  datatype TypeSpec = Named(name: string) | Union(options: seq<TypeSpec>)

  /** A bound that may be spelled in either of two ways. */
  datatype Bound = Bound(snake: Option<int>, camel: Option<int>)

  datatype FieldDef = FieldDef(
    types: Option<TypeSpec>,
    choices: Option<seq<Value>>,
    pattern: Option<string>,
    minimum: Option<real>,
    maximum: Option<real>,
    minLength: Bound,
    maxLength: Bound,
    format: Option<string>,
    items: Option<FieldDef>,
    minItems: Bound,
    required: bool)

  /** Regular expressions and date formats belong to foreign libraries. */
  datatype Foreign = Foreign(search: (string, string) -> bool, formatOk: (string, string) -> bool)

  /** fdef.get(snake) or fdef.get(camel): a zero in the first spelling counts as absent. */
  function Effective(b: Bound): Option<int> {
    if b.snake.Some? && b.snake.value != 0 then b.snake else b.camel
  }

  /** The first spelling counts if it is given and not zero, and the second one otherwise. */
  lemma {:induction false} BoundMeaning(b: Bound)
    ensures b.snake.Some? && b.snake.value != 0 ==> Effective(b) == Some(b.snake.value)
    ensures b.snake.None? || b.snake.value == 0 ==> Effective(b) == b.camel
  {}

  predicate TypeMatch(v: Value, t: TypeSpec) {
    match t
    case Union(options) =>
      exists k :: 0 <= k < |options| && ((options[k] == Named("null") && v.Null?) || TypeMatch(v, options[k]))
    case Named(name) =>
      if name == "string" then v.Str?
      else if name == "integer" then v.Int?
      else if name == "number" then v.Int? || v.Float?
      else if name == "boolean" then v.Bool?
      else if name == "array" then v.List?
      else if name == "object" then v.Obj?
      else if name == "null" then v.Null?
      else true
  }

  /** An absent, empty-string or empty-list type constrains nothing. */
  predicate TypeOk(v: Value, d: FieldDef) {
    match d.types
    case None => true
    case Some(t) => t == Named("") || t == Union([]) || TypeMatch(v, t)
  }

  // ----- Types by name -----

  /** The one type name a value carries. */
  function TypeName(v: Value): string {
    match v
    case Null => "null"
    case Bool(_) => "boolean"
    case Int(_) => "integer"
    case Float(_) => "number"
    case Str(_) => "string"
    case List(_) => "array"
    case Obj(_) => "object"
  }

  predicate KnownType(name: string) {
    || name == "null" || name == "boolean" || name == "integer" || name == "number"
    || name == "string" || name == "array" || name == "object"
  }

  /** A known name admits the values that carry it, and integers where numbers are asked for; an
      unknown name admits everything; a union what one of its options admits. */
  predicate Admits(t: TypeSpec, v: Value) {
    match t
    case Named(name) => KnownType(name) ==> name == TypeName(v) || (name == "number" && TypeName(v) == "integer")
    case Union(options) => exists k :: 0 <= k < |options| && Admits(options[k], v)
  }

  lemma {:induction false} AdmitsIsMatch(t: TypeSpec, v: Value)
    ensures TypeMatch(v, t) <==> Admits(t, v)
  {
    if t.Union? {
      forall k | 0 <= k < |t.options| ensures TypeMatch(v, t.options[k]) <==> Admits(t.options[k], v) {
        AdmitsIsMatch(t.options[k], v);
      }
    }
  }

  /** A definition asks for a type unless it has none or an empty list of them. */
  predicate TypeRefused(v: Value, types: Option<TypeSpec>) {
    types.Some? && types.value != Union([]) && !Admits(types.value, v)
  }

  lemma {:induction false} RefusedIsNotOk(v: Value, d: FieldDef)
    ensures TypeOk(v, d) <==> !TypeRefused(v, d.types)
  {
    if d.types.Some? { AdmitsIsMatch(d.types.value, v); }
  }

  datatype Code = Missing | Type | Enum | Pattern | Range | Length | Format | UnknownInputType

  // ----- Declarative meaning of the keywords at one position -----

  ghost predicate EnumOk(v: Value, d: FieldDef) {
    d.choices.Some? ==> exists c :: c in d.choices.value && LooselyEqual(v, c)
  }

  predicate PatternOk(v: Value, d: FieldDef, f: Foreign) {
    d.pattern.Some? && v.Str? ==> f.search(d.pattern.value, v.s)
  }

  predicate RangeOk(v: Value, d: FieldDef) {
    v.Int? ==> (d.minimum.Some? ==> v.i as real >= d.minimum.value)
               && (d.maximum.Some? ==> v.i as real <= d.maximum.value)
  }

  predicate LengthOk(v: Value, d: FieldDef) {
    && (v.Str? ==> (Effective(d.minLength).Some? ==> |v.s| >= Effective(d.minLength).value)
                   && (Effective(d.maxLength).Some? ==> |v.s| <= Effective(d.maxLength).value))
    && (v.List? ==> Effective(d.minItems).Some? ==> |v.items| >= Effective(d.minItems).value)
  }

  predicate FormatOk(v: Value, d: FieldDef, f: Foreign) {
    v.Str? && d.format.Some? && d.format.value != "" ==> f.formatOk(v.s, d.format.value)
  }

  ghost predicate LocalOk(v: Value, d: FieldDef, f: Foreign) {
    TypeOk(v, d) && EnumOk(v, d) && PatternOk(v, d, f) && RangeOk(v, d) && LengthOk(v, d) && FormatOk(v, d, f)
  }

  /** The value and definition at a position of nested arrays, where both exist. */
  function At(v: Value, d: FieldDef, position: seq<nat>): Option<(Value, FieldDef)> {
    if position == [] then Some((v, d))
    else if v.List? && position[0] < |v.items| && d.items.Some?
      then At(v.items[position[0]], d.items.value, position[1..])
    else None
  }

  /** Every keyword holds at every position, at any depth. */
  ghost predicate Conforms(v: Value, d: FieldDef, f: Foreign) {
    forall position: seq<nat> :: At(v, d, position).Some? ==>
      var (v', d') := At(v, d, position).value; LocalOk(v', d', f)
  }

  // ----- The validator -----

  datatype FieldError = FieldError(field: string, position: seq<nat>, code: Code)

  function AddIf(errors: seq<FieldError>, violated: bool, e: FieldError): seq<FieldError> {
    if violated then errors + [e] else errors
  }

  ghost function ValueErrors(errors: seq<FieldError>, field: string, position: seq<nat>, v: Value, d: FieldDef,
      f: Foreign): seq<FieldError> {
    var e1 := AddIf(errors, !EnumOk(v, d), FieldError(field, position, Enum));
    var e2 := AddIf(e1, !PatternOk(v, d, f), FieldError(field, position, Pattern));
    var e3 := AddIf(e2, v.Int? && d.minimum.Some? && (v.i as real) < d.minimum.value,
      FieldError(field, position, Range));
    AddIf(e3, v.Int? && d.maximum.Some? && v.i as real > d.maximum.value, FieldError(field, position, Range))
  }

  ghost function TextErrors(errors: seq<FieldError>, field: string, position: seq<nat>, v: Value, d: FieldDef,
      f: Foreign): seq<FieldError> {
    var lo, hi := Effective(d.minLength), Effective(d.maxLength);
    var e1 := AddIf(errors, v.Str? && lo.Some? && |v.s| < lo.value, FieldError(field, position, Length));
    var e2 := AddIf(e1, v.Str? && hi.Some? && |v.s| > hi.value, FieldError(field, position, Length));
    AddIf(e2, !FormatOk(v, d, f), FieldError(field, position, Format))
  }

  /** The keywords checked before the items of an array, appended in the order of the code. */
  ghost function ScalarErrors(errors: seq<FieldError>, field: string, position: seq<nat>, v: Value, d: FieldDef,
      f: Foreign): seq<FieldError> {
    TextErrors(ValueErrors(errors, field, position, v, d, f), field, position, v, d, f)
  }

  predicate TooFewItems(v: Value, d: FieldDef) {
    v.List? && Effective(d.minItems).Some? && |v.items| < Effective(d.minItems).value
  }

  method CheckScalars(errors: seq<FieldError>, field: string, position: seq<nat>, v: Value, d: FieldDef, f: Foreign)
    returns (all: seq<FieldError>)
    ensures all == ScalarErrors(errors, field, position, v, d, f)
  {
    all := errors;
    if d.choices.Some? {
      var found := AmongChoices(v, d.choices.value);
      if !found { all := all + [FieldError(field, position, Enum)]; }
    }
    if d.pattern.Some? && v.Str? {
      if !f.search(d.pattern.value, v.s) { all := all + [FieldError(field, position, Pattern)]; }
    }
    if v.Int? {
      if d.minimum.Some? && (v.i as real) < d.minimum.value { all := all + [FieldError(field, position, Range)]; }
      if d.maximum.Some? && v.i as real > d.maximum.value { all := all + [FieldError(field, position, Range)]; }
    }
    if v.Str? {
      var lo, hi := Effective(d.minLength), Effective(d.maxLength);
      if lo.Some? && |v.s| < lo.value { all := all + [FieldError(field, position, Length)]; }
      if hi.Some? && |v.s| > hi.value { all := all + [FieldError(field, position, Length)]; }
      if d.format.Some? && d.format.value != "" {
        if !f.formatOk(v.s, d.format.value) { all := all + [FieldError(field, position, Format)]; }
      }
    }
  }

  method AmongChoices(v: Value, choices: seq<Value>) returns (found: bool)
    ensures found <==> exists c :: c in choices && LooselyEqual(v, c)
    ensures found <==> exists c :: c in choices && SameValue(v, c)
  {
    forall c | c in choices ensures LooselyEqual(v, c) <==> SameValue(v, c) {
      LooseIsSame(v, c);
    }
    found := false;
    for k := 0 to |choices|
      invariant found <==> exists c :: c in choices[..k] && LooselyEqual(v, c)
    {
      found := found || LooselyEqual(v, choices[k]);
    }
    assert choices[..|choices|] == choices;
  }

  ghost function ItemErrors(errors: seq<FieldError>, field: string, position: seq<nat>, items: seq<Value>,
      d: FieldDef, f: Foreign, n: nat): seq<FieldError>
    requires n <= |items|
    decreases items, n
  {
    if n == 0 then errors
    else Errors(ItemErrors(errors, field, position, items, d, f, n - 1), field, position + [n - 1], items[n - 1], d, f)
  }

  /** The error list after one value was checked: a type error ends the checking of that value. */
  ghost function Errors(errors: seq<FieldError>, field: string, position: seq<nat>, v: Value, d: FieldDef,
      f: Foreign): seq<FieldError>
    decreases v, 1
  {
    if !TypeOk(v, d) then errors + [FieldError(field, position, Type)]
    else ArrayErrors(ScalarErrors(errors, field, position, v, d, f), field, position, v, d, f)
  }

  /** The items of an array, and then their number. */
  ghost function ArrayErrors(errors: seq<FieldError>, field: string, position: seq<nat>, v: Value, d: FieldDef,
      f: Foreign): seq<FieldError>
    decreases v, 0
  {
    var items := if v.List? && d.items.Some?
      then ItemErrors(errors, field, position, v.items, d.items.value, f, |v.items|) else errors;
    AddIf(items, TooFewItems(v, d), FieldError(field, position, Length))
  }

  method ValidateField(errors: seq<FieldError>, field: string, position: seq<nat>, v: Value, d: FieldDef, f: Foreign)
    returns (all: seq<FieldError>)
    ensures all == Errors(errors, field, position, v, d, f)
    ensures errors <= all
    ensures FieldError(field, position, Type) in all[|errors|..] <==> TypeRefused(v, d.types)
    decreases v
  {
    TypeErrorIff(errors, field, position, v, d, f);
    if !TypeOk(v, d) {
      return errors + [FieldError(field, position, Type)];
    }
    all := CheckScalars(errors, field, position, v, d, f);
    if v.List? {
      ghost var scalars := all;
      if d.items.Some? {
        for k := 0 to |v.items|
          invariant all == ItemErrors(scalars, field, position, v.items, d.items.value, f, k)
        {
          all := ValidateField(all, field, position + [k], v.items[k], d.items.value, f);
        }
      }
      if TooFewItems(v, d) { all := all + [FieldError(field, position, Length)]; }
    }
  }

  // ----- What the error list contains -----

  /** The value and definition at a position, reached only through values of the right type. */
  function Reach(v: Value, d: FieldDef, position: seq<nat>): Option<(Value, FieldDef)> {
    if position == [] then Some((v, d))
    else if TypeOk(v, d) && v.List? && position[0] < |v.items| && d.items.Some?
      then Reach(v.items[position[0]], d.items.value, position[1..])
    else None
  }

  ghost predicate Violates(v: Value, d: FieldDef, f: Foreign, code: Code) {
    match code
    case Type => !TypeOk(v, d)
    case Enum => TypeOk(v, d) && !EnumOk(v, d)
    case Pattern => TypeOk(v, d) && !PatternOk(v, d, f)
    case Range => TypeOk(v, d) && !RangeOk(v, d)
    case Length => TypeOk(v, d) && !LengthOk(v, d)
    case Format => TypeOk(v, d) && !FormatOk(v, d, f)
    case _ => false
  }

  /** The code is reported at the position below this value. */
  ghost predicate Reported(v: Value, d: FieldDef, f: Foreign, position: seq<nat>, code: Code) {
    Reach(v, d, position).Some? && Violates(Reach(v, d, position).value.0, Reach(v, d, position).value.1, f, code)
  }

  ghost predicate ReportedAt(v: Value, d: FieldDef, f: Foreign, field: string, base: seq<nat>, e: FieldError) {
    e.field == field && base <= e.position && Reported(v, d, f, e.position[|base|..], e.code)
  }

  lemma {:induction false} ScalarMembers(errors: seq<FieldError>, field: string, position: seq<nat>, v: Value,
      d: FieldDef, f: Foreign, e: FieldError)
    ensures e in ScalarErrors(errors, field, position, v, d, f) <==>
            e in errors || (e.field == field && e.position == position
              && ((e.code == Enum && !EnumOk(v, d)) || (e.code == Pattern && !PatternOk(v, d, f))
                  || (e.code == Range && !RangeOk(v, d))
                  || (e.code == Length && v.Str? && !LengthOk(v, d)) || (e.code == Format && !FormatOk(v, d, f))))
  {}

  ghost predicate SomeItem(items: seq<Value>, d: FieldDef, f: Foreign, field: string, base: seq<nat>, n: nat,
      e: FieldError)
    requires n <= |items|
  {
    exists k :: 0 <= k < n && ReportedAt(items[k], d, f, field, base + [k], e)
  }

  lemma {:induction false} SomeItemStep(items: seq<Value>, d: FieldDef, f: Foreign, field: string, base: seq<nat>,
      n: nat, e: FieldError)
    requires 0 < n <= |items|
    ensures SomeItem(items, d, f, field, base, n, e) <==>
            SomeItem(items, d, f, field, base, n - 1, e) || ReportedAt(items[n - 1], d, f, field, base + [n - 1], e)
  {}

  lemma {:induction false} ItemMembers(errors: seq<FieldError>, field: string, base: seq<nat>, items: seq<Value>,
      d: FieldDef, f: Foreign, n: nat, e: FieldError)
    requires n <= |items|
    ensures e in ItemErrors(errors, field, base, items, d, f, n) <==>
            e in errors || SomeItem(items, d, f, field, base, n, e)
    decreases items, n
  {
    if n > 0 {
      var before := ItemErrors(errors, field, base, items, d, f, n - 1);
      ItemMembers(errors, field, base, items, d, f, n - 1, e);
      ErrorMembers(before, field, base + [n - 1], items[n - 1], d, f, e);
      SomeItemStep(items, d, f, field, base, n, e);
      assert ItemErrors(errors, field, base, items, d, f, n) ==
        Errors(before, field, base + [n - 1], items[n - 1], d, f);
    }
  }

  lemma {:induction false} ItemPositions(v: Value, d: FieldDef, f: Foreign, field: string, base: seq<nat>,
      e: FieldError)
    requires TypeOk(v, d) && v.List? && d.items.Some?
    ensures SomeItem(v.items, d.items.value, f, field, base, |v.items|, e)
            <==> ReportedAt(v, d, f, field, base, e) && e.position != base
  {}

  /** The validator reports exactly the violated keywords at the positions reachable through
      well-typed values, on top of the errors it was given. */
  lemma {:induction false} ErrorMembers(errors: seq<FieldError>, field: string, base: seq<nat>, v: Value,
      d: FieldDef, f: Foreign, e: FieldError)
    ensures e in Errors(errors, field, base, v, d, f) <==> e in errors || ReportedAt(v, d, f, field, base, e)
    decreases v, 1
  {
    ReportedHere(v, d, f, field, base, e);
    if TypeOk(v, d) {
      ScalarMembers(errors, field, base, v, d, f, e);
      ArrayMembers(ScalarErrors(errors, field, base, v, d, f), field, base, v, d, f, e);
    }
  }

  lemma {:induction false} ArrayMembers(errors: seq<FieldError>, field: string, base: seq<nat>, v: Value,
      d: FieldDef, f: Foreign, e: FieldError)
    requires TypeOk(v, d)
    ensures e in ArrayErrors(errors, field, base, v, d, f) <==>
            e in errors || (e == FieldError(field, base, Length) && TooFewItems(v, d))
            || (e.position != base && ReportedAt(v, d, f, field, base, e))
    decreases v, 0
  {
    ReportedHere(v, d, f, field, base, e);
    if v.List? && d.items.Some? {
      ItemMembers(errors, field, base, v.items, d.items.value, f, |v.items|, e);
      ItemPositions(v, d, f, field, base, e);
    }
  }

  /** At the value itself its own keywords are reported; below it only what the items report. */
  lemma {:induction false} ReportedHere(v: Value, d: FieldDef, f: Foreign, field: string, base: seq<nat>, e: FieldError)
    ensures e.position == base ==>
              (ReportedAt(v, d, f, field, base, e) <==> e.field == field && Violates(v, d, f, e.code))
    ensures e.position != base && !(TypeOk(v, d) && v.List? && d.items.Some?) ==> !ReportedAt(v, d, f, field, base, e)
  {
    assert base[|base|..] == [];
    assert base <= e.position ==> e.position == base + e.position[|base|..];
  }

  /** The type of the value itself is reported exactly when its definition refuses it. */
  lemma {:induction false} TypeErrorIff(errors: seq<FieldError>, field: string, base: seq<nat>, v: Value,
      d: FieldDef, f: Foreign)
    ensures errors <= Errors(errors, field, base, v, d, f)
    ensures FieldError(field, base, Type) in Errors(errors, field, base, v, d, f)[|errors|..] <==>
            TypeRefused(v, d.types)
  {
    ErrorsAppend(errors, field, base, v, d, f);
    ErrorMembers([], field, base, v, d, f, FieldError(field, base, Type));
    ReportedHere(v, d, f, field, base, FieldError(field, base, Type));
    RefusedIsNotOk(v, d);
  }

  // ----- Conformance -----

  lemma {:induction false} ReachIsAt(v: Value, d: FieldDef, position: seq<nat>)
    ensures Reach(v, d, position).Some? ==> At(v, d, position) == Reach(v, d, position)
  {
    if position != [] && v.List? && position[0] < |v.items| && d.items.Some? {
      ReachIsAt(v.items[position[0]], d.items.value, position[1..]);
    }
  }

  /** A position that is not reachable lies below a value of the wrong type, which is. */
  lemma {:induction false} UnreachedBelowTypeError(v: Value, d: FieldDef, position: seq<nat>) returns (above: seq<nat>)
    requires At(v, d, position).Some? && Reach(v, d, position).None?
    ensures Reach(v, d, above).Some? && !TypeOk(Reach(v, d, above).value.0, Reach(v, d, above).value.1)
  {
    if !TypeOk(v, d) {
      above := [];
    } else {
      var rest := UnreachedBelowTypeError(v.items[position[0]], d.items.value, position[1..]);
      above := [position[0]] + rest;
      assert above[1..] == rest;
    }
  }

  ghost predicate NothingReported(v: Value, d: FieldDef, f: Foreign) {
    forall position: seq<nat>, code :: !Reported(v, d, f, position, code)
  }

  lemma LocalOkIsNoViolation(v: Value, d: FieldDef, f: Foreign)
    ensures LocalOk(v, d, f) <==> forall code :: !Violates(v, d, f, code)
  {
    assert LocalOk(v, d, f) <==> !Violates(v, d, f, Type) && !Violates(v, d, f, Enum) && !Violates(v, d, f, Pattern)
                                 && !Violates(v, d, f, Range) && !Violates(v, d, f, Length)
                                 && !Violates(v, d, f, Format);
  }

  lemma {:induction false} ConformsIffNothingReported(v: Value, d: FieldDef, f: Foreign)
    ensures Conforms(v, d, f) <==> NothingReported(v, d, f)
  {
    if Conforms(v, d, f) {
      forall position: seq<nat>, code ensures !Reported(v, d, f, position, code) {
        ReachIsAt(v, d, position);
        if Reach(v, d, position).Some? {
          LocalOkIsNoViolation(At(v, d, position).value.0, At(v, d, position).value.1, f);
        }
      }
    }
    if NothingReported(v, d, f) {
      forall position: seq<nat> | At(v, d, position).Some?
        ensures LocalOk(At(v, d, position).value.0, At(v, d, position).value.1, f)
      {
        if Reach(v, d, position).None? {
          var above := UnreachedBelowTypeError(v, d, position);
          assert Reported(v, d, f, above, Type);
        }
        ReachIsAt(v, d, position);
        var (v', d') := At(v, d, position).value;
        forall code ensures !Violates(v', d', f, code) {
          assert !Reported(v, d, f, position, code);
        }
        LocalOkIsNoViolation(v', d', f);
      }
    }
  }

  // ----- The validator only appends -----

  lemma {:induction false} ScalarsAppend(errors: seq<FieldError>, field: string, base: seq<nat>, v: Value, d: FieldDef,
      f: Foreign)
    ensures ScalarErrors(errors, field, base, v, d, f) == errors + ScalarErrors([], field, base, v, d, f)
  {
    ValuesAppend(errors, field, base, v, d, f);
    TextAppends(errors, ValueErrors([], field, base, v, d, f), field, base, v, d, f);
  }

  lemma {:induction false} ValuesAppend(errors: seq<FieldError>, field: string, base: seq<nat>, v: Value, d: FieldDef,
      f: Foreign)
    ensures ValueErrors(errors, field, base, v, d, f) == errors + ValueErrors([], field, base, v, d, f)
  {}

  lemma {:induction false} TextAppends(before: seq<FieldError>, errors: seq<FieldError>, field: string, base: seq<nat>,
      v: Value, d: FieldDef, f: Foreign)
    ensures TextErrors(before + errors, field, base, v, d, f) == before + TextErrors(errors, field, base, v, d, f)
  {}

  lemma {:induction false} ItemsAppend(errors: seq<FieldError>, field: string, base: seq<nat>, items: seq<Value>,
      d: FieldDef, f: Foreign, n: nat)
    requires n <= |items|
    ensures ItemErrors(errors, field, base, items, d, f, n) == errors + ItemErrors([], field, base, items, d, f, n)
    decreases items, n
  {
    if n > 0 {
      ItemsAppend(errors, field, base, items, d, f, n - 1);
      ErrorsAppend(ItemErrors(errors, field, base, items, d, f, n - 1), field, base + [n - 1], items[n - 1], d, f);
      ErrorsAppend(ItemErrors([], field, base, items, d, f, n - 1), field, base + [n - 1], items[n - 1], d, f);
    }
  }

  /** What is found in a value does not depend on the errors found before, and is put behind them. */
  lemma {:induction false} ErrorsAppend(errors: seq<FieldError>, field: string, base: seq<nat>, v: Value, d: FieldDef,
      f: Foreign)
    ensures Errors(errors, field, base, v, d, f) == errors + Errors([], field, base, v, d, f)
    decreases v, 1
  {
    if TypeOk(v, d) {
      ScalarsAppend(errors, field, base, v, d, f);
      ArrayAppends(errors, ScalarErrors([], field, base, v, d, f), field, base, v, d, f);
    }
  }

  lemma {:induction false} ArrayAppends(before: seq<FieldError>, errors: seq<FieldError>, field: string, base: seq<nat>,
      v: Value, d: FieldDef, f: Foreign)
    ensures ArrayErrors(before + errors, field, base, v, d, f) == before + ArrayErrors(errors, field, base, v, d, f)
    decreases v, 0
  {
    if v.List? && d.items.Some? {
      ItemsAppend(before + errors, field, base, v.items, d.items.value, f, |v.items|);
      ItemsAppend(errors, field, base, v.items, d.items.value, f, |v.items|);
    }
  }

  /** Checking a value leaves the error list, whatever it holds, as it was exactly when the value
      conforms; and always leaves what was in it as a prefix. */
  lemma {:induction false} NoNewErrorIffConforms(errors: seq<FieldError>, field: string, base: seq<nat>, v: Value,
      d: FieldDef, f: Foreign)
    ensures errors <= Errors(errors, field, base, v, d, f)
    ensures Errors(errors, field, base, v, d, f) == errors <==> Conforms(v, d, f)
  {
    ErrorsAppend(errors, field, base, v, d, f);
    ConformsIffNothingReported(v, d, f);
    var found := Errors([], field, base, v, d, f);
    if found != [] {
      ErrorMembers([], field, base, v, d, f, found[0]);
    } else if !Conforms(v, d, f) {
      var position: seq<nat>, code :| Reported(v, d, f, position, code);
      var e := FieldError(field, base + position, code);
      assert e.position[|base|..] == position;
      ErrorMembers([], field, base, v, d, f, e);
    }
  }
}
