/** The capability parameter dialect of de_databus/cap_schema.cpp: validation of parameter schemas,
    and checking and filling of the parameters of an invocation. Keys of an object are visited in
    any order; an error message is modelled by its path and its kind, a list of them by the set. */
module CapSchema {
  import opened Basics
  import opened Json

  const NAME_MAX_LEN := 32
  const MAX_DEPTH := 4
  const SCALAR_TYPES: set<string> := {"bool", "int", "number", "string", "enum", "geo", "array", "object"}
  const UNLISTABLE: set<string> := {"enum", "geo", "array", "object"}

  // ----- schemas

  function Texts(items: seq<Json>): (t: seq<string>)
    requires forall i :: 0 <= i < |items| ==> items[i].Str?
    ensures |t| == |items|
  {
    seq(|items|, i requires 0 <= i < |items| => items[i].s)
  }

  /** `capTypeList`: one type name, or a non-empty list of them. */
  function TypeList(param: Json): (types: Option<seq<string>>)
    ensures types.Some? ==> |types.value| > 0
  {
    if !param.Has("type") then None
    else
      var t := param.fields["type"];
      if t.Str? then Some([t.s])
      else if t.Arr? && t.items != [] && forall i :: 0 <= i < |t.items| ==> t.items[i].Str? then Some(Texts(t.items))
      else None
  }

  /** `capIsValidName`. */
  predicate ValidName(name: string) {
    && 0 < |name| <= NAME_MAX_LEN
    && 'a' <= name[0] <= 'z'
    && forall i :: 0 <= i < |name| ==> 'a' <= name[i] <= 'z' || '0' <= name[i] <= '9' || name[i] == '_'
  }

  predicate ValidTypes(types: seq<string>) {
    && (forall i :: 0 <= i < |types| ==> types[i] in SCALAR_TYPES)
    && (|types| > 1 ==> forall i :: 0 <= i < |types| ==> types[i] !in UNLISTABLE)
  }

  predicate ValidLimits(param: Json) {
    && (param.Has("min") ==> param.fields["min"].IsNumber())
    && (param.Has("max") ==> param.fields["max"].IsNumber())
    && (param.Has("min") && param.Has("max") ==> param.fields["min"].Number() <= param.fields["max"].Number())
  }

  predicate ValidEnum(param: Json) {
    param.Has("values") && param.fields["values"].Arr? && param.fields["values"].items != []
  }

  /** `capValidateParam`: is this a usable schema at this nesting depth? A default must pass the checker. */
  predicate ValidParam(param: Json, path: string, depth: nat)
    decreases param
  {
    && depth <= MAX_DEPTH
    && param.Obj?
    && TypeList(param).Some?
    && var types := TypeList(param).value;
    && ValidTypes(types)
    && (types[0] == "enum" ==> ValidEnum(param))
    && (types[0] == "array" && param.Has("items") ==> ValidParam(param.fields["items"], path + "[]", depth + 1))
    && (types[0] == "object" && param.Has("fields") ==>
      && param.fields["fields"].Obj?
      && (forall key :: key in param.fields["fields"].fields ==>
        ValidName(key) && ValidParam(param.fields["fields"].fields[key], path + "." + key, depth + 1)))
    && ValidLimits(param)
    && (param.Has("default") ==>
      CleanParams(Obj(map[path := param]), Obj(map[path := param.fields["default"]])))
  }

  /** `capValidateParamMap`. */
  predicate ValidParamMap(schema: Json, path: string) {
    schema.Obj? && forall key :: key in schema.fields ==>
      ValidName(key) && ValidParam(schema.fields[key], path + "." + key, 0)
  }

  // ----- values

  /** `capValueMatches`. */
  predicate Matches(value: Json, t: string) {
    if t == "bool" then value.Bool?
    else if t == "int" then value.Int?
    else if t == "number" then value.IsNumber()
    else if t == "string" then value.Str?
    else if t == "geo" then value.Arr? && |value.items| == 3 && forall i :: 0 <= i < 3 ==> value.items[i].IsNumber()
    else if t == "enum" then value.Str? || value.IsNumber() || value.Bool?
    else if t == "array" then value.Arr?
    else t == "object" && value.Obj?
  }

  /** The first candidate type the value matches. */
  function Matched(value: Json, types: seq<string>): (t: Option<string>)
    ensures t.Some? ==> t.value in types && Matches(value, t.value)
    ensures t.Some? ==>
      exists i :: 0 <= i < |types| && types[i] == t.value && forall j :: 0 <= j < i ==> !Matches(value, types[j])
    ensures t.None? ==> forall i :: 0 <= i < |types| ==> !Matches(value, types[i])
  {
    if types == [] then None
    else if Matches(value, types[0]) then Some(types[0])
    else Matched(value, types[1..])
  }

  /** Limits that are not numbers are skipped. */
  predicate WithinLimits(param: Json, value: Json)
    requires value.IsNumber()
  {
    && (param.Has("min") && param.fields["min"].IsNumber() ==> value.Number() >= param.fields["min"].Number())
    && (param.Has("max") && param.fields["max"].IsNumber() ==> value.Number() <= param.fields["max"].Number())
  }

  /** The library's equality when one side is a scalar: numbers compare across their kinds. */
  predicate Same(v: Json, scalar: Json) {
    v == scalar || (v.IsNumber() && scalar.IsNumber() && v.Number() == scalar.Number())
  }

  /** Is the value one of `values`? A range-for over an object visits its values, over a scalar the scalar. */
  predicate Allowed(param: Json, value: Json) {
    param.Has("values") &&
    match param.fields["values"] {
      case Null => false
      case Arr(items) => exists i :: 0 <= i < |items| && Same(items[i], value)
      case Obj(fields) => exists key :: key in fields && Same(fields[key], value)
      case v => Same(v, value)
    }
  }

  predicate Optional(param: Json) {
    param.Has("optional") && param.fields["optional"] == Bool(true)
  }

  /** May the name be absent? */
  predicate MayBeAbsent(param: Json) {
    Optional(param) || param.Has("default")
  }

  /** `capCheckValue` reports no error, nested values being looked at above the depth guard only. */
  predicate Conforms(param: Json, value: Json, depth: nat)
    decreases param
  {
    TypeList(param).Some? &&
    var t := Matched(value, TypeList(param).value);
    && t.Some?
    && (t.value == "int" || t.value == "number" ==> WithinLimits(param, value))
    && (t.value == "enum" ==> Allowed(param, value))
    && (t.value == "array" && param.Has("items") && depth < MAX_DEPTH ==>
      forall i :: 0 <= i < |value.items| ==> Conforms(param.fields["items"], value.items[i], depth + 1))
    && (t.value == "object" && param.Has("fields") && param.fields["fields"].Obj? && depth < MAX_DEPTH ==>
      forall key :: key in param.fields["fields"].fields ==>
        var field := param.fields["fields"].fields[key];
        if key in value.fields then Conforms(field, value.fields[key], depth + 1) else MayBeAbsent(field))
  }

  /** The check without the depth guard: what the schema says, at every depth. */
  predicate Satisfies(param: Json, value: Json)
    decreases param
  {
    TypeList(param).Some? &&
    var t := Matched(value, TypeList(param).value);
    && t.Some?
    && (t.value == "int" || t.value == "number" ==> WithinLimits(param, value))
    && (t.value == "enum" ==> Allowed(param, value))
    && (t.value == "array" && param.Has("items") ==>
      forall i :: 0 <= i < |value.items| ==> Satisfies(param.fields["items"], value.items[i]))
    && (t.value == "object" && param.Has("fields") && param.fields["fields"].Obj? ==>
      forall key :: key in param.fields["fields"].fields ==>
        var field := param.fields["fields"].fields[key];
        if key in value.fields then Satisfies(field, value.fields[key]) else MayBeAbsent(field))
  }

  // ----- parameters of an invocation

  function Given(with: Json): map<string, Json> {
    if with.Obj? then with.fields else map[]
  }

  /** `capCheckParams` returns no error. */
  predicate CleanParams(schema: Json, with: Json) {
    schema.Null? ||
    (&& schema.Obj?
     && (with.Null? || with.Obj?)
     && Given(with).Keys <= schema.fields.Keys
     && forall name :: name in schema.fields ==> NameClean(schema.fields, Given(with), name))
  }

  /** The `filled` of `capCheckParams`: what was given, and the defaults of what was not. */
  function Filled(schema: Json, with: Json): Json {
    if schema.Obj? then
      Obj(map name | name in Given(with).Keys + schema.fields.Keys
                     && (name in Given(with) || schema.fields[name].Has("default")) ::
            if name in Given(with) then Given(with)[name] else schema.fields[name].fields["default"])
    else Obj(Given(with))
  }

  // ----- error messages

  datatype Kind =
    | NoUsableType | NotOfType | TooSmall | TooLarge | NotAllowed | MissingField
    | SchemaNotObject | WithNotObject | UnknownParam | MissingParam

  datatype Error = Error(path: string, kind: Kind)

  function Decimal(n: nat): string {
    if n < 10 then ["0123456789"[n]] else Decimal(n / 10) + ["0123456789"[n % 10]]
  }

  function ItemPath(path: string, i: nat): string {
    path + "[" + Decimal(i) + "]"
  }

  function LimitErrors(param: Json, value: Json, path: string): set<Error>
    requires value.IsNumber()
  {
    (if param.Has("min") && param.fields["min"].IsNumber() && value.Number() < param.fields["min"].Number()
     then {Error(path, TooSmall)} else {}) +
    (if param.Has("max") && param.fields["max"].IsNumber() && value.Number() > param.fields["max"].Number()
     then {Error(path, TooLarge)} else {})
  }

  function ValueErrors(param: Json, value: Json, path: string, t: string): set<Error>
    requires Matches(value, t)
  {
    (if t == "int" || t == "number" then LimitErrors(param, value, path) else {}) +
    (if t == "enum" && !Allowed(param, value) then {Error(path, NotAllowed)} else {})
  }

  /** What `capCheckValue` appends to the errors. */
  ghost function Errors(param: Json, value: Json, path: string, depth: nat): set<Error>
    decreases param, 1
  {
    if TypeList(param).None? then {Error(path, NoUsableType)}
    else
      var t := Matched(value, TypeList(param).value);
      if t.None? then {Error(path, NotOfType)}
      else
        ValueErrors(param, value, path, t.value) +
        (if t.value == "array" && param.Has("items") && depth < MAX_DEPTH
         then ItemErrorsBelow(param.fields["items"], value.items, path, depth, |value.items|)
         else {}) +
        (if t.value == "object" && param.Has("fields") && param.fields["fields"].Obj? && depth < MAX_DEPTH
         then FieldErrorsOf(param, value, path, depth, param.fields["fields"].fields.Keys)
         else {})
  }

  ghost function ItemErrors(items: Json, values: seq<Json>, path: string, depth: nat, i: nat): set<Error>
    requires i < |values|
    decreases items, 2
  {
    Errors(items, values[i], ItemPath(path, i), depth + 1)
  }

  ghost function ItemErrorsBelow(items: Json, values: seq<Json>, path: string, depth: nat, k: nat): set<Error>
    requires k <= |values|
    decreases items, 3
  {
    set i: nat, e | i < k && e in ItemErrors(items, values, path, depth, i) :: e
  }

  ghost function FieldErrorsOf(param: Json, value: Json, path: string, depth: nat, keys: set<string>): set<Error>
    requires value.Obj? && param.Has("fields") && param.fields["fields"].Obj? &&
      keys <= param.fields["fields"].fields.Keys
    decreases param, 0, 1
  {
    set key, e | key in keys && e in FieldErrors(param, value, path, depth, key) :: e
  }

  ghost function FieldErrors(param: Json, value: Json, path: string, depth: nat, key: string): set<Error>
    requires value.Obj? && param.Has("fields") && param.fields["fields"].Obj? && key in param.fields["fields"].fields
    decreases param, 0, 0
  {
    var field := param.fields["fields"].fields[key];
    if key in value.fields then Errors(field, value.fields[key], path + "." + key, depth + 1)
    else if MayBeAbsent(field) then {}
    else {Error(path + "." + key, MissingField)}
  }

  lemma NoValueErrors(param: Json, value: Json, path: string, t: string)
    requires Matches(value, t)
    ensures ValueErrors(param, value, path, t) == {} <==>
            (t == "int" || t == "number" ==> WithinLimits(param, value)) && (t == "enum" ==> Allowed(param, value))
  {
    hide Allowed;
    var e1, e2, e3 := Error(path, TooSmall), Error(path, TooLarge), Error(path, NotAllowed);
    assert ValueErrors(param, value, path, t) == {} <==>
      e1 !in ValueErrors(param, value, path, t) && e2 !in ValueErrors(param, value, path, t) &&
        e3 !in ValueErrors(param, value, path, t);
  }

  lemma {:induction false} NoItemErrors(items: Json, values: seq<Json>, path: string, depth: nat, k: nat)
    requires k <= |values|
    ensures ItemErrorsBelow(items, values, path, depth, k) == {} <==>
            forall i: nat :: i < k ==> ItemErrors(items, values, path, depth, i) == {}
  {
    hide ItemErrorsBelow, ItemErrors, ItemPath, Errors;
    if k == 0 {
      NoItemsYet(items, values, path, depth);
    } else {
      NoItemErrors(items, values, path, depth, k - 1);
      OneMoreItem(items, values, path, depth, k - 1);
      UnionIsEmpty(ItemErrorsBelow(items, values, path, depth, k - 1), ItemErrors(items, values, path, depth, k - 1));
    }
  }

  lemma UnionIsEmpty<T>(a: set<T>, b: set<T>)
    ensures a + b == {} <==> a == {} && b == {}
  {
    assert a <= a + b && b <= a + b;
  }

  lemma {:induction false} NoFieldErrors(param: Json, value: Json, path: string, depth: nat, keys: set<string>)
    requires value.Obj? && param.Has("fields") && param.fields["fields"].Obj? &&
      keys <= param.fields["fields"].fields.Keys
    ensures FieldErrorsOf(param, value, path, depth, keys) == {} <==>
            forall key :: key in keys ==> FieldErrors(param, value, path, depth, key) == {}
    decreases |keys|
  {
    hide FieldErrorsOf, FieldErrors, Errors;
    if keys == {} {
      NoFieldsYet(param, value, path, depth);
    } else {
      var key :| key in keys;
      var rest := keys - {key};
      NoFieldErrors(param, value, path, depth, rest);
      OneMoreField(param, value, path, depth, rest, key);
      assert rest + {key} == keys;
      UnionIsEmpty(FieldErrorsOf(param, value, path, depth, rest), FieldErrors(param, value, path, depth, key));
    }
  }

  lemma FieldUnfolds(param: Json, value: Json, path: string, depth: nat, key: string)
    requires value.Obj? && param.Has("fields") && param.fields["fields"].Obj? && key in param.fields["fields"].fields
    ensures var field := param.fields["fields"].fields[key];
            FieldErrors(param, value, path, depth, key) ==
            if key in value.fields then Errors(field, value.fields[key], path + "." + key, depth + 1)
            else if MayBeAbsent(field) then {}
            else {Error(path + "." + key, MissingField)}
  {
    hide Errors, MayBeAbsent;
  }

  lemma NoErrorsUnfold(param: Json, value: Json, path: string, depth: nat, t: string)
    requires TypeList(param).Some? && Matched(value, TypeList(param).value) == Some(t)
    ensures Errors(param, value, path, depth) == {} <==>
            && ValueErrors(param, value, path, t) == {}
            && (t == "array" && param.Has("items") && depth < MAX_DEPTH ==>
                 ItemErrorsBelow(param.fields["items"], value.items, path, depth, |value.items|) == {})
            && (t == "object" && param.Has("fields") && param.fields["fields"].Obj? && depth < MAX_DEPTH ==>
                 FieldErrorsOf(param, value, path, depth, param.fields["fields"].fields.Keys) == {})
  {
    ErrorsUnfold(param, value, path, depth, t);
    hide ValueErrors, ItemErrorsBelow, FieldErrorsOf, Errors;
    var flat := ValueErrors(param, value, path, t);
    var items := if t == "array" && param.Has("items") && depth < MAX_DEPTH
      then ItemErrorsBelow(param.fields["items"], value.items, path, depth, |value.items|) else {};
    var fields := if t == "object" && param.Has("fields") && param.fields["fields"].Obj? && depth < MAX_DEPTH
      then FieldErrorsOf(param, value, path, depth, param.fields["fields"].fields.Keys) else {};
    UnionIsEmpty(flat + items, fields);
    UnionIsEmpty(flat, items);
  }

  lemma UntypedErrors(param: Json, value: Json, path: string, depth: nat)
    requires TypeList(param).None? || Matched(value, TypeList(param).value).None?
    ensures Errors(param, value, path, depth) != {} && !Conforms(param, value, depth)
  {
    var e := Error(path, if TypeList(param).None? then NoUsableType else NotOfType);
    assert e in Errors(param, value, path, depth);
  }

  /** A value conforms exactly when the check appends no error. */
  lemma {:induction false} NoErrorsIffConforms(param: Json, value: Json, path: string, depth: nat)
    ensures Errors(param, value, path, depth) == {} <==> Conforms(param, value, depth)
    decreases param
  {
    hide Errors, ValueErrors, ItemErrorsBelow, FieldErrorsOf, ItemErrors, FieldErrors, ItemPath;
    hide Allowed, WithinLimits, Matches, Matched, MayBeAbsent, TypeList;
    if TypeList(param).None? || Matched(value, TypeList(param).value).None? {
      UntypedErrors(param, value, path, depth);
    } else {
      var t := Matched(value, TypeList(param).value).value;
      NoErrorsUnfold(param, value, path, depth, t);
      NoValueErrors(param, value, path, t);
      MatchedArray(value, TypeList(param).value);
      if t == "array" && param.Has("items") && depth < MAX_DEPTH {
        var items := param.fields["items"];
        NoItemErrors(items, value.items, path, depth, |value.items|);
        forall i: nat | i < |value.items|
          ensures ItemErrors(items, value.items, path, depth, i) == {} <==> Conforms(items, value.items[i], depth + 1)
        {
          OneMoreItem(items, value.items, path, depth, i);
          NoErrorsIffConforms(items, value.items[i], ItemPath(path, i), depth + 1);
        }
        assert Conforms(param, value, depth) <==>
          && ValueErrors(param, value, path, t) == {}
          && forall i :: 0 <= i < |value.items| ==> Conforms(items, value.items[i], depth + 1);
        assert ItemErrorsBelow(items, value.items, path, depth, |value.items|) == {} <==>
          forall i: nat :: i < |value.items| ==> ItemErrors(items, value.items, path, depth, i) == {};
      } else if t == "object" && param.Has("fields") && param.fields["fields"].Obj? && depth < MAX_DEPTH {
        var fields := param.fields["fields"].fields;
        NoFieldErrors(param, value, path, depth, fields.Keys);
        forall key | key in fields
          ensures FieldErrors(param, value, path, depth, key) == {} <==>
                  if key in value.fields then Conforms(fields[key], value.fields[key], depth + 1)
                    else MayBeAbsent(fields[key])
        {
          FieldUnfolds(param, value, path, depth, key);
          if key in value.fields {
            NoErrorsIffConforms(fields[key], value.fields[key], path + "." + key, depth + 1);
          }
        }
      }
    }
  }

  /** `capCheckValue`. */
  method CheckValue(param: Json, value: Json, path: string, depth: nat) returns (errors: set<Error>)
    ensures errors == Errors(param, value, path, depth)
    decreases param, 1
  {
    var types := TypeList(param);
    if types.None? { return {Error(path, NoUsableType)}; }
    var t := Matched(value, types.value);
    if t.None? { return {Error(path, NotOfType)}; }
    errors := {};
    if t.value == "int" || t.value == "number" {
      if param.Has("min") && param.fields["min"].IsNumber() && value.Number() < param.fields["min"].Number() {
        errors := errors + {Error(path, TooSmall)};
      }
      if param.Has("max") && param.fields["max"].IsNumber() && value.Number() > param.fields["max"].Number() {
        errors := errors + {Error(path, TooLarge)};
      }
    }
    if t.value == "enum" && !Allowed(param, value) {
      errors := errors + {Error(path, NotAllowed)};
    }
    assert errors == ValueErrors(param, value, path, t.value);
    ErrorsUnfold(param, value, path, depth, t.value);
    hide ValueErrors, Allowed, ItemErrorsBelow, FieldErrorsOf, Errors;
    if t.value == "array" && param.Has("items") && depth < MAX_DEPTH {
      var more := CheckItems(param.fields["items"], value.items, path, depth);
      errors := errors + more;
    }
    if t.value == "object" && param.Has("fields") && param.fields["fields"].Obj? && depth < MAX_DEPTH {
      var more := CheckFields(param, value, path, depth);
      errors := errors + more;
    }
  }

  lemma ErrorsUnfold(param: Json, value: Json, path: string, depth: nat, t: string)
    requires TypeList(param).Some? && Matched(value, TypeList(param).value) == Some(t)
    ensures Errors(param, value, path, depth) ==
            ValueErrors(param, value, path, t) +
            (if t == "array" && param.Has("items") && depth < MAX_DEPTH
             then ItemErrorsBelow(param.fields["items"], value.items, path, depth, |value.items|) else {}) +
            (if t == "object" && param.Has("fields") && param.fields["fields"].Obj? && depth < MAX_DEPTH
             then FieldErrorsOf(param, value, path, depth, param.fields["fields"].fields.Keys) else {})
  {
    hide ValueErrors, ItemErrorsBelow, FieldErrorsOf;
  }

  /** Lines 544-549. */
  method CheckItems(items: Json, values: seq<Json>, path: string, depth: nat) returns (errors: set<Error>)
    ensures errors == ItemErrorsBelow(items, values, path, depth, |values|)
    decreases items, 2
  {
    hide Errors, ItemPath, ItemErrorsBelow;
    errors := {};
    NoItemsYet(items, values, path, depth);
    for k := 0 to |values|
      invariant errors == ItemErrorsBelow(items, values, path, depth, k)
    {
      OneMoreItem(items, values, path, depth, k);
      var more := CheckValue(items, values[k], ItemPath(path, k), depth + 1);
      errors := errors + more;
    }
  }

  lemma NoItemsYet(items: Json, values: seq<Json>, path: string, depth: nat)
    ensures ItemErrorsBelow(items, values, path, depth, 0) == {}
  {
  }

  lemma OneMoreItem(items: Json, values: seq<Json>, path: string, depth: nat, k: nat)
    requires k < |values|
    ensures ItemErrorsBelow(items, values, path, depth, k + 1) ==
            ItemErrorsBelow(items, values, path, depth, k) + ItemErrors(items, values, path, depth, k)
    ensures ItemErrors(items, values, path, depth, k) == Errors(items, values[k], ItemPath(path, k), depth + 1)
  {
    hide Errors, ItemPath;
  }

  lemma NoFieldsYet(param: Json, value: Json, path: string, depth: nat)
    requires value.Obj? && param.Has("fields") && param.fields["fields"].Obj?
    ensures FieldErrorsOf(param, value, path, depth, {}) == {}
  {
  }

  lemma OneMoreField(param: Json, value: Json, path: string, depth: nat, done: set<string>, key: string)
    requires value.Obj? && param.Has("fields") && param.fields["fields"].Obj?
    requires done <= param.fields["fields"].fields.Keys && key in param.fields["fields"].fields
    ensures FieldErrorsOf(param, value, path, depth, done + {key}) ==
            FieldErrorsOf(param, value, path, depth, done) + FieldErrors(param, value, path, depth, key)
  {
    hide FieldErrors;
  }

  /** Lines 551-567. */
  method CheckFields(param: Json, value: Json, path: string, depth: nat) returns (errors: set<Error>)
    requires value.Obj? && param.Has("fields") && param.fields["fields"].Obj?
    ensures errors == FieldErrorsOf(param, value, path, depth, param.fields["fields"].fields.Keys)
    decreases param, 0
  {
    hide MayBeAbsent, FieldErrorsOf, Errors;
    errors := {};
    var fields := param.fields["fields"].fields;
    var rest := fields.Keys;
    NoFieldsYet(param, value, path, depth);
    assert fields.Keys - rest == {};
    while rest != {}
      invariant rest <= fields.Keys
      invariant errors == FieldErrorsOf(param, value, path, depth, fields.Keys - rest)
    {
      var key :| key in rest;
      OneMoreField(param, value, path, depth, fields.Keys - rest, key);
      assert fields.Keys - (rest - {key}) == (fields.Keys - rest) + {key};
      var more := {};
      if key in value.fields {
        more := CheckValue(fields[key], value.fields[key], path + "." + key, depth + 1);
      } else if !MayBeAbsent(fields[key]) {
        more := {Error(path + "." + key, MissingField)};
      }
      errors := errors + more;
      rest := rest - {key};
    }
    assert fields.Keys - rest == fields.Keys;
  }

  /** What the check of one name says. */
  predicate NameClean(schema: map<string, Json>, given: map<string, Json>, name: string)
    requires name in schema
  {
    if name in given then Conforms(schema[name], given[name], 0) else MayBeAbsent(schema[name])
  }

  /** `out` is what was given together with the defaults of the names done. */
  ghost predicate FilledWith(out: map<string, Json>, schema: map<string, Json>, given: map<string, Json>,
                             done: set<string>)
    requires done <= schema.Keys
  {
    && (forall name :: name in out <==> name in given || (name in done && schema[name].Has("default")))
    && (forall name :: name in out ==>
      out[name] == if name in given then given[name] else schema[name].fields["default"])
  }

  lemma FilledOne(out: map<string, Json>, schema: map<string, Json>, given: map<string, Json>, done: set<string>,
                  name: string)
    requires done <= schema.Keys && name in schema && FilledWith(out, schema, given, done)
    ensures var more := if name !in given && schema[name].Has("default")
                        then out[name := schema[name].fields["default"]] else out;
            FilledWith(more, schema, given, done + {name})
  {
  }

  lemma FilledAll(out: map<string, Json>, schema: Json, with: Json)
    requires schema.Obj? && FilledWith(out, schema.fields, Given(with), schema.fields.Keys)
    ensures Obj(out) == Filled(schema, with)
  {
    assert Filled(schema, with).fields == out;
  }

  /** What the check of one name appends to the errors. */
  ghost function NameErrors(schema: map<string, Json>, given: map<string, Json>, name: string): set<Error>
    requires name in schema
  {
    if name in given then Errors(schema[name], given[name], name, 0)
    else if MayBeAbsent(schema[name]) then {}
    else {Error(name, MissingParam)}
  }

  /** What `capCheckParams` returns. */
  ghost function ParamErrors(schema: Json, with: Json): set<Error> {
    if schema.Null? then {}
    else if !schema.Obj? then {Error("", SchemaNotObject)}
    else
      (if with.Null? || with.Obj? then {} else {Error("", WithNotObject)}) +
      (set name | name in Given(with) && name !in schema.fields :: Error(name, UnknownParam)) +
      (set name, e | name in schema.fields && e in NameErrors(schema.fields, Given(with), name) :: e)
  }

  /** Parameters are clean exactly when no error is returned. */
  lemma NoErrorsIffClean(schema: Json, with: Json)
    ensures ParamErrors(schema, with) == {} <==> CleanParams(schema, with)
  {
    hide Errors, Conforms, MayBeAbsent;
    if schema.Obj? {
      var all, given := ParamErrors(schema, with), Given(with);
      forall name | name in schema.fields
        ensures NameErrors(schema.fields, given, name) <= all
        ensures NameErrors(schema.fields, given, name) == {} <==> NameClean(schema.fields, given, name)
      {
        if name in given { NoErrorsIffConforms(schema.fields[name], given[name], name, 0); }
      }
      forall name | name in given && name !in schema.fields ensures Error(name, UnknownParam) in all {
      }
      assert !with.Null? && !with.Obj? ==> Error("", WithNotObject) in all;
    }
  }

  /** `capCheckParams`. */
  method CheckParams(schema: Json, with: Json) returns (errors: set<Error>, filled: Json)
    ensures errors == ParamErrors(schema, with)
    ensures errors == {} <==> CleanParams(schema, with)
    ensures filled == Filled(schema, with)
  {
    NoErrorsIffClean(schema, with);
    hide Errors, FilledWith, MayBeAbsent, Filled, CleanParams;
    var given := if with.Obj? then with.fields else map[];
    if !schema.Obj? {
      NothingFilled(schema, with);
      return if schema.Null? then {} else {Error("", SchemaNotObject)}, Obj(given);
    }
    var fields := schema.fields;
    errors := (if with.Null? || with.Obj? then {} else {Error("", WithNotObject)}) +
              set name | name in given && name !in fields :: Error(name, UnknownParam);
    var more;
    more, filled := CheckNames(fields, given);
    FilledAll(filled.fields, schema, with);
    errors := errors + more;
  }

  /** Lines 600-616. */
  method CheckNames(fields: map<string, Json>, given: map<string, Json>) returns (errors: set<Error>, filled: Json)
    ensures errors == set name, e | name in fields && e in NameErrors(fields, given, name) :: e
    ensures filled.Obj? && FilledWith(filled.fields, fields, given, fields.Keys)
  {
    hide Errors, FilledWith, MayBeAbsent;
    errors := {};
    var out := given;
    var rest := fields.Keys;
    NoneFilled(out, fields);
    assert fields.Keys - rest == {};
    while rest != {}
      invariant rest <= fields.Keys
      invariant errors == set name, e | name in fields && name !in rest && e in NameErrors(fields, given, name) :: e
      invariant FilledWith(out, fields, given, fields.Keys - rest)
    {
      var name :| name in rest;
      var param := fields[name];
      FilledOne(out, fields, given, fields.Keys - rest, name);
      MayBeAbsentMeans(param);
      var more := {};
      if name !in given {
        if param.Has("default") {
          out := out[name := param.fields["default"]];
        } else if !Optional(param) {
          more := {Error(name, MissingParam)};
        }
      } else {
        more := CheckValue(param, given[name], name, 0);
      }
      assert more == NameErrors(fields, given, name);
      errors := errors + more;
      assert fields.Keys - (rest - {name}) == (fields.Keys - rest) + {name};
      rest := rest - {name};
    }
    assert fields.Keys - rest == fields.Keys;
    filled := Obj(out);
  }

  lemma MayBeAbsentMeans(param: Json)
    ensures MayBeAbsent(param) <==> Optional(param) || param.Has("default")
  {
  }

  lemma NothingFilled(schema: Json, with: Json)
    requires !schema.Obj?
    ensures Filled(schema, with) == Obj(Given(with))
  {
  }

  lemma NoneFilled(given: map<string, Json>, schema: map<string, Json>)
    ensures FilledWith(given, schema, given, {})
  {
  }

  // ----- the two depth guards agree

  lemma MatchedListable(value: Json, types: seq<string>)
    requires ValidTypes(types) && |types| > 0 && Matched(value, types).Some? &&
      Matched(value, types).value in UNLISTABLE
    ensures types == [Matched(value, types).value]
  {
  }

  /** For a parameter the validator accepts, the depth guard hides nothing: values are rejected exactly
      when they violate the schema at some depth. */
  lemma {:induction false} GuardHidesNothing(param: Json, value: Json, path: string, depth: nat)
    requires ValidParam(param, path, depth)
    ensures Conforms(param, value, depth) <==> Satisfies(param, value)
    decreases param
  {
    hide ValidTypes, Matches, Matched, Allowed, WithinLimits, ValidLimits, ValidEnum, ValidName, CleanParams,
      MayBeAbsent;
    var types := TypeList(param).value;
    var t := Matched(value, types);
    if t.Some? && t.value == "array" && param.Has("items") {
      MatchedListable(value, types);
      var items := param.fields["items"];
      assert ValidParam(items, path + "[]", depth + 1);
      MatchedArray(value, types);
      forall i | 0 <= i < |value.items|
        ensures Conforms(items, value.items[i], depth + 1) <==> Satisfies(items, value.items[i])
      {
        GuardHidesNothing(items, value.items[i], path + "[]", depth + 1);
      }
    } else if t.Some? && t.value == "object" && param.Has("fields") {
      MatchedListable(value, types);
      MatchedArray(value, types);
      var fields := param.fields["fields"].fields;
      forall key | key in fields && key in value.fields
        ensures Conforms(fields[key], value.fields[key], depth + 1) <==> Satisfies(fields[key], value.fields[key])
        ensures depth < MAX_DEPTH
      {
        GuardHidesNothing(fields[key], value.fields[key], path + "." + key, depth + 1);
      }
      assert forall key :: key in fields ==> ValidParam(fields[key], path + "." + key, depth + 1);
    }
  }

  lemma MatchedArray(value: Json, types: seq<string>)
    requires Matched(value, types).Some?
    ensures Matched(value, types).value == "array" ==> value.Arr?
    ensures Matched(value, types).value == "object" ==> value.Obj?
  {
  }

  /** One schema of arrays nested to the given depth around a leaf. */
  function Nested(levels: nat, leaf: Json): Json {
    if levels == 0 then leaf else ArrayOf(Nested(levels - 1, leaf))
  }

  function Wrapped(levels: nat, leaf: Json): Json {
    if levels == 0 then leaf else Arr([Wrapped(levels - 1, leaf)])
  }

  /** A schema of arrays of items. */
  function ArrayOf(items: Json): Json {
    Obj(map["type" := Str("array"), "items" := items])
  }

  lemma ArrayOfFields(items: Json, x: Json)
    ensures TypeList(ArrayOf(items)) == Some(["array"]) && Matched(Arr([x]), ["array"]) == Some("array")
    ensures ArrayOf(items).Has("items") && ArrayOf(items).fields["items"] == items
  {
  }

  lemma ArrayConforms(items: Json, x: Json, depth: nat)
    ensures Conforms(ArrayOf(items), Arr([x]), depth) <==> (depth < MAX_DEPTH ==> Conforms(items, x, depth + 1))
  {
    ArrayOfFields(items, x);
    hide ArrayOf, TypeList, Matched, Matches, Allowed, WithinLimits;
    assert Arr([x]).items[0] == x;
  }

  lemma ArraySatisfies(items: Json, x: Json)
    ensures Satisfies(ArrayOf(items), Arr([x])) <==> Satisfies(items, x)
  {
    ArrayOfFields(items, x);
    hide ArrayOf, TypeList, Matched, Matches, Allowed, WithinLimits;
    assert Arr([x]).items[0] == x;
  }

  lemma ArrayNeedsItems(items: Json, path: string, depth: nat)
    ensures ValidParam(ArrayOf(items), path, depth) ==> ValidParam(items, path + "[]", depth + 1)
  {
    ArrayOfFields(items, Null);
    hide ArrayOf, TypeList, ValidTypes, ValidLimits, ValidEnum, ValidName, CleanParams;
  }

  lemma ValidDepth(param: Json, path: string, depth: nat)
    ensures ValidParam(param, path, depth) ==> depth <= MAX_DEPTH
  {
  }

  /** What the validator must refuse, and why: one level more than the guard, and a violation at the
      bottom goes unseen. */
  lemma {:induction false} GuardHidesBelow(levels: nat, leaf: Json, value: Json, path: string, depth: nat)
    requires depth + levels == MAX_DEPTH + 1
    ensures levels > 0 ==> Conforms(Nested(levels, leaf), Wrapped(levels, value), depth)
    ensures Satisfies(Nested(levels, leaf), Wrapped(levels, value)) <==> Satisfies(leaf, value)
    ensures !ValidParam(Nested(levels, leaf), path, depth)
  {
    hide Conforms, Satisfies, ValidParam, ArrayOf;
    if levels == 0 {
      ValidDepth(leaf, path, depth);
    } else {
      var items, x := Nested(levels - 1, leaf), Wrapped(levels - 1, value);
      GuardHidesBelow(levels - 1, leaf, value, path + "[]", depth + 1);
      ArrayConforms(items, x, depth);
      ArraySatisfies(items, x);
      ArrayNeedsItems(items, path, depth);
    }
  }

  // ----- filling

  /** A schema valid at some depth is valid at any lesser one. */
  lemma {:induction false} ValidHigher(param: Json, path: string, depth: nat, higher: nat)
    requires ValidParam(param, path, depth) && higher <= depth
    ensures ValidParam(param, path, higher)
    decreases param
  {
    hide ValidTypes, ValidLimits, ValidEnum, ValidName, CleanParams;
    var types := TypeList(param).value;
    if types[0] == "array" && param.Has("items") {
      ValidHigher(param.fields["items"], path + "[]", depth + 1, higher + 1);
    } else if types[0] == "object" && param.Has("fields") {
      var fields := param.fields["fields"].fields;
      forall key | key in fields
        ensures ValidName(key) && ValidParam(fields[key], path + "." + key, higher + 1)
      {
        ValidHigher(fields[key], path + "." + key, depth + 1, higher + 1);
      }
    }
  }

  /** The default of an accepted parameter, however deeply nested, is a value of that parameter. */
  lemma DefaultIsValue(param: Json, path: string, depth: nat)
    requires ValidParam(param, path, depth) && param.Has("default")
    ensures Conforms(param, param.fields["default"], 0) && Satisfies(param, param.fields["default"])
  {
    var value := param.fields["default"];
    assert Conforms(param, value, 0) by {
      hide Conforms, ValidTypes, ValidLimits, ValidEnum, ValidName;
      var schema, with := Obj(map[path := param]), Obj(map[path := value]);
      assert CleanParams(schema, with);
      assert path in schema.fields && schema.fields[path] == param && Given(with)[path] == value;
    }
    hide Conforms, Satisfies, ValidParam;
    ValidHigher(param, path, depth, 0);
    GuardHidesNothing(param, value, path, 0);
  }

  /** For any schema: filling twice is filling once, and what was filled from clean parameters is clean
      if and only if every default that was injected is a value of its own parameter. */
  lemma RefillIff(schema: Json, with: Json)
    requires schema.Obj? && CleanParams(schema, with)
    ensures var filled := Filled(schema, with);
            && Filled(schema, filled) == filled
            && filled.fields.Keys <= schema.fields.Keys
            && (CleanParams(schema, filled) <==>
                forall name :: name in schema.fields && name !in Given(with) && schema.fields[name].Has("default") ==>
                  Conforms(schema.fields[name], schema.fields[name].fields["default"], 0))
  {
    hide Conforms;
    var filled := Filled(schema, with);
    assert Filled(schema, filled).fields == filled.fields;
    assert forall name :: name in Given(with) ==> name in schema.fields;
    assert forall name :: name in schema.fields && name !in filled.fields ==> !schema.fields[name].Has("default");
    if CleanParams(schema, filled) {
      assert forall name :: name in schema.fields && name !in Given(with) && schema.fields[name].Has("default") ==>
        name in Given(filled) && Given(filled)[name] == schema.fields[name].fields["default"];
    }
  }

  /** For a schema the validator accepts: clean parameters stay clean when filled, filling again changes
      nothing, every value in them satisfies its schema at every depth, and only names that are
      optional and without a default are missing. */
  lemma FillingIsIdempotent(schema: Json, path: string, with: Json)
    requires ValidParamMap(schema, path) && CleanParams(schema, with)
    ensures var filled := Filled(schema, with);
            && CleanParams(schema, filled) && Filled(schema, filled) == filled
            && filled.fields.Keys <= schema.fields.Keys
            && (forall name :: name in filled.fields ==> Satisfies(schema.fields[name], filled.fields[name]))
            && (forall name :: name in schema.fields && name !in filled.fields ==>
                  Optional(schema.fields[name]) && !schema.fields[name].Has("default"))
            && (forall name :: name in Given(with) ==>
              name in filled.fields && filled.fields[name] == Given(with)[name])
  {
    hide Conforms, Satisfies, ValidParam, ValidName;
    var filled := Filled(schema, with);
    forall name | name in schema.fields && schema.fields[name].Has("default")
      ensures Conforms(schema.fields[name], schema.fields[name].fields["default"], 0)
    {
      DefaultIsValue(schema.fields[name], path + "." + name, 0);
    }
    RefillIff(schema, with);
    forall name | name in filled.fields
      ensures Satisfies(schema.fields[name], filled.fields[name])
    {
      GuardHidesNothing(schema.fields[name], filled.fields[name], path + "." + name, 0);
    }
  }

  // ----- finding an action

  /** An object that has the name as its deprecated alias; without one its alias is "". */
  predicate HasAlias(action: Json, act: string) {
    action.Obj? && (if action.Has("deprecated_alias") then action.fields["deprecated_alias"] == Str(act) else act == "")
  }

  function Actions(advert: Json): Option<map<string, Json>> {
    if advert.Has("actions") && advert.fields["actions"].Obj? then Some(advert.fields["actions"].fields) else None
  }

  /** `capFindAction`; `order` lists the action names as the library visits them. */
  method FindAction(advert: Json, act: string, order: seq<string>) returns (action: Option<Json>)
    requires Actions(advert).Some? ==> forall name :: name in Actions(advert).value <==> name in order
    ensures action == match Resolved(advert, act, order) {
                        case None => None
                        case Some(name) => Some(Actions(advert).value[name])
                      }
  {
    if Actions(advert).None? { return None; }
    var actions := Actions(advert).value;
    if act in actions { return Some(actions[act]); }
    for i := 0 to |order|
      invariant FirstAlias(actions, act, order) == FirstAlias(actions, act, order[i..])
    {
      assert order[i..][0] == order[i] && order[i..][1..] == order[i + 1..];
      if HasAlias(actions[order[i]], act) { return Some(actions[order[i]]); }
    }
    action := None;
  }

  /** `capCanonicalAction`: "" stands for no such action. */
  method CanonicalAction(advert: Json, act: string, order: seq<string>) returns (name: string)
    requires Actions(advert).Some? ==> forall name :: name in Actions(advert).value <==> name in order
    ensures name == match Resolved(advert, act, order) { case None => "" case Some(n) => n }
  {
    if Actions(advert).None? { return ""; }
    var actions := Actions(advert).value;
    if act in actions { return act; }
    for i := 0 to |order|
      invariant FirstAlias(actions, act, order) == FirstAlias(actions, act, order[i..])
    {
      assert order[i..][0] == order[i] && order[i..][1..] == order[i + 1..];
      if HasAlias(actions[order[i]], act) { return order[i]; }
    }
    name := "";
  }

  /** The first listed action with this alias. */
  function FirstAlias(actions: map<string, Json>, act: string, order: seq<string>): (name: Option<string>)
    requires forall i :: 0 <= i < |order| ==> order[i] in actions
    ensures name.Some? ==> name.value in order && HasAlias(actions[name.value], act)
    ensures name.None? ==> forall i :: 0 <= i < |order| ==> !HasAlias(actions[order[i]], act)
  {
    if order == [] then None
    else if HasAlias(actions[order[0]], act) then Some(order[0])
    else FirstAlias(actions, act, order[1..])
  }

  /** The name an action goes by: its own, or that of the action it is an old name of. */
  function Resolved(advert: Json, act: string, order: seq<string>): (name: Option<string>)
    requires Actions(advert).Some? ==> forall name :: name in Actions(advert).value <==> name in order
  {
    if Actions(advert).None? then None
    else if act in Actions(advert).value then Some(act)
    else FirstAlias(Actions(advert).value, act, order)
  }

  /** Resolving is idempotent, its result names an action that is called so or was, and it fails exactly
      when no action is. Whatever handlers are called with is a current name. */
  lemma ResolvedIsCurrent(advert: Json, act: string, order: seq<string>)
    requires Actions(advert).Some? && forall name :: name in Actions(advert).value <==> name in order
    ensures var actions, r := Actions(advert).value, Resolved(advert, act, order);
            && (r.Some? ==> r.value in actions && (r.value == act || HasAlias(actions[r.value], act))
                            && Resolved(advert, r.value, order) == r)
            && (r.Some? <==> act in actions || exists name :: name in actions && HasAlias(actions[name], act))
  {
    var actions := Actions(advert).value;
    if act !in actions && (exists name :: name in actions && HasAlias(actions[name], act)) {
      var name :| name in actions && HasAlias(actions[name], act);
      var i :| 0 <= i < |order| && order[i] == name;
      assert HasAlias(actions[order[i]], act);
    }
  }
}
