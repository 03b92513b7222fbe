/** What the types of the capability dialect of de_databus/cap_schema.cpp mean, by the kind of JSON value:
    which values the check of an invocation's parameters takes under which schema. */
module SchemaKinds {
  import opened Basics
  import opened Json
  import opened CapSchema

  /** The check finds no error in `{name: value}` under the schema `{name: param}`. */
  predicate Takes(param: Json, value: Json, name: string) {
    CleanParams(Obj(map[name := param]), Obj(map[name := value]))
  }

  lemma TakesIsConforms(param: Json, value: Json, name: string)
    ensures Takes(param, value, name) <==> Conforms(param, value, 0)
  {
    hide Conforms;
    var schema, given := map[name := param], map[name := value];
    assert name in schema && name in given && schema[name] == param && given[name] == value;
    assert NameClean(schema, given, name) <==> Conforms(param, value, 0);
  }

  // ----- types

  /** A schema that names a type and nothing else. */
  function Typed(t: string): Json { Obj(map["type" := Str(t)]) }

  lemma TypedConforms(t: string, value: Json)
    ensures Conforms(Typed(t), value, 0) <==> Matches(value, t) && t != "enum"
  {
    hide Matches;
    assert Matched(value, [t]) == if Matches(value, t) then Some(t) else None;
  }

  /** Which values each type takes. */
  lemma TypesTake(value: Json, name: string)
    ensures Takes(Typed("bool"), value, name) <==> value.Bool?
    ensures Takes(Typed("int"), value, name) <==> value.Int?
    ensures Takes(Typed("number"), value, name) <==> value.Int? || value.Real?
    ensures Takes(Typed("string"), value, name) <==> value.Str?
    ensures Takes(Typed("array"), value, name) <==> value.Arr?
    ensures Takes(Typed("object"), value, name) <==> value.Obj?
    ensures !Takes(Typed("enum"), value, name)
  {
    hide Takes, Conforms;
    TakesTyped("bool", value, name);
    TakesTyped("int", value, name);
    TakesTyped("number", value, name);
    TakesTyped("string", value, name);
    TakesTyped("array", value, name);
    TakesTyped("object", value, name);
    TakesTyped("enum", value, name);
  }

  lemma TakesTyped(t: string, value: Json, name: string)
    ensures Takes(Typed(t), value, name) <==> Matches(value, t) && t != "enum"
  {
    hide Takes, Conforms, Matches;
    TakesIsConforms(Typed(t), value, name);
    TypedConforms(t, value);
  }

  /** Every value but null is taken by exactly one of five types, and null by no type at all. */
  lemma OneTypeEach(value: Json, name: string)
    ensures value != Null ==>
              exists t :: t in {"bool", "number", "string", "array", "object"} && Takes(Typed(t), value, name) &&
                forall u :: u in {"bool", "number", "string", "array", "object"} && u != t ==>
                  !Takes(Typed(u), value, name)
    ensures value == Null ==> forall t :: !Takes(Typed(t), value, name)
  {
    hide Takes;
    TypesTake(value, name);
    var t := match value {
      case Bool(_) => "bool" case Str(_) => "string" case Arr(_) => "array" case Obj(_) => "object"
      case _ => "number"
    };
    assert value != Null ==> Takes(Typed(t), value, name);
    if value == Null {
      forall t ensures !Takes(Typed(t), value, name) { TakesTyped(t, value, name); }
    }
  }

  /** A type that is none of the eight takes nothing. */
  lemma UnknownTypeTakesNothing(t: string, value: Json, name: string)
    requires t !in {"bool", "int", "number", "string", "enum", "geo", "array", "object"}
    ensures !Takes(Typed(t), value, name)
  {
    TakesTyped(t, value, name);
  }

  /** A place is three numbers. */
  lemma GeoTakes(value: Json, name: string)
    ensures Takes(Typed("geo"), value, name) <==>
            exists x, y, z :: value == Arr([x, y, z]) && (x.Int? || x.Real?) && (y.Int? || y.Real?) &&
              (z.Int? || z.Real?)
  {
    hide Takes;
    TakesTyped("geo", value, name);
    if Matches(value, "geo") {
      var items := value.items;
      assert value == Arr([items[0], items[1], items[2]]);
    }
  }

  /** A list of types takes what one of them takes. */
  lemma ListTakes(types: seq<Json>, value: Json, name: string)
    requires types != [] && forall i :: 0 <= i < |types| ==> types[i].Str? && types[i].s != "enum"
    ensures Takes(Obj(map["type" := Arr(types)]), value, name) <==>
            exists i :: 0 <= i < |types| && Takes(Typed(types[i].s), value, name)
  {
    hide Takes, Matches, Conforms;
    var param := Obj(map["type" := Arr(types)]);
    TakesIsConforms(param, value, name);
    ListConforms(types, value);
    forall i | 0 <= i < |types|
      ensures Takes(Typed(types[i].s), value, name) <==> Matches(value, types[i].s)
    {
      TakesTyped(types[i].s, value, name);
    }
  }

  lemma ListConforms(types: seq<Json>, value: Json)
    requires types != [] && forall i :: 0 <= i < |types| ==> types[i].Str? && types[i].s != "enum"
    ensures Conforms(Obj(map["type" := Arr(types)]), value, 0) <==>
            exists i :: 0 <= i < |types| && Matches(value, types[i].s)
  {
    hide Matches;
    var names := Texts(types);
    assert forall i :: 0 <= i < |types| ==> names[i] == types[i].s;
    var t := Matched(value, names);
    if i :| 0 <= i < |types| && Matches(value, types[i].s) {
      assert Matches(value, names[i]);
    }
  }

  // ----- limits

  /** A schema of numbers between two limits. */
  function Limited(t: string, lo: Json, hi: Json): Json {
    Obj(map["type" := Str(t), "min" := lo, "max" := hi])
  }

  /** A number is taken exactly when it lies between those limits that are numbers, both included; an
      integer is compared with a fraction by value. */
  lemma LimitsTake(t: string, lo: Json, hi: Json, value: Json, name: string)
    requires t in {"int", "number"}
    ensures Takes(Limited(t, lo, hi), value, name) <==>
            && (value.Int? || (value.Real? && t == "number"))
            && (lo.Int? ==> if value.Int? then lo.i <= value.i else lo.i as real <= value.r)
            && (lo.Real? ==> if value.Int? then lo.r <= value.i as real else lo.r <= value.r)
            && (hi.Int? ==> if value.Int? then value.i <= hi.i else value.r <= hi.i as real)
            && (hi.Real? ==> if value.Int? then value.i as real <= hi.r else value.r <= hi.r)
  {
    hide Takes;
    TakesIsConforms(Limited(t, lo, hi), value, name);
    assert Matched(value, [t]) == if Matches(value, t) then Some(t) else None;
  }

  // ----- enumerations

  function Enumerated(values: Json): Json { Obj(map["type" := Str("enum"), "values" := values]) }

  /** Equal values, and numbers of equal value whatever their kind. */
  predicate Equals(v: Json, value: Json) {
    match (v, value)
    case (Int(m), Real(r)) => m as real == r
    case (Real(r), Int(m)) => m as real == r
    case _ => v == value
  }

  /** An enumeration takes exactly the texts, numbers and truth values it lists. */
  lemma EnumTakes(values: seq<Json>, value: Json, name: string)
    ensures Takes(Enumerated(Arr(values)), value, name) <==>
            && (value.Str? || value.Int? || value.Real? || value.Bool?)
            && exists i :: 0 <= i < |values| && Equals(values[i], value)
  {
    hide Takes;
    EnumTakesAllowed(Arr(values), value, name);
    if Matches(value, "enum") {
      forall i | 0 <= i < |values| ensures Equals(values[i], value) <==> Same(values[i], value) {
      }
    }
  }

  lemma EnumTakesAllowed(values: Json, value: Json, name: string)
    ensures Takes(Enumerated(values), value, name) <==>
            Matches(value, "enum") && Allowed(Enumerated(values), value)
  {
    hide Takes, Matches, Allowed;
    TakesIsConforms(Enumerated(values), value, name);
    assert Matched(value, ["enum"]) == if Matches(value, "enum") then Some("enum") else None;
  }

  /** Over an object the listed values are those of its fields, over a plain value it is the one, and null
      lists none. */
  lemma OtherEnumsTake(values: Json, value: Json, name: string)
    requires value.Str? || value.Int? || value.Real? || value.Bool?
    requires !values.Arr?
    ensures Takes(Enumerated(values), value, name) <==>
            if values.Obj? then exists key :: key in values.fields && Equals(values.fields[key], value)
            else values != Null && Equals(values, value)
  {
    hide Takes;
    EnumTakesAllowed(values, value, name);
    if values.Obj? {
      forall key | key in values.fields ensures Equals(values.fields[key], value) <==> Same(values.fields[key], value) {
      }
    }
  }

  // ----- arrays and objects

  /** An array is taken exactly when each of its elements is: for an element schema the validator accepts. */
  lemma ArrayTakes(item: Json, values: seq<Json>, path: string, name: string)
    requires ValidParam(item, path, 1)
    ensures Takes(ArrayOf(item), Arr(values), name) <==> forall i :: 0 <= i < |values| ==> Takes(item, values[i], name)
  {
    hide Takes, ValidParam, Conforms;
    TakesIsConforms(ArrayOf(item), Arr(values), name);
    ArrayUnfold(item, values);
    forall i | 0 <= i < |values|
      ensures Takes(item, values[i], name) <==> Conforms(item, values[i], 1)
    {
      AnyDepth(item, values[i], path, name);
    }
  }

  lemma AnyDepth(item: Json, value: Json, path: string, name: string)
    requires ValidParam(item, path, 1)
    ensures Takes(item, value, name) <==> Conforms(item, value, 1)
  {
    hide Takes, ValidParam, Conforms, Satisfies;
    TakesIsConforms(item, value, name);
    GuardHidesNothing(item, value, path, 1);
    ValidHigher(item, path, 1, 0);
    GuardHidesNothing(item, value, path, 0);
  }

  lemma ArrayUnfold(item: Json, values: seq<Json>)
    ensures Conforms(ArrayOf(item), Arr(values), 0) <==>
            forall i :: 0 <= i < |values| ==> Conforms(item, values[i], 1)
  {
    var param := ArrayOf(item);
    assert TypeList(param) == Some(["array"]) && Matched(Arr(values), ["array"]) == Some("array");
    assert param.Has("items") && param.fields["items"] == item;
    hide ArrayOf, TypeList, Matched, Matches, Allowed, WithinLimits;
  }

  function ObjectOf(fields: map<string, Json>): Json {
    Obj(map["type" := Str("object"), "fields" := Obj(fields)])
  }

  /** An object is taken exactly when each declared field is taken or may be missing; undeclared fields
      are not looked at. */
  lemma ObjectTakes(fields: map<string, Json>, given: map<string, Json>, path: string, name: string)
    requires forall key :: key in fields ==> ValidParam(fields[key], path, 1)
    ensures Takes(ObjectOf(fields), Obj(given), name) <==>
            forall key :: key in fields ==>
              if key in given then Takes(fields[key], given[key], name) else MayBeAbsent(fields[key])
  {
    hide Takes, ValidParam, Conforms, MayBeAbsent;
    TakesIsConforms(ObjectOf(fields), Obj(given), name);
    ObjectUnfold(fields, given);
    forall key | key in fields && key in given
      ensures Takes(fields[key], given[key], name) <==> Conforms(fields[key], given[key], 1)
    {
      AnyDepth(fields[key], given[key], path, name);
    }
  }

  lemma ObjectUnfold(fields: map<string, Json>, given: map<string, Json>)
    ensures Conforms(ObjectOf(fields), Obj(given), 0) <==>
            forall key :: key in fields ==>
              if key in given then Conforms(fields[key], given[key], 1) else MayBeAbsent(fields[key])
  {
    var param := ObjectOf(fields);
    assert TypeList(param) == Some(["object"]) && Matched(Obj(given), ["object"]) == Some("object");
    assert param.Has("fields") && param.fields["fields"] == Obj(fields);
    hide ObjectOf, TypeList, Matched, Matches, Allowed, WithinLimits, MayBeAbsent;
  }

  // ----- which error is reported

  /** A value out of bounds is reported as too small or as too large, and nothing else is. */
  lemma LimitsReport(lo: real, hi: real, value: Json, path: string, depth: nat)
    requires value.Real?
    ensures Errors(Limited("number", Real(lo), Real(hi)), value, path, depth) ==
            (if value.r < lo then {Error(path, TooSmall)} else {}) +
              (if value.r > hi then {Error(path, TooLarge)} else {})
  {
    var param := Limited("number", Real(lo), Real(hi));
    assert TypeList(param) == Some(["number"]) && Matched(value, ["number"]) == Some("number");
    ErrorsUnfold(param, value, path, depth, "number");
    hide Errors;
  }

  /** A schema without a type, and a value of the wrong type. */
  lemma TypesReport(param: Json, t: string, value: Json, path: string, depth: nat)
    ensures !param.Has("type") ==> Errors(param, value, path, depth) == {Error(path, NoUsableType)}
    ensures !Matches(value, t) ==> Errors(Typed(t), value, path, depth) == {Error(path, NotOfType)}
  {
    hide Matches;
    assert TypeList(Typed(t)) == Some([t]);
  }

  /** A text, a number or a truth value that an enumeration does not take. */
  lemma EnumReports(values: Json, value: Json, path: string, name: string, depth: nat)
    requires value.Str? || value.Int? || value.Real? || value.Bool?
    ensures Errors(Enumerated(values), value, path, depth) ==
            if Takes(Enumerated(values), value, name) then {} else {Error(path, NotAllowed)}
  {
    hide Takes, Allowed;
    EnumTakesAllowed(values, value, name);
    var param := Enumerated(values);
    assert Matches(value, "enum");
    assert TypeList(param) == Some(["enum"]) && Matched(value, ["enum"]) == Some("enum");
    ErrorsUnfold(param, value, path, depth, "enum");
    hide Errors;
  }

  // ----- which schemas the validator accepts

  lemma TypesAccepted(t: string, path: string, depth: nat)
    ensures ValidParam(Typed(t), path, depth) <==>
            depth <= 4 && t in {"bool", "int", "number", "string", "geo", "array", "object"}
  {
  }

  /** Limits must be numbers in order. */
  lemma LimitsAccepted(lo: Json, hi: Json, path: string, depth: nat)
    ensures ValidParam(Limited("number", lo, hi), path, depth) <==>
            && depth <= 4
            && match (lo, hi) {
                 case (Int(a), Int(b)) => a <= b
                 case (Int(a), Real(b)) => a as real <= b
                 case (Real(a), Int(b)) => a <= b as real
                 case (Real(a), Real(b)) => a <= b
                 case _ => false
               }
  {
    assert TypeList(Limited("number", lo, hi)) == Some(["number"]);
  }

  /** A list of several types holds only those four that have no schema of their own. */
  lemma ListsAccepted(types: seq<Json>, path: string, depth: nat)
    requires |types| > 1
    ensures ValidParam(Obj(map["type" := Arr(types)]), path, depth) <==>
            && depth <= 4
            && forall i :: 0 <= i < |types| ==>
                 types[i] in {Str("bool"), Str("int"), Str("number"), Str("string")}
  {
    if forall i :: 0 <= i < |types| ==> types[i].Str? {
      var names := Texts(types);
      assert forall i :: 0 <= i < |types| ==> names[i] == types[i].s;
      assert forall i :: 0 <= i < |types| ==> types[i] == Str(names[i]);
    }
  }

  // ----- names

  /** A name may be missing exactly when it is marked optional or has a default. */
  lemma MissingTakes(param: Json, name: string)
    ensures CleanParams(Obj(map[name := param]), Null) <==>
            param.Obj? && (("optional", Bool(true)) in param.fields.Items || "default" in param.fields)
  {
    hide Conforms;
    var schema, given: map<string, Json> := map[name := param], map[];
    assert name in schema && name !in given && schema[name] == param;
    assert NameClean(schema, given, name) <==> MayBeAbsent(param);
  }

  /** How names are made: a small letter, and then small letters, digits and underscores, 32 at most. */
  lemma NamesGrow(name: string, c: char)
    ensures !ValidName("")
    ensures ValidName([c]) <==> 'a' <= c <= 'z'
    ensures name != "" ==>
              (ValidName(name + [c]) <==>
               ValidName(name) && |name| < 32 && ('a' <= c <= 'z' || '0' <= c <= '9' || c == '_'))
  {
    if name != "" {
      var longer := name + [c];
      assert longer[0] == name[0] && longer[|name|] == c;
      assert forall i :: 0 <= i < |name| ==> longer[i] == name[i];
    }
  }

  /** Where an advert keeps its actions, and an action its old name; one without it has the empty one. */
  lemma OldNames(fields: map<string, Json>, actions: map<string, Json>, name: string, act: string)
    ensures Actions(Obj(fields["actions" := Obj(actions)])) == Some(actions)
    ensures Actions(Obj(fields - {"actions"})) == None
    ensures HasAlias(Obj(fields["deprecated_alias" := Str(name)]), act) <==> act == name
    ensures HasAlias(Obj(fields - {"deprecated_alias"}), act) <==> act == ""
  {
  }

  // ----- the paths of errors

  /** The number a text of digits denotes. */
  function Reading(s: string): int {
    if s == "" then 0 else 10 * Reading(s[..|s| - 1]) + (s[|s| - 1] as int - '0' as int)
  }

  predicate IsDigit(c: char) { '0' <= c <= '9' }

  /** The index in the path of an element's error is the decimal numeral of the index. */
  lemma {:induction false} DecimalReads(n: nat)
    ensures Reading(Decimal(n)) == n && Decimal(n) != ""
    ensures forall k :: 0 <= k < |Decimal(n)| ==> IsDigit(Decimal(n)[k])
    ensures Decimal(n)[0] == '0' ==> Decimal(n) == "0"
  {
    var d := "0123456789"[n % 10];
    assert d as int == '0' as int + n % 10;
    if n < 10 {
      assert Decimal(n)[..0] == "";
    } else {
      DecimalReads(n / 10);
      var s := Decimal(n / 10);
      assert (s + [d])[..|s|] == s;
      assert s == "0" ==> Reading("0") == 0 by { assert "0"[..0] == ""; }
    }
  }

  /** No two elements share a path. */
  lemma ItemPathsDiffer(path: string, i: nat, j: nat)
    requires ItemPath(path, i) == ItemPath(path, j)
    ensures i == j
  {
    hide Decimal;
    DecimalReads(i);
    DecimalReads(j);
    var p, q := ItemPath(path, i), ItemPath(path, j);
    assert p[|path| + 1..|p| - 1] == Decimal(i) && q[|path| + 1..|q| - 1] == Decimal(j);
  }
}
