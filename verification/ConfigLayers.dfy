/** The configuration store of de_databus/configFile.cpp: a published base, updates folded into it, and
    local overrides layered over it at run time. The published file is modelled by the document in it. */
module ConfigLayers {
  import opened Basics
  import opened Json

  // ----- layering

  function Fields(j: Json): map<string, Json> {
    if j.Obj? then j.fields else map[]
  }

  /** `deepMerge`. */
  function Merge(target: Json, overrides: Json): Json
    decreases overrides
  {
    if !overrides.Obj? then overrides
    else
      var t := Fields(target);
      Obj(map key | key in t.Keys + overrides.fields.Keys ::
            if key !in overrides.fields then t[key]
            else if key in t && t[key].Obj? && overrides.fields[key].Obj? then Merge(t[key], overrides.fields[key])
            else overrides.fields[key])
  }

  /** `deepMerge` as the source runs it, key by key. */
  method DeepMerge(target: Json, overrides: Json) returns (merged: Json)
    ensures merged == Merge(target, overrides)
    decreases overrides
  {
    if !overrides.Obj? { return overrides; }
    var was := Fields(target);
    var out := was;
    var rest := overrides.fields.Keys;
    while rest != {}
      invariant rest <= overrides.fields.Keys
      invariant out.Keys == was.Keys + (overrides.fields.Keys - rest)
      invariant forall key :: key in out && key !in overrides.fields.Keys - rest ==> out[key] == was[key]
      invariant forall key :: key in overrides.fields.Keys - rest ==> out[key] == Merge(target, overrides).fields[key]
    {
      var key :| key in rest;
      var value := overrides.fields[key];
      if key in out && out[key].Obj? && value.Obj? {
        value := DeepMerge(out[key], value);
      }
      assert value == Merge(target, overrides).fields[key];
      out := out[key := value];
      rest := rest - {key};
    }
    assert out == Merge(target, overrides).fields;
    merged := Obj(out);
  }

  // ----- dotted updates

  /** The non-empty parts of a key between its dots. */
  function Parts(key: string): (parts: seq<string>)
    ensures forall i :: 0 <= i < |parts| ==> parts[i] != ""
  {
    PartsFrom(key, "")
  }

  function PartsFrom(key: string, part: string): (parts: seq<string>)
    ensures forall i :: 0 <= i < |parts| ==> parts[i] != ""
  {
    var done := if part == "" then [] else [part];
    if key == "" then done
    else if key[0] == '.' then done + PartsFrom(key[1..], "")
    else PartsFrom(key[1..], part + [key[0]])
  }

  /** The keys to follow: the parts of a dotted key, or the key itself. */
  function Path(key: string): seq<string> {
    if '.' in key then Parts(key) else [key]
  }

  /** Put a value at a path, making objects on the way. None is the library's exception when a node on
      the way is neither an object nor null; the target is then as before. */
  function Put(node: Json, path: seq<string>, value: Json): (r: Option<Json>)
    requires path != []
    ensures r.Some? ==> r.value.Obj?
    decreases |path|
  {
    if !node.Obj? && !node.Null? then None
    else
      var fields := Fields(node);
      if |path| == 1 then Some(Obj(fields[path[0] := value]))
      else
        var child := if path[0] in fields then fields[path[0]] else Obj(map[]);
        match Put(child, path[1..], value)
        case None => None
        case Some(c) => Some(Obj(fields[path[0] := c]))
  }

  /** A key and its new value; an update document is visited in the order the library gives. */
  datatype Update = Update(key: string, value: Json)

  /** A target after some updates, and whether all of them went through. */
  datatype Applied = Applied(target: Json, ok: bool)

  function ApplyOne(target: Json, u: Update): Applied {
    if Path(u.key) == [] then Applied(target, true)
    else match Put(target, Path(u.key), u.value) {
      case None => Applied(target, false)
      case Some(t) => Applied(t, true)
    }
  }

  /** `applyUpdateJSON`: stops at the first exception, keeping what was applied before it. */
  function Apply(target: Json, updates: seq<Update>): Applied
    decreases |updates|
  {
    if updates == [] then Applied(target, true)
    else
      var first := ApplyOne(target, updates[0]);
      if first.ok then Apply(first.target, updates[1..]) else first
  }

  method ApplyUpdates(target: Json, updates: seq<Update>) returns (r: Applied)
    ensures r == Apply(target, updates)
  {
    hide Put, Path;
    r := Applied(target, true);
    for i := 0 to |updates|
      invariant r.ok && Apply(target, updates) == Apply(r.target, updates[i..])
    {
      var path := Path(updates[i].key);
      assert updates[i..][0] == updates[i] && updates[i..][1..] == updates[i + 1..];
      if path != [] {
        var next := Put(r.target, path, updates[i].value);
        if next.None? { return Applied(r.target, false); }
        r := Applied(next.value, true);
      }
    }
  }

  // ----- the store

  datatype State = State(config: Json, base: Json, overrides: Json, file: Json, pending: bool)

  predicate IsEmpty(j: Json) {
    j.Null? || j == Arr([]) || j == Obj(map[])
  }

  /** `applyLocalOverrides`. */
  function Override(s: State, local: Json): State {
    if IsEmpty(local) then s.(overrides := local)
    else s.(overrides := local, config := Merge(s.base, local))
  }

  /** Overrides are layered over the base at once, unless they are null or an object or a list of nothing:
      then the configuration stays as it is. */
  lemma OverridesTakeHold(s: State, local: Json)
    ensures local.Obj? && local.fields != map[] ==> Override(s, local).config == Merge(s.base, local)
    ensures local.Arr? && local.items != [] ==> Override(s, local).config == Merge(s.base, local)
    ensures local.Bool? || local.Int? || local.Real? || local.Str? ==> Override(s, local).config == Merge(s.base, local)
    ensures local in {Null, Arr([]), Obj(map[])} ==> Override(s, local).config == s.config
    ensures Override(s, local) == s.(overrides := local, config := Override(s, local).config)
  {
  }

  /** `initConfigFile`, as far as the documents go. */
  function Load(s: State): State {
    s.(config := s.file, base := s.file)
  }

  /** `reloadFile`. */
  function Reload(s: State): State {
    var loaded := Load(s).(pending := false);
    if s.overrides.Null? then loaded else Override(loaded, s.overrides)
  }

  /** `updateJSON` of a parsed document; `writable` says whether the file can be opened for writing. */
  function UpdateJson(s: State, updates: seq<Update>, writable: bool): State {
    var c := Apply(s.config, updates);
    var s' := s.(pending := true, config := c.target);
    if !c.ok then s'
    else
      var b := Apply(s.base, updates);
      s'.(base := b.target, file := if b.ok && writable then b.target else s.file)
  }

  class ConfigFile {
    var configJson: Json
    var baseJson: Json
    var localOverrides: Json
    var updatePending: bool
    /** The document in the published file. */
    var file: Json
    /** The file's write time when it was last looked at; None before that. */
    var lastWriteTime: Option<int>

    ghost function Value(): State
      reads this
    {
      State(configJson, baseJson, localOverrides, file, updatePending)
    }

    constructor (published: Json)
      ensures Value() == State(Null, Null, Null, published, false) && lastWriteTime == None
    {
      configJson, baseJson, localOverrides, updatePending, file := Null, Null, Null, false, published;
      lastWriteTime := None;
    }

    /** A write time that can be read is remembered, one that cannot leaves the old one. */
    method Remember(writeTime: Option<int>)
      modifies this`lastWriteTime
      ensures lastWriteTime == if writeTime.Some? then writeTime else old(lastWriteTime)
    {
      if writeTime.Some? { lastWriteTime := writeTime; }
    }

    method InitConfigFile(writeTime: Option<int>)
      modifies this
      ensures Value() == Load(old(Value()))
      ensures lastWriteTime == if writeTime.Some? then writeTime else old(lastWriteTime)
    {
      configJson := file;
      baseJson := configJson;
      Remember(writeTime);
    }

    method ReloadFile(writeTime: Option<int>)
      modifies this
      ensures Value() == Reload(old(Value()))
      ensures lastWriteTime == if writeTime.Some? then writeTime else old(lastWriteTime)
    {
      updatePending := false;
      configJson := file;
      baseJson := configJson;
      if !localOverrides.Null? {
        ApplyLocalOverrides(localOverrides);
      }
      Remember(writeTime);
    }

    /** `writeTime` is the file's time after it has been written. */
    method UpdateJSON(updates: seq<Update>, writable: bool, writeTime: Option<int>)
      modifies this
      ensures Value() == UpdateJson(old(Value()), updates, writable)
      ensures lastWriteTime == old(lastWriteTime) || (writable && writeTime.Some? && lastWriteTime == writeTime)
      ensures writable && Apply(old(configJson), updates).ok && Apply(old(baseJson), updates).ok && writeTime.Some? ==>
                lastWriteTime == writeTime
    {
      hide Apply;
      updatePending := true;
      var c := ApplyUpdates(configJson, updates);
      configJson := c.target;
      if !c.ok { return; }
      var b := ApplyUpdates(baseJson, updates);
      baseJson := b.target;
      if !b.ok { return; }
      if writable {
        file := baseJson;
        Remember(writeTime);
      }
    }

    method ApplyLocalOverrides(local: Json)
      modifies this
      ensures Value() == Override(old(Value()), local) && lastWriteTime == old(lastWriteTime)
    {
      localOverrides := local;
      if IsEmpty(local) { return; }
      configJson := baseJson;
      configJson := DeepMerge(configJson, local);
    }

    /** Reports an update once, and every other change of the file's write time once; a file that is
        missing or cannot be looked at is never reported. */
    method FileUpdated(writeTime: Option<int>) returns (updated: bool)
      modifies this
      ensures updated == (old(updatePending) || (writeTime.Some? && writeTime != old(lastWriteTime)))
      ensures Value() == old(Value()).(pending := false)
      ensures lastWriteTime == if updated && !old(updatePending) then writeTime else old(lastWriteTime)
    {
      if updatePending {
        updatePending := false;
        return true;
      }
      if writeTime.None? || writeTime == lastWriteTime { return false; }
      lastWriteTime := writeTime;
      updated := true;
    }
  }

  // ----- what a merge means, path by path

  /** The value at a path. */
  function Get(j: Json, path: seq<string>): Option<Json> {
    if path == [] then Some(j)
    else if j.Has(path[0]) then Get(j.fields[path[0]], path[1..])
    else None
  }

  /** The overrides say what is at the path: they hold a value that is no object there, or above it. */
  predicate Decides(overrides: Json, path: seq<string>) {
    !overrides.Obj? || (path != [] && path[0] in overrides.fields && Decides(overrides.fields[path[0]], path[1..]))
  }

  /** At every path: where the overrides decide, their word holds; elsewhere the base shows through, except
      that an object of the overrides is an object whatever the base had. */
  lemma {:induction false} MergeAtPath(b: Json, o: Json, path: seq<string>)
    ensures Decides(o, path) ==> Get(Merge(b, o), path) == Get(o, path)
    ensures !Decides(o, path) && Get(o, path).None? ==> Get(Merge(b, o), path) == Get(b, path)
    ensures !Decides(o, path) && Get(o, path).Some? ==>
      Get(Merge(b, o), path).Some? && Get(Merge(b, o), path).value.Obj?
    decreases |path|
  {
    if path != [] && o.Has(path[0]) {
      var key := path[0];
      if b.Has(key) && b.fields[key].Obj? && o.fields[key].Obj? {
        MergeAtPath(b.fields[key], o.fields[key], path[1..]);
      } else {
        PlainObjects(o.fields[key], path[1..]);
        if b.Has(key) { NotUnderScalar(b.fields[key], path[1..]); }
      }
    }
  }

  lemma {:induction false} PlainObjects(o: Json, path: seq<string>)
    ensures !Decides(o, path) && Get(o, path).Some? ==> Get(o, path).value.Obj?
    decreases |path|
  {
    if path != [] && o.Has(path[0]) { PlainObjects(o.fields[path[0]], path[1..]); }
  }

  lemma NotUnderScalar(b: Json, path: seq<string>)
    ensures !b.Obj? && path != [] ==> Get(b, path).None?
  {
  }

  /** Layering the same overrides again changes nothing. */
  lemma {:induction false} MergeIdempotent(b: Json, o: Json)
    ensures Merge(Merge(b, o), o) == Merge(b, o)
    decreases o
  {
    if o.Obj? {
      var once := Merge(b, o);
      forall key | key in once.fields
        ensures key in Merge(once, o).fields && Merge(once, o).fields[key] == once.fields[key]
      {
        if key in o.fields && o.fields[key].Obj? {
          var below := if key in Fields(b) && b.fields[key].Obj? then b.fields[key] else Obj(map[]);
          MergeIdempotent(below, o.fields[key]);
          MergeIntoNothing(o.fields[key]);
        }
      }
      assert Merge(once, o).fields.Keys == once.fields.Keys;
      assert Merge(once, o).fields == once.fields;
    }
  }

  lemma {:induction false} MergeIntoNothing(o: Json)
    ensures Merge(Obj(map[]), o) == o
  {
    if o.Obj? { assert Merge(Obj(map[]), o).fields == o.fields; }
  }

  // ----- what an update means

  /** An update fails exactly when its path crosses a value that is neither an object nor null. */
  predicate Crosses(j: Json, path: seq<string>)
    decreases |path|
  {
    path != [] && ((!j.Obj? && !j.Null?) || (j.Has(path[0]) && Crosses(j.fields[path[0]], path[1..])))
  }

  lemma {:induction false} PutFailsIff(j: Json, path: seq<string>, value: Json)
    requires path != []
    ensures Put(j, path, value).None? <==> Crosses(j, path)
    decreases |path|
  {
    if |path| > 1 && (j.Obj? || j.Null?) {
      var child := if j.Has(path[0]) then j.fields[path[0]] else Obj(map[]);
      PutFailsIff(child, path[1..], value);
    }
  }

  predicate IsPrefix(a: seq<string>, b: seq<string>) {
    |a| <= |b| && b[..|a|] == a
  }

  /** An update puts its value at its path, and leaves every path alone that neither leads to it nor goes beyond it. */
  lemma {:induction false} PutAtPath(j: Json, path: seq<string>, value: Json, other: seq<string>)
    requires path != [] && Put(j, path, value).Some?
    ensures Get(Put(j, path, value).value, path) == Some(value)
    ensures !IsPrefix(other, path) && !IsPrefix(path, other) ==> Get(Put(j, path, value).value, other) == Get(j, other)
    decreases |path|
  {
    var after := Put(j, path, value).value;
    var child := if path[0] in Fields(j) then j.fields[path[0]] else Obj(map[]);
    if |path| == 1 {
      assert path[1..] == [];
      assert other != [] && other[0] == path[0] ==> IsPrefix(path, other);
    } else if other != [] && other[0] == path[0] {
      PutAtPath(child, path[1..], value, other[1..]);
      assert !IsPrefix(other, path) && !IsPrefix(path, other) ==>
        !IsPrefix(other[1..], path[1..]) && !IsPrefix(path[1..], other[1..]) by {
        assert other == [path[0]] + other[1..] && path == [path[0]] + path[1..];
      }
    } else {
      PutAtPath(child, path[1..], value, []);
    }
  }

  /** Where the base lets a path through, the layered configuration does if and only if the overrides do. */
  lemma {:induction false} MergeCrosses(b: Json, o: Json, path: seq<string>)
    requires !Crosses(b, path)
    ensures Crosses(Merge(b, o), path) <==> Crosses(o, path)
    decreases |path|
  {
    if path != [] && o.Has(path[0]) && b.Has(path[0]) {
      var key := path[0];
      MergeCrosses(b.fields[key], o.fields[key], path[1..]);
    }
  }

  /** What an update does to the paths of later ones: those through its place have its value to cross,
      the others have what they had before. */
  lemma {:induction false} PutCrosses(j: Json, path: seq<string>, value: Json, other: seq<string>)
    requires path != [] && Put(j, path, value).Some?
    ensures Crosses(Put(j, path, value).value, other) <==>
            if IsPrefix(path, other) then Crosses(value, other[|path|..]) else Crosses(j, other)
    decreases |path|
  {
    if other != [] {
      var key := path[0];
      assert IsPrefix(path, other) <==> other[0] == key && IsPrefix(path[1..], other[1..]) by {
        PrefixUnfolds(path, other);
      }
      if other[0] == key {
        if |path| == 1 {
          assert path[1..] == [];
          assert IsPrefix(path[1..], other[1..]);
        } else {
          var child := if j.Has(key) then j.fields[key] else Obj(map[]);
          PutCrosses(child, path[1..], value, other[1..]);
          assert |path| <= |other| ==> other[1..][|path| - 1..] == other[|path|..];
        }
      }
    }
  }

  lemma PrefixUnfolds(a: seq<string>, b: seq<string>)
    requires a != [] && b != []
    ensures IsPrefix(a, b) <==> b[0] == a[0] && IsPrefix(a[1..], b[1..])
  {
    assert a == [a[0]] + a[1..];
    if |a| <= |b| {
      assert b[..|a|] == [b[0]] + b[1..][..|a| - 1];
    }
  }

  /** Does a path cross a plain value in the target once the updates have been put there? Told from the
      target and the updates alone: the last update above the path counts, the target if there is none. */
  predicate CrossesAfter(target: Json, updates: seq<Update>, path: seq<string>) {
    if updates == [] then Crosses(target, path)
    else
      var last := updates[|updates| - 1];
      var place := Path(last.key);
      if place != [] && IsPrefix(place, path) then Crosses(last.value, path[|place|..])
      else CrossesAfter(target, updates[..|updates| - 1], path)
  }

  /** No update of the document crosses a plain value, in a target that has had some updates before. */
  predicate DocumentClear(target: Json, before: seq<Update>, updates: seq<Update>) {
    forall i :: 0 <= i < |updates| ==> !CrossesAfter(target, before + updates[..i], Path(updates[i].key))
  }

  lemma CrossesAfterSnoc(target: Json, updates: seq<Update>, u: Update, path: seq<string>)
    ensures var place := Path(u.key);
            CrossesAfter(target, updates + [u], path) <==>
            if place != [] && IsPrefix(place, path) then Crosses(u.value, path[|place|..])
              else CrossesAfter(target, updates, path)
  {
    assert (updates + [u])[..|updates|] == updates;
    hide Path;
  }

  lemma ApplyOneOk(target: Json, u: Update)
    ensures ApplyOne(target, u).ok <==> !Crosses(target, Path(u.key))
  {
    hide Path, Put;
    if Path(u.key) != [] { PutFailsIff(target, Path(u.key), u.value); }
  }

  /** One update that goes through changes the crossings by what CrossesAfter says. */
  lemma ApplyOneCrosses(target: Json, u: Update, path: seq<string>)
    requires ApplyOne(target, u).ok
    ensures var place := Path(u.key);
            Crosses(ApplyOne(target, u).target, path) <==>
            if place != [] && IsPrefix(place, path) then Crosses(u.value, path[|place|..]) else Crosses(target, path)
  {
    hide Path, Put, Crosses, IsPrefix;
    if Path(u.key) != [] { PutCrosses(target, Path(u.key), u.value, path); }
  }

  /** The state's configuration crosses, where its base does not, exactly what the layer crosses after the updates. */
  ghost predicate LayerDecides(base: Json, config: Json, layer: Json, since: seq<Update>) {
    forall path :: !Crosses(base, path) ==> (Crosses(config, path) <==> CrossesAfter(layer, since, path))
  }

  lemma LayerDecidesFrom(base: Json, layer: Json)
    ensures LayerDecides(base, Merge(base, layer), layer, [])
  {
    forall path | !Crosses(base, path)
      ensures Crosses(Merge(base, layer), path) <==> CrossesAfter(layer, [], path)
    {
      MergeCrosses(base, layer, path);
    }
  }

  lemma NoLayerDecides(base: Json)
    ensures LayerDecides(base, base, Obj(map[]), [])
  {
    forall path ensures !CrossesAfter(Obj(map[]), [], path) {
    }
  }

  lemma LayerDecidesOne(base: Json, config: Json, layer: Json, since: seq<Update>, u: Update)
    requires LayerDecides(base, config, layer, since) && ApplyOne(base, u).ok && ApplyOne(config, u).ok
    ensures LayerDecides(ApplyOne(base, u).target, ApplyOne(config, u).target, layer, since + [u])
  {
    hide Crosses, CrossesAfter, Path, ApplyOne, IsPrefix;
    var base', config' := ApplyOne(base, u).target, ApplyOne(config, u).target;
    forall path | !Crosses(base', path)
      ensures Crosses(config', path) <==> CrossesAfter(layer, since + [u], path)
    {
      ApplyOneCrosses(base, u, path);
      ApplyOneCrosses(config, u, path);
      CrossesAfterSnoc(layer, since, u, path);
    }
  }

  lemma DocumentClearCons(target: Json, before: seq<Update>, u: Update, rest: seq<Update>)
    ensures DocumentClear(target, before, [u] + rest) <==>
            !CrossesAfter(target, before, Path(u.key)) && DocumentClear(target, before + [u], rest)
  {
    hide CrossesAfter, Path;
    var all := [u] + rest;
    assert all[..0] == [] && before + [] == before;
    forall i | 0 <= i < |rest|
      ensures before + all[..i + 1] == before + [u] + rest[..i] && all[i + 1] == rest[i]
    {
      assert all[..i + 1] == [u] + rest[..i];
    }
    if DocumentClear(target, before, all) {
      assert !CrossesAfter(target, before + all[..0], Path(all[0].key));
      forall i | 0 <= i < |rest| ensures !CrossesAfter(target, before + [u] + rest[..i], Path(rest[i].key)) {
        assert !CrossesAfter(target, before + all[..i + 1], Path(all[i + 1].key));
      }
    }
    if !CrossesAfter(target, before, Path(u.key)) && DocumentClear(target, before + [u], rest) {
      forall i | 0 <= i < |all| ensures !CrossesAfter(target, before + all[..i], Path(all[i].key)) {
        if i > 0 {
          assert !CrossesAfter(target, before + [u] + rest[..i - 1], Path(rest[i - 1].key));
        }
      }
    }
  }

  /** A whole document the base takes goes through in the layered configuration if and only if none of its
      paths crosses a plain value of the layer, as changed by the updates before it. */
  lemma {:induction false} DocumentAcceptedIff(base: Json, config: Json, layer: Json, since: seq<Update>,
                                               updates: seq<Update>)
    requires LayerDecides(base, config, layer, since) && Apply(base, updates).ok
    ensures Apply(config, updates).ok <==> DocumentClear(layer, since, updates)
    ensures Apply(config, updates).ok ==>
              LayerDecides(Apply(base, updates).target, Apply(config, updates).target, layer, since + updates)
    decreases |updates|
  {
    hide LayerDecides, CrossesAfter, Crosses, Path, ApplyOne, DocumentClear;
    if updates == [] {
      NothingToCross(layer, since);
      assert since + updates == since;
    } else {
      var u, rest := updates[0], updates[1..];
      assert updates == [u] + rest && since + updates == since + [u] + rest;
      DocumentClearCons(layer, since, u, rest);
      OneAcceptedIff(base, config, layer, since, u);
      if ApplyOne(config, u).ok {
        LayerDecidesOne(base, config, layer, since, u);
        DocumentAcceptedIff(ApplyOne(base, u).target, ApplyOne(config, u).target, layer, since + [u], rest);
      }
    }
  }

  lemma NothingToCross(target: Json, before: seq<Update>)
    ensures DocumentClear(target, before, [])
  {
  }

  lemma OneAcceptedIff(base: Json, config: Json, layer: Json, since: seq<Update>, u: Update)
    requires LayerDecides(base, config, layer, since) && ApplyOne(base, u).ok
    ensures ApplyOne(config, u).ok <==> !CrossesAfter(layer, since, Path(u.key))
  {
    hide Crosses, CrossesAfter, Path, ApplyOne;
    ApplyOneOk(base, u);
    ApplyOneOk(config, u);
  }

  /** A document goes through in a target if and only if none of its paths crosses a plain value there. */
  lemma ApplyOkIff(target: Json, updates: seq<Update>)
    ensures Apply(target, updates).ok <==> DocumentClear(target, [], updates)
  {
    ApplyOkFrom(target, target, [], updates);
  }

  lemma {:induction false} ApplyOkFrom(start: Json, now: Json, before: seq<Update>, updates: seq<Update>)
    requires forall path :: Crosses(now, path) <==> CrossesAfter(start, before, path)
    ensures Apply(now, updates).ok <==> DocumentClear(start, before, updates)
    decreases |updates|
  {
    hide Crosses, CrossesAfter, Path, ApplyOne, DocumentClear, IsPrefix;
    if updates == [] {
      NothingToCross(start, before);
    } else {
      var u, rest := updates[0], updates[1..];
      assert updates == [u] + rest;
      DocumentClearCons(start, before, u, rest);
      ApplyOneOk(now, u);
      if ApplyOne(now, u).ok {
        forall path ensures Crosses(ApplyOne(now, u).target, path) <==> CrossesAfter(start, before + [u], path) {
          ApplyOneCrosses(now, u, path);
          CrossesAfterSnoc(start, before, u, path);
        }
        ApplyOkFrom(start, ApplyOne(now, u).target, before + [u], rest);
      }
    }
  }

  /** After a reload a saved edit is in force at a path the overrides do not mention; where they decide, theirs is. */
  lemma EditSurvivesReload(s: State, path: seq<string>, value: Json)
    requires path != [] && Put(s.base, path, value) == Some(s.file)
    ensures IsEmpty(s.overrides) || (!Decides(s.overrides, path) && Get(s.overrides, path).None?) ==>
              Get(Reload(s).config, path) == Some(value)
    ensures !IsEmpty(s.overrides) && Decides(s.overrides, path) ==>
      Get(Reload(s).config, path) == Get(s.overrides, path)
  {
    PutAtPath(s.base, path, value, []);
    MergeAtPath(s.file, s.overrides, path);
    hide Merge, Put, Get, Decides;
  }

  // ----- runs

  datatype Command =
    | Init
    | Edited(document: Json)                              // someone publishes another file
    | Reread
    | Change(updates: seq<Update>, writable: bool)
    | Malformed                                           // updateJSON of text that does not parse
    | Layer(local: Json)
    | Polled                                              // fileUpdated

  function Step(s: State, cmd: Command): State {
    match cmd
    case Init => Load(s)
    case Edited(document) => s.(file := document)
    case Reread => Reload(s)
    case Change(updates, writable) => UpdateJson(s, updates, writable)
    case Malformed => s.(pending := true)
    case Layer(local) => Override(s, local)
    case Polled => s.(pending := false)
  }

  function Run(s: State, cmds: seq<Command>): State
    decreases |cmds|
  {
    if cmds == [] then s else Run(Step(s, cmds[0]), cmds[1..])
  }

  function Start(published: Json): State {
    State(Null, Null, Null, published, false)
  }

  /** The documents as they would be without a runtime configuration and without overrides: the base is
      the loaded file with the updates folded in. */
  datatype Pristine = Pristine(base: Json, file: Json)

  function PristineStep(p: Pristine, cmd: Command): Pristine {
    match cmd
    case Init => Pristine(p.file, p.file)
    case Edited(document) => Pristine(p.base, document)
    case Reread => Pristine(p.file, p.file)
    case Change(updates, writable) =>
      var b := Apply(p.base, updates);
      Pristine(b.target, if b.ok && writable then b.target else p.file)
    case Malformed => p
    case Layer(_) => p
    case Polled => p
  }

  function PristineRun(p: Pristine, cmds: seq<Command>): Pristine
    decreases |cmds|
  {
    if cmds == [] then p else PristineRun(PristineStep(p, cmds[0]), cmds[1..])
  }

  /** Every update goes through in the runtime configuration it meets. */
  predicate AllAccepted(s: State, cmds: seq<Command>)
    decreases |cmds|
  {
    cmds != [] ==>
      (cmds[0].Change? ==> Apply(s.config, cmds[0].updates).ok) && AllAccepted(Step(s, cmds[0]), cmds[1..])
  }

  /** What a caller knows of the runtime configuration: the overrides recorded, those in force, and the
      updates made since they were layered. */
  datatype Layering = Layering(recorded: Json, layer: Json, since: seq<Update>)

  const NO_LAYER := Obj(map[])

  const NOTHING_LAYERED := Layering(Null, NO_LAYER, [])

  function LayeringStep(l: Layering, cmd: Command): Layering {
    match cmd
    case Init => l.(layer := NO_LAYER, since := [])
    case Reread => l.(layer := if IsEmpty(l.recorded) then NO_LAYER else l.recorded, since := [])
    case Layer(local) => if IsEmpty(local) then l.(recorded := local) else Layering(local, local, [])
    case Change(updates, _) => l.(since := l.since + updates)
    case _ => l
  }

  /** No update in the run crosses a plain value of the base it would be folded into. */
  predicate BasesClear(p: Pristine, cmds: seq<Command>)
    decreases |cmds|
  {
    cmds != [] ==>
      (cmds[0].Change? ==> DocumentClear(p.base, [], cmds[0].updates)) &&
        BasesClear(PristineStep(p, cmds[0]), cmds[1..])
  }

  /** No update in the run crosses a plain value of the overrides in force. */
  predicate LayersClear(l: Layering, cmds: seq<Command>)
    decreases |cmds|
  {
    cmds != [] ==>
      (cmds[0].Change? ==> DocumentClear(l.layer, l.since, cmds[0].updates)) &&
        LayersClear(LayeringStep(l, cmds[0]), cmds[1..])
  }

  ghost predicate Fits(s: State, l: Layering) {
    l.recorded == s.overrides && LayerDecides(s.base, s.config, l.layer, l.since)
  }

  /** A fresh store fits: nothing layered yet. */
  lemma StartFits(published: Json)
    ensures Fits(Start(published), NOTHING_LAYERED)
  {
    NoLayerDecides(Null);
  }

  lemma StepFits(s: State, l: Layering, cmd: Command)
    requires Fits(s, l)
    requires cmd.Change? ==> Apply(s.base, cmd.updates).ok && Apply(s.config, cmd.updates).ok
    ensures Fits(Step(s, cmd), LayeringStep(l, cmd))
  {
    hide LayerDecides, Apply, Merge;
    match cmd
    case Init => NoLayerDecides(s.file);
    case Reread =>
      NoLayerDecides(s.file);
      LayerDecidesFrom(s.file, s.overrides);
    case Layer(local) => LayerDecidesFrom(s.base, local);
    case Change(updates, _) => DocumentAcceptedIff(s.base, s.config, l.layer, l.since, updates);
    case _ =>
  }

  /** In a run whose updates cross only objects in the base, every update goes through at run time if and
      only if none crosses a plain value of the overrides in force. */
  lemma {:induction false} AcceptedIffLayersClear(s: State, l: Layering, cmds: seq<Command>)
    requires Fits(s, l) && BasesClear(Pristine(s.base, s.file), cmds)
    ensures AllAccepted(s, cmds) <==> LayersClear(l, cmds)
    decreases |cmds|
  {
    hide Fits, Apply, Merge, DocumentClear, LayerDecides;
    if cmds != [] {
      var cmd := cmds[0];
      if cmd.Change? {
        ApplyOkIff(s.base, cmd.updates);
        FitsDecides(s, l, cmd.updates);
      }
      if cmd.Change? ==> Apply(s.config, cmd.updates).ok {
        StepFits(s, l, cmd);
        StepIsPristine(s, cmd);
        AcceptedIffLayersClear(Step(s, cmd), LayeringStep(l, cmd), cmds[1..]);
      }
    }
  }

  lemma FitsDecides(s: State, l: Layering, updates: seq<Update>)
    requires Fits(s, l) && Apply(s.base, updates).ok
    ensures Apply(s.config, updates).ok <==> DocumentClear(l.layer, l.since, updates)
  {
    hide LayerDecides, DocumentClear, Apply;
    DocumentAcceptedIff(s.base, s.config, l.layer, l.since, updates);
  }

  lemma StepIsPristine(s: State, cmd: Command)
    requires cmd.Change? ==> Apply(s.config, cmd.updates).ok
    ensures var s' := Step(s, cmd); Pristine(s'.base, s'.file) == PristineStep(Pristine(s.base, s.file), cmd)
  {
    hide Apply, Merge;
  }

  /** The same from any store that fits what is known of it. */
  lemma FittingRunsArePristine(s: State, l: Layering, cmds: seq<Command>)
    requires Fits(s, l) && BasesClear(Pristine(s.base, s.file), cmds) && LayersClear(l, cmds)
    ensures Pristine(Run(s, cmds).base, Run(s, cmds).file) == PristineRun(Pristine(s.base, s.file), cmds)
  {
    hide Fits, BasesClear, LayersClear, AllAccepted, Run, PristineRun;
    AcceptedIffLayersClear(s, l, cmds);
    AcceptedRunsArePristine(s, cmds);
  }

  /** Over any run of a fresh store whose updates cross only objects, in the base and in the overrides in
      force: base and published file are the loaded file with the updates folded in, whatever was layered
      and when. */
  lemma OverridesNeverLeak(published: Json, cmds: seq<Command>)
    requires BasesClear(Pristine(Null, published), cmds) && LayersClear(NOTHING_LAYERED, cmds)
    ensures var s := Run(Start(published), cmds);
            Pristine(s.base, s.file) == PristineRun(Pristine(Null, published), cmds)
  {
    hide Fits, BasesClear, LayersClear, Run, PristineRun;
    StartFits(published);
    FittingRunsArePristine(Start(published), NOTHING_LAYERED, cmds);
  }

  /** In such a run every update goes through at run time, and where one crosses a plain value of the
      overrides in force, not every update does. */
  lemma RunTakesUpdatesIff(published: Json, cmds: seq<Command>)
    requires BasesClear(Pristine(Null, published), cmds)
    ensures AllAccepted(Start(published), cmds) <==> LayersClear(NOTHING_LAYERED, cmds)
  {
    hide Fits, BasesClear, LayersClear, AllAccepted;
    StartFits(published);
    AcceptedIffLayersClear(Start(published), NOTHING_LAYERED, cmds);
  }

  lemma {:induction false} AcceptedRunsArePristine(s: State, cmds: seq<Command>)
    requires AllAccepted(s, cmds)
    ensures Pristine(Run(s, cmds).base, Run(s, cmds).file) == PristineRun(Pristine(s.base, s.file), cmds)
    decreases |cmds|
  {
    if cmds != [] {
      hide Apply, Merge, Step, PristineStep;
      StepIsPristine(s, cmds[0]);
      AcceptedRunsArePristine(Step(s, cmds[0]), cmds[1..]);
    }
  }

  lemma {:induction false} PutChangesNothingIff(j: Json, path: seq<string>, value: Json)
    requires path != [] && Put(j, path, value).Some?
    ensures Put(j, path, value).value == j <==> Get(j, path) == Some(value)
    decreases |path|
  {
    var after := Put(j, path, value).value;
    var key := path[0];
    if j.Has(key) {
      if |path| == 1 {
        assert path[1..] == [];
        assert after.fields[key] == value;
        assert j.fields[key] == value ==> after.fields == j.fields;
      } else {
        PutChangesNothingIff(j.fields[key], path[1..], value);
        assert after.fields[key] == Put(j.fields[key], path[1..], value).value;
        assert after.fields[key] == j.fields[key] ==> after.fields == j.fields;
      }
    } else {
      assert after.Has(key);
    }
  }

  /** One update the base can take, right after layering: it goes through at run time if and only if its
      path crosses no plain value of the overrides. It is folded into the base, and saved, if and only if
      that is so or the base says already what it says. */
  lemma UpdateReachesBaseIff(s: State, u: Update, writable: bool)
    requires s.config == Merge(s.base, s.overrides) && Path(u.key) != [] && !Crosses(s.base, Path(u.key))
    ensures var folded, s' := Put(s.base, Path(u.key), u.value), UpdateJson(s, [u], writable);
            var reaches := !Crosses(s.overrides, Path(u.key)) || Get(s.base, Path(u.key)) == Some(u.value);
            && (Apply(s.config, [u]).ok <==> !Crosses(s.overrides, Path(u.key)))
            && folded.Some?
            && (s'.base == folded.value <==> reaches)
            && (s.file == s.base && writable ==> (s'.file == folded.value <==> reaches))
  {
    hide Path, Put, Crosses, Get, Merge;
    var path := Path(u.key);
    PutFailsIff(s.base, path, u.value);
    PutFailsIff(s.config, path, u.value);
    MergeCrosses(s.base, s.overrides, path);
    PutChangesNothingIff(s.base, path, u.value);
    AppliedAlone(s.base, u);
    AppliedAlone(s.config, u);
  }

  /** Without overrides the runtime configuration stays the base, as long as updates cross only objects. An
      update that fails half way would leave its first items in the runtime configuration only. */
  lemma {:induction false} PlainRuns(s: State, cmds: seq<Command>)
    requires s.config == s.base && s.overrides.Null?
    requires forall i :: 0 <= i < |cmds| ==> !cmds[i].Layer?
    requires BasesClear(Pristine(s.base, s.file), cmds)
    ensures Run(s, cmds).config == Run(s, cmds).base
    decreases |cmds|
  {
    if cmds != [] {
      hide Apply, Merge, DocumentClear;
      if cmds[0].Change? { ApplyOkIff(s.base, cmds[0].updates); }
      StepIsPristine(s, cmds[0]);
      PlainRuns(Step(s, cmds[0]), cmds[1..]);
    }
  }

  /** The commands with every layering of overrides left out. */
  function WithoutLayers(cmds: seq<Command>): seq<Command> {
    if cmds == [] then []
    else (if cmds[0].Layer? then [] else [cmds[0]]) + WithoutLayers(cmds[1..])
  }

  lemma {:induction false} PristineIgnoresLayers(p: Pristine, cmds: seq<Command>)
    ensures PristineRun(p, WithoutLayers(cmds)) == PristineRun(p, cmds)
    decreases |cmds|
  {
    if cmds != [] {
      hide PristineStep;
      var rest := WithoutLayers(cmds[1..]);
      PristineIgnoresLayers(PristineStep(p, cmds[0]), cmds[1..]);
      if cmds[0].Layer? {
        assert [] + rest == rest;
        LayerIsPristine(p, cmds[0]);
      } else {
        assert ([cmds[0]] + rest)[1..] == rest;
      }
    }
  }

  lemma LayerIsPristine(p: Pristine, cmd: Command)
    requires cmd.Layer?
    ensures PristineStep(p, cmd) == p
  {
  }

  lemma {:induction false} BasesIgnoreLayers(p: Pristine, cmds: seq<Command>)
    ensures BasesClear(p, WithoutLayers(cmds)) <==> BasesClear(p, cmds)
    decreases |cmds|
  {
    if cmds != [] {
      hide PristineStep, DocumentClear;
      var rest := WithoutLayers(cmds[1..]);
      BasesIgnoreLayers(PristineStep(p, cmds[0]), cmds[1..]);
      if cmds[0].Layer? {
        assert [] + rest == rest;
        LayerIsPristine(p, cmds[0]);
      } else {
        assert ([cmds[0]] + rest)[1..] == rest;
      }
    }
  }

  /** Two runs that differ only in the overrides layered on the way, from stores that fit what is known of
      them and agree on base and file. */
  lemma FittingRunsIgnoreOverrides(s1: State, l1: Layering, cmds1: seq<Command>,
                                   s2: State, l2: Layering, cmds2: seq<Command>)
    requires s1.base == s2.base && s1.file == s2.file
    requires WithoutLayers(cmds1) == WithoutLayers(cmds2)
    requires Fits(s1, l1) && Fits(s2, l2) && BasesClear(Pristine(s1.base, s1.file), WithoutLayers(cmds1))
    requires LayersClear(l1, cmds1) && LayersClear(l2, cmds2)
    ensures Run(s1, cmds1).base == Run(s2, cmds2).base && Run(s1, cmds1).file == Run(s2, cmds2).file
  {
    hide Run, PristineRun, WithoutLayers, Fits, BasesClear, LayersClear;
    var p := Pristine(s1.base, s1.file);
    BasesIgnoreLayers(p, cmds1);
    BasesIgnoreLayers(p, cmds2);
    FittingRunsArePristine(s1, l1, cmds1);
    FittingRunsArePristine(s2, l2, cmds2);
    PristineIgnoresLayers(p, cmds1);
    PristineIgnoresLayers(p, cmds2);
  }

  /** Two runs of a fresh store that differ only in the overrides layered on the way end with the same base
      and the same published file, as long as no update crosses a plain value of the base or of either
      run's overrides. */
  lemma BaseIgnoresOverrides(published: Json, cmds1: seq<Command>, cmds2: seq<Command>)
    requires WithoutLayers(cmds1) == WithoutLayers(cmds2)
    requires BasesClear(Pristine(Null, published), WithoutLayers(cmds1))
    requires LayersClear(NOTHING_LAYERED, cmds1) && LayersClear(NOTHING_LAYERED, cmds2)
    ensures var s1, s2 := Run(Start(published), cmds1), Run(Start(published), cmds2);
            s1.base == s2.base && s1.file == s2.file
  {
    hide Run, WithoutLayers, Fits, BasesClear, LayersClear;
    StartFits(published);
    FittingRunsIgnoreOverrides(Start(published), NOTHING_LAYERED, cmds1, Start(published), NOTHING_LAYERED, cmds2);
  }

  /** Where an override puts a number in the way of an update, the published file misses the update. */
  lemma OverrideBlocksUpdate()
    ensures var base := Obj(map["a" := Obj(map[])]);
            var plain := State(base, base, Null, base, false);
            var updates := [Update("a.b", Int(1))];
            && UpdateJson(plain, updates, true).file == Obj(map["a" := Obj(map["b" := Int(1)])])
            && UpdateJson(Override(plain, Obj(map["a" := Int(5)])), updates, true).file == base
  {
    var base := Obj(map["a" := Obj(map[])]);
    var edit := Update("a.b", Int(1));
    BlockedPath();
    assert Merge(base, Obj(map["a" := Int(5)])).fields == map["a" := Int(5)];
    assert Put(Obj(map[]), ["b"], Int(1)) == Some(Obj(map["b" := Int(1)]));
    assert ["a", "b"][1..] == ["b"];
    var after := Put(base, ["a", "b"], Int(1));
    assert after.Some? && after.value.fields == map["a" := Obj(map["b" := Int(1)])];
    assert Put(Obj(map["a" := Int(5)]), ["a", "b"], Int(1)).None?;
    AppliedAlone(base, edit);
    AppliedAlone(Obj(map["a" := Int(5)]), edit);
  }

  lemma AppliedAlone(target: Json, u: Update)
    ensures Apply(target, [u]) == ApplyOne(target, u)
  {
    hide ApplyOne;
    assert [u][1..] == [];
  }

  lemma BlockedPath()
    ensures Path("a.b") == ["a", "b"]
  {
    assert "a.b"[1] == '.' && "" + ['a'] == "a" && "" + ['b'] == "b";
    assert "a.b"[1..] == ".b" && ".b"[1..] == "b" && "b"[1..] == "";
    assert PartsFrom("", "b") == ["b"];
    assert PartsFrom("b", "") == PartsFrom("", "b");
    assert PartsFrom(".b", "a") == ["a"] + PartsFrom("b", "");
    assert PartsFrom("a.b", "") == PartsFrom(".b", "a");
  }

  /** Layering, and layering again any number of times with reloads of an unchanged file in between, leaves
      exactly the base with the overrides on top. */
  lemma {:induction false} LayeringDoesNotStack(s: State, local: Json, cmds: seq<Command>)
    requires !IsEmpty(local)
    requires s.overrides == local && s.config == Merge(s.base, local) && s.file == s.base
    requires forall i :: 0 <= i < |cmds| ==> cmds[i] == Layer(local) || cmds[i].Reread?
    ensures Run(s, cmds).base == s.base && Run(s, cmds).config == Merge(s.base, local)
    ensures Merge(Run(s, cmds).config, local) == Run(s, cmds).config
    decreases |cmds|
  {
    hide Merge;
    MergeIdempotent(s.base, local);
    if cmds != [] {
      LayeringDoesNotStack(Step(s, cmds[0]), local, cmds[1..]);
    }
  }
}
