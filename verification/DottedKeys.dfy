/** How the dotted keys of an update of de_databus/configFile.cpp name places in the configuration. */
module DottedKeys {
  import opened Basics
  import opened Json
  import opened ConfigLayers

  predicate DotFree(s: string) { '.' !in s }

  /** Parts joined by single dots. */
  function Join(parts: seq<string>): string
    requires parts != []
  {
    if |parts| == 1 then parts[0] else parts[0] + "." + Join(parts[1..])
  }

  lemma {:induction false} PartsFromDotFree(a: string, rest: string, part: string)
    requires DotFree(a)
    ensures PartsFrom(a + rest, part) == PartsFrom(rest, part + a)
  {
    if a == "" {
      assert a + rest == rest && part + a == part;
    } else {
      var key := a + rest;
      assert key[0] == a[0] && key[0] != '.' && key[1..] == a[1..] + rest;
      PartsFromDotFree(a[1..], rest, part + [a[0]]);
      assert part + [a[0]] + a[1..] == part + a;
    }
  }

  /** A text without dots is one part, unless it is empty. */
  lemma OnePart(part: string)
    requires DotFree(part)
    ensures Parts(part) == if part == "" then [] else [part]
  {
    PartsFromDotFree(part, "", "");
    assert part + "" == part && "" + part == part;
  }

  /** A dot separates: what stands before it and what stands after it are split on their own. */
  lemma PartsOfBoth(a: string, b: string)
    ensures Parts(a + "." + b) == Parts(a) + Parts(b)
  {
    PartsFromBoth(a, b, "");
  }

  lemma {:induction false} PartsFromBoth(a: string, b: string, part: string)
    ensures PartsFrom(a + "." + b, part) == PartsFrom(a, part) + Parts(b)
    decreases |a|
  {
    var key := a + "." + b;
    if a == "" {
      assert key == "." + b && key[1..] == b;
    } else {
      assert key[0] == a[0] && key[1..] == a[1..] + "." + b;
      PartsFromBoth(a[1..], b, if a[0] == '.' then "" else part + [a[0]]);
    }
  }

  /** Dots before a key, after it, and next to a dot in it change nothing. */
  lemma ExtraDots(a: string, b: string)
    ensures Parts("." + a) == Parts(a) == Parts(a + ".")
    ensures Parts(a + ".." + b) == Parts(a + "." + b)
  {
    OnePart("");
    PartsOfBoth("", a);
    assert "" + "." + a == "." + a;
    PartsOfBoth(a, "");
    assert a + "." + "" == a + ".";
    PartsOfBoth(a + ".", b);
    assert a + "." + "." + b == a + ".." + b;
    PartsOfBoth(a, b);
  }

  /** Two or more texts, none of them empty and none with a dot, are the path of their joined key. */
  lemma PathOfJoined(parts: seq<string>)
    requires |parts| >= 2 && forall i :: 0 <= i < |parts| ==> parts[i] != "" && DotFree(parts[i])
    ensures Path(Join(parts)) == parts
  {
    PartsOfJoined(parts);
    assert Join(parts)[|parts[0]|] == '.';
  }

  lemma {:induction false} PartsOfJoined(parts: seq<string>)
    requires parts != [] && forall i :: 0 <= i < |parts| ==> parts[i] != "" && DotFree(parts[i])
    ensures Parts(Join(parts)) == parts
  {
    OnePart(parts[0]);
    if |parts| > 1 {
      PartsOfJoined(parts[1..]);
      PartsOfBoth(parts[0], Join(parts[1..]));
      assert [parts[0]] + parts[1..] == parts;
    }
  }

  /** No part of a dotted key has a dot or is empty, and a key without dots is its own path. */
  lemma PathIsDotFree(key: string)
    ensures DotFree(key) ==> Path(key) == [key]
    ensures !DotFree(key) ==> forall i :: 0 <= i < |Path(key)| ==> Path(key)[i] != "" && DotFree(Path(key)[i])
  {
    PartsAreDotFree(key, "");
  }

  lemma {:induction false} PartsAreDotFree(key: string, part: string)
    requires DotFree(part)
    ensures forall i :: 0 <= i < |PartsFrom(key, part)| ==> DotFree(PartsFrom(key, part)[i])
    decreases |key|
  {
    if key != "" {
      PartsAreDotFree(key[1..], if key[0] == '.' then "" else part + [key[0]]);
    }
  }

  /** Joining the parts of a key and splitting again gives the same parts: every dotted key stands for the
      key in which single dots separate its parts. */
  lemma PathIsNormal(key: string)
    requires Parts(key) != []
    ensures Parts(Join(Parts(key))) == Parts(key)
  {
    PartsAreDotFree(key, "");
    PartsOfJoined(Parts(key));
  }

  /** An update under a joined key that goes through leaves its value at that place, and what lies elsewhere
      as it was. */
  lemma UpdateLands(target: Json, parts: seq<string>, value: Json, other: seq<string>)
    requires |parts| >= 2 && forall i :: 0 <= i < |parts| ==> parts[i] != "" && DotFree(parts[i])
    requires ApplyOne(target, Update(Join(parts), value)).ok
    ensures var after := ApplyOne(target, Update(Join(parts), value)).target;
            && Get(after, parts) == Some(value)
            && (!IsPrefix(other, parts) && !IsPrefix(parts, other) ==> Get(after, other) == Get(target, other))
  {
    PathOfJoined(parts);
    PutAtPath(target, parts, value, other);
  }
}
