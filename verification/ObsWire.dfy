/** The wire form of an observation frame (helpers/obs.hpp): a strict builder and a strict parser. */
module ObsWire {
  import opened Basics
  import opened Json
  import opened Observations

  const EPS := 0.000001

  function Wrap64(n: int): Int64 {
    (n + 0x8000_0000_0000_0000) % 0x1_0000_0000_0000_0000 - 0x8000_0000_0000_0000
  }

  /** A wide integer keeps its lowest 64 bits, a narrow one its value. */
  lemma WrapMeans64(n: int)
    ensures Wrap64(n) % 0x1_0000_0000_0000_0000 == n % 0x1_0000_0000_0000_0000
    ensures -0x8000_0000_0000_0000 <= n < 0x8000_0000_0000_0000 ==> Wrap64(n) == n
  {
  }

  /** `obsBoxValid`. */
  predicate BoxValid(o: Observation) {
    && 0.0 <= o.x <= 1.0 && 0.0 <= o.y <= 1.0
    && 0.0 < o.w <= 1.0 && 0.0 < o.h <= 1.0
    && o.x + o.w <= 1.0 + EPS && o.y + o.h <= 1.0 + EPS
  }

  /** A box inside the unit square is valid, and a valid one is inside the square that reaches one millionth
      beyond it to the right and below. */
  lemma BoxIsInside(o: Observation)
    ensures 0.0 <= o.x && o.x + o.w <= 1.0 && 0.0 <= o.y && o.y + o.h <= 1.0 && o.w > 0.0 && o.h > 0.0 ==> BoxValid(o)
    ensures BoxValid(o) <==>
            && 0.0 <= o.x < o.x + o.w <= 1.000001 && 0.0 <= o.y < o.y + o.h <= 1.000001
            && o.x <= 1.0 && o.w <= 1.0 && o.y <= 1.0 && o.h <= 1.0
  {
  }

  // ----- building

  /** The contract of one observation. */
  predicate Sendable(o: Observation) {
    o.cls != "" && 0.0 <= o.conf <= 1.0 && BoxValid(o) && (o.attrs.Null? || o.attrs.Obj?)
  }

  /** The wire object of one observation. */
  function Entry(o: Observation): Json {
    var required: map<string, Json> :=
      map["cls" := Str(o.cls), "conf" := Real(o.conf), "box" := Arr([Real(o.x), Real(o.y), Real(o.w), Real(o.h)])];
    var withTrk := if o.hasTrk then required["trk" := Int(o.trk)] else required;
    var withId := if o.hasClsId then withTrk["cls_id" := Int(o.clsId)] else withTrk;
    Obj(if o.attrs.Obj? then withId["attrs" := o.attrs] else withId)
  }

  function Entries(obs: seq<Observation>): (es: seq<Json>)
    ensures |es| == |obs|
  {
    seq(|obs|, i requires 0 <= i < |obs| => Entry(obs[i]))
  }

  predicate FrameSendable(f: Frame) {
    f.camId != "" && f.tmCapture >= 0 && forall i :: 0 <= i < |f.obs| ==> Sendable(f.obs[i])
  }

  function Wire(f: Frame): Json {
    Obj(map["cam_id" := Str(f.camId), "tm_capture" := Int(f.tmCapture), "obs" := Arr(Entries(f.obs))])
  }

  /** `obsBuild`. */
  method Build(f: Frame) returns (out: Option<Json>)
    ensures out == if FrameSendable(f) then Some(Wire(f)) else None
  {
    if f.camId == "" || f.tmCapture < 0 { return None; }
    var arr: seq<Json> := [];
    for i := 0 to |f.obs|
      invariant forall j :: 0 <= j < i ==> Sendable(f.obs[j])
      invariant |arr| == i && forall j :: 0 <= j < i ==> arr[j] == Entry(f.obs[j])
    {
      hide Entry;
      var o := f.obs[i];
      if o.cls == "" { return None; }
      if !(0.0 <= o.conf <= 1.0) { return None; }
      if !BoxValid(o) { return None; }
      if !o.attrs.Null? && !o.attrs.Obj? { return None; }
      arr := arr + [Entry(o)];
    }
    assert arr == Entries(f.obs);
    out := Some(Obj(map["cam_id" := Str(f.camId), "tm_capture" := Int(f.tmCapture), "obs" := Arr(arr)]));
  }

  /** The keys of the wire object: three of a frame, and three of an entry with up to three optional ones. */
  lemma WireKeys(f: Frame, i: nat)
    requires i < |f.obs|
    ensures var o, e := f.obs[i], Wire(f).fields["obs"].items[i];
            && Wire(f).fields.Keys == {"cam_id", "tm_capture", "obs"}
            && Wire(f).fields["cam_id"] == Str(f.camId) && Wire(f).fields["tm_capture"] == Int(f.tmCapture)
            && e.Obj? && {"cls", "conf", "box"} <= e.fields.Keys <= {"cls", "conf", "box", "trk", "cls_id", "attrs"}
            && e.fields["cls"] == Str(o.cls) && e.fields["conf"] == Real(o.conf)
            && e.fields["box"] == Arr([Real(o.x), Real(o.y), Real(o.w), Real(o.h)])
            && (if o.hasTrk then e.Has("trk") && e.fields["trk"] == Int(o.trk) else !e.Has("trk"))
            && (if o.hasClsId then e.Has("cls_id") && e.fields["cls_id"] == Int(o.clsId) else !e.Has("cls_id"))
            && (if o.attrs.Obj? then e.Has("attrs") && e.fields["attrs"] == o.attrs else !e.Has("attrs"))
  {
    assert Wire(f).fields["obs"].items[i] == Entry(f.obs[i]);
  }

  // ----- parsing

  predicate Box4(j: Json) {
    j.Arr? && |j.items| == 4 && forall k :: 0 <= k < 4 ==> j.items[k].IsNumber()
  }

  /** One entry, read strictly; integers take the machine widths of their fields. */
  function ParseEntry(e: Json): Option<Observation> {
    if !e.Has("cls") || !e.fields["cls"].Str? || e.fields["cls"].s == "" then None
    else if !e.Has("conf") || !e.fields["conf"].IsNumber() || !(0.0 <= e.fields["conf"].Number() <= 1.0) then None
    else if !e.Has("box") || !Box4(e.fields["box"]) then None
    else if e.Has("trk") && !e.fields["trk"].Int? then None
    else if e.Has("cls_id") && !e.fields["cls_id"].Int? then None
    else if e.Has("attrs") && !e.fields["attrs"].Obj? then None
    else
      var box := e.fields["box"].items;
      var o := Observation(
        e.Has("trk"), if e.Has("trk") then Wrap64(e.fields["trk"].i) else -1,
        e.fields["cls"].s,
        e.Has("cls_id"), if e.Has("cls_id") then Wrap32(e.fields["cls_id"].i) else -1,
        e.fields["conf"].Number(), box[0].Number(), box[1].Number(), box[2].Number(), box[3].Number(),
        if e.Has("attrs") then e.fields["attrs"] else Null);
      if BoxValid(o) then Some(o) else None
  }

  /** All entries, or nothing if one is refused. */
  function ParseEntries(es: seq<Json>): (r: Option<seq<Observation>>)
    ensures r.Some? ==> |r.value| == |es| && forall i :: 0 <= i < |es| ==> ParseEntry(es[i]) == Some(r.value[i])
    ensures r.None? ==> exists i :: 0 <= i < |es| && ParseEntry(es[i]).None?
  {
    if es == [] then Some([])
    else
      var front, last := ParseEntries(es[..|es| - 1]), ParseEntry(es[|es| - 1]);
      if front.Some? && last.Some? then Some(front.value + [last.value]) else None
  }

  predicate HeaderValid(ms: Json) {
    && ms.Has("cam_id") && ms.fields["cam_id"].Str? && ms.fields["cam_id"].s != ""
    && ms.Has("tm_capture") && ms.fields["tm_capture"].Int? && Wrap64(ms.fields["tm_capture"].i) >= 0
    && ms.Has("obs") && ms.fields["obs"].Arr?
  }

  function ParseFrame(ms: Json): Option<Frame> {
    if !HeaderValid(ms) then None
    else
      match ParseEntries(ms.fields["obs"].items)
      case None => None
      case Some(obs) => Some(Frame(ms.fields["cam_id"].s, Wrap64(ms.fields["tm_capture"].i), obs))
  }

  /** `obsParse`. */
  method Parse(ms: Json) returns (out: Option<Frame>)
    ensures out == ParseFrame(ms)
  {
    hide ParseEntry;
    if !ms.Has("cam_id") || !ms.fields["cam_id"].Str? { return None; }
    if ms.fields["cam_id"].s == "" { return None; }
    if !ms.Has("tm_capture") || !ms.fields["tm_capture"].Int? { return None; }
    var tmCapture := Wrap64(ms.fields["tm_capture"].i);
    if tmCapture < 0 { return None; }
    if !ms.Has("obs") || !ms.fields["obs"].Arr? { return None; }
    var arr := ms.fields["obs"].items;
    var obs: seq<Observation> := [];
    for i := 0 to |arr|
      invariant ParseEntries(arr[..i]) == Some(obs)
    {
      assert arr[..i + 1][..i] == arr[..i];
      var o := ParseEntry(arr[i]);
      if o.None? {
        RefusedRefuses(arr, i);
        return None;
      }
      obs := obs + [o.value];
    }
    assert arr[..|arr|] == arr;
    out := Some(Frame(ms.fields["cam_id"].s, tmCapture, obs));
  }

  lemma RefusedRefuses(es: seq<Json>, i: nat)
    requires i < |es| && ParseEntry(es[i]).None?
    ensures ParseEntries(es).None?
  {
    hide ParseEntry;
  }

  // ----- round trips

  /** The integers have the widths of the C++ fields. */
  predicate InRange(o: Observation) {
    && -0x8000_0000_0000_0000 <= o.trk < 0x8000_0000_0000_0000
    && -0x8000_0000 <= o.clsId < 0x8000_0000
  }

  predicate FrameInRange(f: Frame) {
    -0x8000_0000_0000_0000 <= f.tmCapture < 0x8000_0000_0000_0000 && forall i :: 0 <= i < |f.obs| ==> InRange(f.obs[i])
  }

  /** Absent optional numbers read as -1. */
  function Normal(o: Observation): Observation {
    o.(trk := if o.hasTrk then o.trk else -1, clsId := if o.hasClsId then o.clsId else -1)
  }

  function NormalFrame(f: Frame): Frame {
    f.(obs := seq(|f.obs|, i requires 0 <= i < |f.obs| => Normal(f.obs[i])))
  }

  lemma WrapsAreIdentities()
    ensures forall n: int :: -0x8000_0000_0000_0000 <= n < 0x8000_0000_0000_0000 ==> Wrap64(n) == n
    ensures forall n: int :: -0x8000_0000 <= n < 0x8000_0000 ==> Wrap32(n) == n
  {
  }

  lemma EntryParses(o: Observation)
    requires Sendable(o) && InRange(o)
    ensures ParseEntry(Entry(o)) == Some(Normal(o))
  {
    WrapsAreIdentities();
    hide Wrap64, Wrap32;
    var e := Entry(o);
    assert e.Has("cls") && e.Has("conf") && e.Has("box");
    assert e.Has("trk") <==> o.hasTrk;
    assert e.Has("cls_id") <==> o.hasClsId;
    assert e.Has("attrs") <==> o.attrs.Obj?;
    assert e.fields["box"] == Arr([Real(o.x), Real(o.y), Real(o.w), Real(o.h)]);
    assert BoxValid(Normal(o));
  }

  /** Whatever is built parses back, up to normalising absent numbers. */
  lemma BuiltParses(f: Frame)
    requires FrameSendable(f) && FrameInRange(f)
    ensures ParseFrame(Wire(f)) == Some(NormalFrame(f))
  {
    hide ParseEntry, Entry, Sendable, InRange;
    var es := Entries(f.obs);
    forall i | 0 <= i < |es| ensures ParseEntry(es[i]) == Some(Normal(f.obs[i])) {
      EntryParses(f.obs[i]);
    }
    WrapsAreIdentities();
    hide Wrap64, Wrap32, Normal;
    assert ParseEntries(es).Some?;
    assert ParseEntries(es).value == NormalFrame(f).obs;
  }

  lemma ParsedEntry(e: Json)
    requires ParseEntry(e).Some?
    ensures var o := ParseEntry(e).value; Sendable(o) && InRange(o) && Normal(o) == o
  {
  }

  /** Whatever the parser accepts can be built, and parses back unchanged. */
  lemma ParsedBuilds(ms: Json)
    requires ParseFrame(ms).Some?
    ensures var f := ParseFrame(ms).value;
            && FrameSendable(f) && FrameInRange(f) && ParseFrame(Wire(f)) == Some(f)
            && forall i :: 0 <= i < |f.obs| ==> Normal(f.obs[i]) == f.obs[i]
  {
    var f := ParseFrame(ms).value;
    hide ParseEntry;
    var es := ms.fields["obs"].items;
    hide Sendable, InRange, Normal;
    forall i | 0 <= i < |f.obs| ensures Sendable(f.obs[i]) && InRange(f.obs[i]) && Normal(f.obs[i]) == f.obs[i] {
      ParsedEntry(es[i]);
    }
    assert NormalFrame(f).obs == f.obs;
    BuiltParses(f);
  }

  /** The builder's gate is exact: it lets a frame through if and only if the frame's wire object is
      read back as that frame, up to normalising absent numbers. */
  lemma BuildGateIsExact(f: Frame)
    requires FrameInRange(f)
    ensures FrameSendable(f) <==> ParseFrame(Wire(f)) == Some(NormalFrame(f))
  {
    hide ParseEntry, Entry, InRange, Sendable, Normal;
    if FrameSendable(f) {
      BuiltParses(f);
    }
    if ParseFrame(Wire(f)) == Some(NormalFrame(f)) {
      var es := Entries(f.obs);
      WrapsAreIdentities();
      forall i | 0 <= i < |f.obs| ensures Sendable(f.obs[i]) {
        assert NormalFrame(f).obs[i] == Normal(f.obs[i]) && ParseEntry(es[i]) == Some(Normal(f.obs[i]));
        ParsedEntry(es[i]);
        NormalSendable(f.obs[i]);
      }
    }
  }

  lemma NormalSendable(o: Observation)
    ensures Sendable(Normal(o)) == Sendable(o)
  {
  }
}
