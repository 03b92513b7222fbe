/** Classes never influence each other: over any run, what the track manager keeps and publishes
    for one class is what it would keep and publish if it only ever saw that class, up to a
    strictly increasing renaming of ids. */
module ClassIndependence {
  import opened Observations
  import opened HungarianSpec
  import opened ClassFilter
  import opened Association
  import opened TrackStep

  // ----- renaming

  ghost predicate Increasing(ids: seq<int>) {
    forall a, b :: 0 <= a < b < |ids| ==> ids[a] < ids[b]
  }

  /** The tracks in `a` are those in `b` with id k replaced by the k-th of `ids`. */
  ghost predicate SameTracks(ids: seq<int>, a: seq<Track>, b: seq<Track>) {
    |a| == |b| && forall i :: 0 <= i < |a| ==>
      1 <= b[i].id <= |ids| && a[i] == b[i].(id := ids[b[i].id - 1])
  }

  ghost predicate SameObs(ids: seq<int>, a: seq<Observation>, b: seq<Observation>) {
    |a| == |b| && forall i :: 0 <= i < |a| ==>
      1 <= b[i].trk <= |ids| && a[i] == b[i].(trk := ids[b[i].trk - 1])
  }

  // ----- filtering lists

  lemma DetsOfSnoc(ds: seq<Observation>, o: Observation, c: string)
    ensures o.cls == c ==> DetsOf(ds + [o], c) == DetsOf(ds, c) + [o]
    ensures o.cls != c ==> DetsOf(ds + [o], c) == DetsOf(ds, c)
  {
    assert DetClasses(ds + [o])[..|ds|] == DetClasses(ds);
  }

  lemma TracksOfSnoc(ts: seq<Track>, t: Track, c: string)
    ensures t.cls == c ==> TracksOf(ts + [t], c) == TracksOf(ts, c) + [t]
    ensures t.cls != c ==> TracksOf(ts + [t], c) == TracksOf(ts, c)
  {
    assert TrackClasses(ts + [t])[..|ts|] == TrackClasses(ts);
  }

  lemma ConfidentSnoc(cfg: Config, ds: seq<Observation>, o: Observation)
    ensures o.conf >= cfg.minConf ==> Confident(cfg, ds + [o]) == Confident(cfg, ds) + [o]
    ensures o.conf < cfg.minConf ==> Confident(cfg, ds + [o]) == Confident(cfg, ds)
  {
    assert (ds + [o])[..|ds|] == ds;
  }

  lemma SurvivorsSnoc(cfg: Config, ts: seq<Track>, t: Track)
    ensures Dead(cfg, t) ==> Survivors(cfg, ts + [t]) == Survivors(cfg, ts)
    ensures !Dead(cfg, t) ==> Survivors(cfg, ts + [t]) == Survivors(cfg, ts) + [t]
  {
    hide Dead;
    assert (ts + [t])[..|ts|] == ts;
  }

  lemma {:induction false} DetsOfConcat(a: seq<Observation>, b: seq<Observation>, c: string)
    ensures DetsOf(a + b, c) == DetsOf(a, c) + DetsOf(b, c)
  {
    hide DetsOf;
    if b == [] {
      assert a + b == a;
      assert DetsOf(b, c) == [] by { DetsOfNone(c); }
    } else {
      var front, last := b[..|b| - 1], b[|b| - 1];
      DetsOfConcat(a, front, c);
      assert a + b == a + front + [last] && b == front + [last];
      DetsOfSnoc(a + front, last, c);
      DetsOfSnoc(front, last, c);
    }
  }

  lemma DetsOfNone(c: string)
    ensures DetsOf([], c) == []
  {
  }

  lemma TracksOfNone(c: string)
    ensures TracksOf([], c) == []
  {
  }

  lemma {:induction false} TracksOfConcat(a: seq<Track>, b: seq<Track>, c: string)
    ensures TracksOf(a + b, c) == TracksOf(a, c) + TracksOf(b, c)
  {
    hide TracksOf;
    if b == [] {
      assert a + b == a;
      TracksOfNone(c);
    } else {
      var front, last := b[..|b| - 1], b[|b| - 1];
      TracksOfConcat(a, front, c);
      assert a + b == a + front + [last] && b == front + [last];
      TracksOfSnoc(a + front, last, c);
      TracksOfSnoc(front, last, c);
    }
  }

  lemma {:induction false} ConfidentOfClass(cfg: Config, obs: seq<Observation>, c: string)
    ensures Confident(cfg, DetsOf(obs, c)) == DetsOf(Confident(cfg, obs), c)
  {
    if obs == [] {
      DetsOfNone(c);
    } else {
      hide DetsOf, Confident;
      var front, last := obs[..|obs| - 1], obs[|obs| - 1];
      ConfidentOfClass(cfg, front, c);
      assert obs == front + [last];
      DetsOfSnoc(front, last, c);
      ConfidentSnoc(cfg, front, last);
      DetsOfSnoc(Confident(cfg, front), last, c);
      ConfidentSnoc(cfg, DetsOf(front, c), last);
    }
  }

  lemma {:induction false} SurvivorsOfClass(cfg: Config, ts: seq<Track>, c: string)
    ensures Survivors(cfg, TracksOf(ts, c)) == TracksOf(Survivors(cfg, ts), c)
  {
    if ts == [] {
      TracksOfNone(c);
    } else {
      hide TracksOf, Survivors, Dead;
      var front, last := ts[..|ts| - 1], ts[|ts| - 1];
      SurvivorsOfClass(cfg, front, c);
      assert ts == front + [last];
      TracksOfSnoc(front, last, c);
      SurvivorsSnoc(cfg, front, last);
      TracksOfSnoc(Survivors(cfg, front), last, c);
      SurvivorsSnoc(cfg, TracksOf(front, c), last);
    }
  }

  lemma {:induction false} SurvivorsSame(cfg: Config, ids: seq<int>, a: seq<Track>, b: seq<Track>)
    requires SameTracks(ids, a, b)
    ensures SameTracks(ids, Survivors(cfg, a), Survivors(cfg, b))
  {
    if a != [] {
      SurvivorsSame(cfg, ids, a[..|a| - 1], b[..|b| - 1]);
    }
  }

  // ----- the association of one class

  /** The association never looks at ids. */
  lemma IdsDoNotMatter(cfg: Config, ids: seq<int>, a: seq<Track>, b: seq<Track>, ds: seq<Observation>)
    requires SameTracks(ids, a, b)
    ensures LocalAssoc(cfg, a, ds) == LocalAssoc(cfg, b, ds)
  {
    SameCosts(cfg, ids, a, b, ds);
    hide CostMatrix, Solve, AssocFrom;
  }

  lemma SamePairCost(cfg: Config, ids: seq<int>, a: seq<Track>, b: seq<Track>, i: nat, o: Observation)
    requires SameTracks(ids, a, b) && i < |a|
    ensures PairCost(cfg, a[i], o) == PairCost(cfg, b[i], o)
  {
    hide Iou;
    assert a[i] == b[i].(id := ids[b[i].id - 1]);
    assert Predicted(a[i]) == Predicted(b[i]);
  }

  lemma SameCellCost(cfg: Config, ids: seq<int>, a: seq<Track>, b: seq<Track>, ds: seq<Observation>, k: nat)
    requires SameTracks(ids, a, b) && |a| == |b|
    requires k < |CostMatrix(cfg, a, ds).cost| == |CostMatrix(cfg, b, ds).cost|
    ensures CostMatrix(cfg, a, ds).cost[k] == CostMatrix(cfg, b, ds).cost[k]
  {
    hide CostMatrix, PairCost, SameTracks;
    var row, col := CostMatrixEntry(cfg, a, ds, k);
    var row', col' := CostMatrixEntry(cfg, b, ds, k);
    QuotientUnique(row, col, row', col', CostMatrix(cfg, a, ds).m);
    if RowsAreTracks(a, ds) {
      SamePairCost(cfg, ids, a, b, row, ds[col]);
    } else {
      SamePairCost(cfg, ids, a, b, col, ds[row]);
    }
  }

  lemma SameCosts(cfg: Config, ids: seq<int>, a: seq<Track>, b: seq<Track>, ds: seq<Observation>)
    requires SameTracks(ids, a, b)
    ensures CostMatrix(cfg, a, ds) == CostMatrix(cfg, b, ds)
  {
    hide CostMatrix, SameTracks;
    assert |a| == |b| by { SameLength(ids, a, b); }
    var pa, pb := CostMatrix(cfg, a, ds), CostMatrix(cfg, b, ds);
    assert pa.n == pb.n && pa.m == pb.m && |pa.cost| == |pb.cost|;
    forall k | 0 <= k < |pa.cost|
      ensures pa.cost[k] == pb.cost[k]
    {
      SameCellCost(cfg, ids, a, b, ds, k);
    }
  }

  lemma SameLength(ids: seq<int>, a: seq<Track>, b: seq<Track>)
    requires SameTracks(ids, a, b)
    ensures |a| == |b|
  {
  }

  lemma UniformTracks(ts: seq<Track>, c: string)
    requires forall i :: 0 <= i < |ts| ==> ts[i].cls == c
    ensures TracksOf(ts, c) == ts
    ensures |Positions(TrackClasses(ts), c)| == |ts|
    ensures forall i :: 0 <= i < |ts| ==> Positions(TrackClasses(ts), c)[i] == i
  {
    PositionsOfUniform(TrackClasses(ts), c);
  }

  lemma UniformDets(ds: seq<Observation>, c: string)
    requires forall i :: 0 <= i < |ds| ==> ds[i].cls == c
    ensures DetsOf(ds, c) == ds
    ensures forall i :: 0 <= i < |ds| ==> PlaceOf(DetClasses(ds), c, i) == i
  {
    PositionsOfUniform(DetClasses(ds), c);
    forall i | 0 <= i < |ds|
      ensures PlaceOf(DetClasses(ds), c, i) == i
    {
      PlaceOfPosition(DetClasses(ds), c, i);
    }
  }

  /** When everything is of one class, the association is that of the class. */
  lemma AssocUniform(cfg: Config, ts: seq<Track>, ds: seq<Observation>, c: string)
    requires forall i :: 0 <= i < |ts| ==> ts[i].cls == c
    requires forall i :: 0 <= i < |ds| ==> ds[i].cls == c
    ensures Assoc(cfg, ts, ds) == LocalAssoc(cfg, ts, ds)
  {
    hide LocalAssoc, TracksOf, DetsOf, PlaceOf;
    UniformTracks(ts, c);
    UniformDets(ds, c);
    var dt := LocalAssoc(cfg, ts, ds);
    forall d | 0 <= d < |ds|
      ensures AssocAt(cfg, ts, ds, d) == dt[d]
    {
    }
  }

  /** dt restricted to class c, in the numbering of the class, is ldt. */
  ghost predicate Linked(tcs: seq<string>, dcs: seq<string>, dt: seq<int>, ldt: seq<int>, c: string) {
    && |dt| == |dcs| && |ldt| == |Positions(dcs, c)|
    && (forall d :: 0 <= d < |dt| ==> -1 <= dt[d] < |tcs|)
    && (forall d :: 0 <= d < |dt| && dcs[d] == c && dt[d] >= 0 ==> tcs[dt[d]] == c)
    && (forall d :: 0 <= d < |dt| && dcs[d] == c ==>
         PlaceOf(dcs, c, d) < |ldt| && ldt[PlaceOf(dcs, c, d)] == if dt[d] < 0 then -1 else PlaceOf(tcs, c, dt[d]))
  }

  lemma AssocAtLinked(cfg: Config, ts: seq<Track>, ds: seq<Observation>, c: string, d: nat)
    requires d < |ds| && ds[d].cls == c
    ensures
      var ldt, k := LocalAssoc(cfg, TracksOf(ts, c), DetsOf(ds, c)), PlaceOf(DetClasses(ds), c, d);
      var t := AssocAt(cfg, ts, ds, d);
      && k < |ldt| && ldt[k] == if t < 0 then -1 else PlaceOf(TrackClasses(ts), c, t)
  {
    hide LocalAssoc;
    PlaceInClass(DetClasses(ds), c, d);
    var k := LocalAssoc(cfg, TracksOf(ts, c), DetsOf(ds, c))[PlaceOf(DetClasses(ds), c, d)];
    hide PlaceOf;
    if k >= 0 {
      PlaceOfPosition(TrackClasses(ts), c, k);
    }
  }

  lemma AssocOfClass(cfg: Config, ts: seq<Track>, ds: seq<Observation>, c: string, ids: seq<int>, lts: seq<Track>)
    requires SameTracks(ids, TracksOf(ts, c), lts)
    ensures Assoc(cfg, lts, DetsOf(ds, c)) == LocalAssoc(cfg, TracksOf(ts, c), DetsOf(ds, c))
  {
    var cts, cds := TracksOf(ts, c), DetsOf(ds, c);
    hide LocalAssoc, Assoc;
    ClassesOfSame(ids, cts, lts, c);
    AssocUniform(cfg, lts, cds, c);
    IdsDoNotMatter(cfg, ids, cts, lts, cds);
  }

  lemma AssocLinked(cfg: Config, ts: seq<Track>, ds: seq<Observation>, c: string, ids: seq<int>, lts: seq<Track>)
    requires SameTracks(ids, TracksOf(ts, c), lts)
    ensures Linked(TrackClasses(ts), DetClasses(ds), Assoc(cfg, ts, ds), Assoc(cfg, lts, DetsOf(ds, c)), c)
  {
    hide LocalAssoc, PlaceOf, SameTracks, AssocAt, Assoc, TracksOf;
    AssocOfClass(cfg, ts, ds, c, ids, lts);
    forall d | 0 <= d < |ds| && ds[d].cls == c
      ensures
        var ldt, k, t := Assoc(cfg, lts, DetsOf(ds, c)), PlaceOf(DetClasses(ds), c, d), Assoc(cfg, ts, ds)[d];
        k < |ldt| && ldt[k] == if t < 0 then -1 else PlaceOf(TrackClasses(ts), c, t)
    {
      AssocAtLinked(cfg, ts, ds, c, d);
    }
  }

  lemma ClassesOfSame(ids: seq<int>, a: seq<Track>, b: seq<Track>, c: string)
    requires SameTracks(ids, a, b) && forall i :: 0 <= i < |a| ==> a[i].cls == c
    ensures forall i :: 0 <= i < |b| ==> b[i].cls == c
  {
    forall i | 0 <= i < |b|
      ensures b[i].cls == c
    {
      assert a[i] == b[i].(id := ids[b[i].id - 1]);
    }
  }

  // ----- one frame

  /** The detection given to a track of class c, in the numbering of the class. */
  lemma {:induction false} DetOfClass(tcs: seq<string>, dcs: seq<string>, dt: seq<int>, ldt: seq<int>, c: string,
                                      t: nat, k: nat)
    requires Linked(tcs, dcs, dt, ldt, c) && t < |tcs| && tcs[t] == c && k <= |dt|
    requires forall d :: 0 <= d < |dt| && dt[d] == t ==> dcs[d] == c
    ensures PlaceOf(dcs, c, k) <= |ldt|
    ensures DetOf(ldt, PlaceOf(tcs, c, t), PlaceOf(dcs, c, k)) ==
            (var d := DetOf(dt, t, k); if d < 0 then -1 else PlaceOf(dcs, c, d))
  {
    if k > 0 {
      DetOfClass(tcs, dcs, dt, ldt, c, t, k - 1);
      PlaceInClass(dcs, c, k - 1);
      if dcs[k - 1] == c && dt[k - 1] >= 0 {
        PlaceDistinct(tcs, c, dt[k - 1], t);
      }
    } else {
      assert dcs[..0] == [];
    }
  }

  lemma PlaceDistinct(cs: seq<string>, c: string, i: nat, j: nat)
    requires i < |cs| && j < |cs| && cs[i] == c && cs[j] == c
    ensures PlaceOf(cs, c, i) == PlaceOf(cs, c, j) <==> i == j
  {
    PlaceInClass(cs, c, i);
    PlaceInClass(cs, c, j);
  }

  lemma PlaceAtEnd(cs: seq<string>, c: string)
    ensures PlaceOf(cs, c, |cs|) == |Positions(cs, c)|
  {
    assert cs[..|cs|] == cs;
  }

  /** A state, and a state that only ever saw class c, with the ids issued to that class. */
  ghost predicate Projects(ids: seq<int>, st: State, lt: State, c: string) {
    && st.cfg == lt.cfg && lt.nextId == |ids| + 1 && Increasing(ids)
    && (forall k :: 0 <= k < |ids| ==> 1 <= ids[k] < st.nextId)
    && st.nextId >= 1
    && SameTracks(ids, TracksOf(st.tracks, c), lt.tracks)
  }

  /** A track of the class moves the same way in both runs. */
  lemma AdvanceAt(cfg: Config, ids: seq<int>, ts: seq<Track>, lts: seq<Track>, ds: seq<Observation>,
                  dt: seq<int>, ldt: seq<int>, c: string, t: nat)
    requires Linked(TrackClasses(ts), DetClasses(ds), dt, ldt, c) && |dt| == |ds|
    requires forall d :: 0 <= d < |dt| && dt[d] >= 0 ==> ts[dt[d]].cls == ds[d].cls
    requires SameTracks(ids, TracksOf(ts, c), lts) && t < |ts| && ts[t].cls == c
    ensures
      var r := PlaceOf(TrackClasses(ts), c, t);
      && |ldt| == |DetsOf(ds, c)| && r < |lts| && 1 <= lts[r].id <= |ids|
      && Advance(cfg, ts, ds, dt)[t] == Advance(cfg, lts, DetsOf(ds, c), ldt)[r].(id := ids[lts[r].id - 1])
  {
    hide Linked, PlaceOf, Advance, TracksOf;
    var tcs, dcs := TrackClasses(ts), DetClasses(ds);
    var r := PlaceOf(tcs, c, t);
    PlaceOfTrack(ts, c, t);
    DetOfClass(tcs, dcs, dt, ldt, c, t, |dt|);
    PlaceAtEnd(dcs, c);
    LinkedSizes(tcs, ds, dt, ldt, c);
    var d := DetOf(dt, t, |dt|);
    AdvanceUnfold(cfg, ts, ds, dt, t);
    AdvanceUnfold(cfg, lts, DetsOf(ds, c), ldt, r);
    var id := ids[lts[r].id - 1];
    assert ts[t] == lts[r].(id := id);
    if d >= 0 {
      PlaceOfDet(ds, c, d);
      TouchedRenamed(cfg, lts[r], ds[d], id);
    }
    hide DetsOf, Touched;
  }

  lemma AdvanceUnfold(cfg: Config, ts: seq<Track>, ds: seq<Observation>, dt: seq<int>, t: nat)
    requires |dt| == |ds| && t < |ts|
    ensures Advance(cfg, ts, ds, dt)[t] ==
            var d := DetOf(dt, t, |dt|); if d < 0 then Missed(ts[t]) else Touched(cfg, ts[t], ds[d])
  {
    hide Missed, Touched;
  }

  lemma TouchedRenamed(cfg: Config, t: Track, o: Observation, id: int)
    ensures Touched(cfg, t.(id := id), o) == Touched(cfg, t, o).(id := id)
  {
  }

  lemma PlaceOfTrack(ts: seq<Track>, c: string, t: nat)
    requires t < |ts| && ts[t].cls == c
    ensures var r := PlaceOf(TrackClasses(ts), c, t); r < |TracksOf(ts, c)| && TracksOf(ts, c)[r] == ts[t]
  {
    PlaceInClass(TrackClasses(ts), c, t);
  }

  lemma PlaceOfDet(ds: seq<Observation>, c: string, d: nat)
    requires d < |ds| && ds[d].cls == c
    ensures var r := PlaceOf(DetClasses(ds), c, d); r < |DetsOf(ds, c)| && DetsOf(ds, c)[r] == ds[d]
  {
    PlaceInClass(DetClasses(ds), c, d);
  }

  lemma LinkedSizes(tcs: seq<string>, ds: seq<Observation>, dt: seq<int>, ldt: seq<int>, c: string)
    requires Linked(tcs, DetClasses(ds), dt, ldt, c)
    ensures |ldt| == |DetsOf(ds, c)|
  {
  }

  lemma AdvanceOfClass(cfg: Config, ids: seq<int>, ts: seq<Track>, lts: seq<Track>, ds: seq<Observation>,
                       dt: seq<int>, ldt: seq<int>, c: string)
    requires Linked(TrackClasses(ts), DetClasses(ds), dt, ldt, c) && |dt| == |ds|
    requires forall d :: 0 <= d < |dt| && dt[d] >= 0 ==> ts[dt[d]].cls == ds[d].cls
    requires SameTracks(ids, TracksOf(ts, c), lts) && |ldt| == |DetsOf(ds, c)|
    ensures SameTracks(ids, TracksOf(Advance(cfg, ts, ds, dt), c), Advance(cfg, lts, DetsOf(ds, c), ldt))
  {
    var tcs := TrackClasses(ts);
    var moved, lmoved := Advance(cfg, ts, ds, dt), Advance(cfg, lts, DetsOf(ds, c), ldt);
    assert TrackClasses(moved) == tcs;
    hide Advance, Linked, PlaceOf;
    forall r | 0 <= r < |lmoved|
      ensures 1 <= lmoved[r].id <= |ids| && TracksOf(moved, c)[r] == lmoved[r].(id := ids[lmoved[r].id - 1])
    {
      var t := Positions(tcs, c)[r];
      PlaceOfPosition(tcs, c, r);
      AdvanceAt(cfg, ids, ts, lts, ds, dt, ldt, c, t);
    }
  }

  /** The ids given to the class-c detections among the first k that start a track. */
  ghost function ClassBirths(ds: seq<Observation>, dt: seq<int>, nextId: int, c: string, k: nat): (ids: seq<int>)
    requires k <= |dt| == |ds|
    ensures forall j :: 0 <= j < |ids| ==> nextId <= ids[j] < nextId + Unmatched(dt, k)
    ensures Increasing(ids)
  {
    if k == 0 then []
    else
      ClassBirths(ds, dt, nextId, c, k - 1) +
      (if dt[k - 1] < 0 && ds[k - 1].cls == c then [nextId + Unmatched(dt, k - 1)] else [])
  }

  /** What one more detection means for the class, in both numberings. */
  lemma StepOfClass(tcs: seq<string>, ds: seq<Observation>, dt: seq<int>, ldt: seq<int>, c: string, k: nat)
    requires Linked(tcs, DetClasses(ds), dt, ldt, c) && 1 <= k <= |ds| && |dt| == |ds|
    ensures PlaceOf(DetClasses(ds), c, k) <= |ldt| == |DetsOf(ds, c)|
    ensures
      var before, now := PlaceOf(DetClasses(ds), c, k - 1), PlaceOf(DetClasses(ds), c, k);
      if ds[k - 1].cls == c then
        now == before + 1 && DetsOf(ds, c)[before] == ds[k - 1] && (ldt[before] < 0 <==> dt[k - 1] < 0)
      else now == before
  {
    PlaceInClass(DetClasses(ds), c, k - 1);
  }

  lemma NoneYet(ds: seq<Observation>, c: string)
    ensures PlaceOf(DetClasses(ds), c, 0) == 0
  {
    assert DetClasses(ds)[..0] == [];
  }

  /** The births of the class are numbered one after the other in the run of the class alone. */
  lemma {:induction false} BirthsCount(tcs: seq<string>, ds: seq<Observation>, dt: seq<int>, ldt: seq<int>, nextId: int,
                                       c: string, k: nat)
    requires Linked(tcs, DetClasses(ds), dt, ldt, c) && k <= |ds| == |dt|
    ensures PlaceOf(DetClasses(ds), c, k) <= |ldt|
    ensures |ClassBirths(ds, dt, nextId, c, k)| == Unmatched(ldt, PlaceOf(DetClasses(ds), c, k))
  {
    hide Linked, PlaceOf, ClassBirths, Unmatched, Increasing, DetsOf;
    BirthsUnfold(ds, dt, nextId, c, k);
    if k == 0 {
      NoneYet(ds, c);
      UnmatchedUnfold(ldt, 0);
    } else {
      BirthsCount(tcs, ds, dt, ldt, nextId, c, k - 1);
      StepOfClass(tcs, ds, dt, ldt, c, k);
      UnmatchedUnfold(ldt, PlaceOf(DetClasses(ds), c, k));
    }
  }

  lemma BirthsUnfold(ds: seq<Observation>, dt: seq<int>, nextId: int, c: string, k: nat)
    requires k <= |dt| == |ds|
    ensures |ClassBirths(ds, dt, nextId, c, k)| ==
            if k == 0 then 0
            else |ClassBirths(ds, dt, nextId, c, k - 1)| + (if dt[k - 1] < 0 && ds[k - 1].cls == c then 1 else 0)
  {
    hide Increasing;
  }

  lemma UnmatchedUnfold(dt: seq<int>, k: nat)
    requires k <= |dt|
    ensures Unmatched(dt, k) == if k == 0 then 0 else Unmatched(dt, k - 1) + (if dt[k - 1] < 0 then 1 else 0)
  {
  }

  lemma SameExtend(ids: seq<int>, more: seq<int>, a: seq<Track>, b: seq<Track>)
    requires SameTracks(ids, a, b)
    ensures SameTracks(ids + more, a, b)
  {
  }

  lemma SameSnoc(ids: seq<int>, a: seq<Track>, b: seq<Track>, x: Track, y: Track)
    requires SameTracks(ids, a, b) && 1 <= y.id <= |ids| && x == y.(id := ids[y.id - 1])
    ensures SameTracks(ids, a + [x], b + [y])
  {
  }

  lemma SameConcat(ids: seq<int>, a: seq<Track>, b: seq<Track>, x: seq<Track>, y: seq<Track>)
    requires SameTracks(ids, a, b) && SameTracks(ids, x, y)
    ensures SameTracks(ids, a + x, b + y)
  {
  }

  lemma NewbornSame(cfg: Config, id: int, lid: int, o: Observation)
    ensures Newborn(cfg, id, o) == Newborn(cfg, lid, o).(id := id)
    ensures Newborn(cfg, id, o).cls == o.cls && Newborn(cfg, id, o).id == id
  {
  }

  lemma BirthSame(cfg: Config, ids: seq<int>, births: seq<int>, born: seq<Track>, lborn: seq<Track>, id: int,
                  o: Observation, c: string)
    requires SameTracks(ids + births, TracksOf(born, c), lborn)
    ensures
      var grown := TracksOf(born + [Newborn(cfg, id, o)], c);
      if o.cls == c then
        SameTracks(ids + (births + [id]), grown, lborn + [Newborn(cfg, |ids| + 1 + |births|, o)])
      else SameTracks(ids + births, grown, lborn)
  {
    hide TracksOf, Newborn, SameTracks;
    var lid := |ids| + 1 + |births|;
    TracksOfSnoc(born, Newborn(cfg, id, o), c);
    NewbornSame(cfg, id, lid, o);
    if o.cls == c {
      assert ids + births + [id] == ids + (births + [id]);
      SameExtend(ids + births, [id], TracksOf(born, c), lborn);
      NewbornSame(cfg, lid, lid, o);
      SameSnoc(ids + births + [id], TracksOf(born, c), lborn, Newborn(cfg, id, o), Newborn(cfg, lid, o));
    }
  }

  lemma {:induction false} BornOfClass(cfg: Config, tcs: seq<string>, ds: seq<Observation>, dt: seq<int>, ldt: seq<int>,
                                       nextId: int, ids: seq<int>, c: string, k: nat)
    requires Linked(tcs, DetClasses(ds), dt, ldt, c) && k <= |ds| == |dt|
    ensures PlaceOf(DetClasses(ds), c, k) <= |ldt| == |DetsOf(ds, c)|
    ensures SameTracks(ids + ClassBirths(ds, dt, nextId, c, k), TracksOf(Born(cfg, ds, dt, nextId, k), c),
                       Born(cfg, DetsOf(ds, c), ldt, |ids| + 1, PlaceOf(DetClasses(ds), c, k)))
  {
    if k == 0 {
      NoneYet(ds, c);
      TracksOfNone(c);
    } else {
      BornOfClass(cfg, tcs, ds, dt, ldt, nextId, ids, c, k - 1);
      BornGrows(cfg, tcs, ds, dt, ldt, nextId, ids, c, k);
    }
  }

  lemma BornGrows(cfg: Config, tcs: seq<string>, ds: seq<Observation>, dt: seq<int>, ldt: seq<int>,
                  nextId: int, ids: seq<int>, c: string, k: nat)
    requires Linked(tcs, DetClasses(ds), dt, ldt, c) && 1 <= k <= |ds| == |dt|
    requires PlaceOf(DetClasses(ds), c, k - 1) <= |ldt| == |DetsOf(ds, c)|
    requires SameTracks(ids + ClassBirths(ds, dt, nextId, c, k - 1), TracksOf(Born(cfg, ds, dt, nextId, k - 1), c),
                        Born(cfg, DetsOf(ds, c), ldt, |ids| + 1, PlaceOf(DetClasses(ds), c, k - 1)))
    ensures PlaceOf(DetClasses(ds), c, k) <= |ldt| == |DetsOf(ds, c)|
    ensures SameTracks(ids + ClassBirths(ds, dt, nextId, c, k), TracksOf(Born(cfg, ds, dt, nextId, k), c),
                       Born(cfg, DetsOf(ds, c), ldt, |ids| + 1, PlaceOf(DetClasses(ds), c, k)))
  {
    hide Linked, PlaceOf, TracksOf, Newborn, SameTracks, DetsOf, Increasing;
    StepOfClass(tcs, ds, dt, ldt, c, k);
    BirthsCount(tcs, ds, dt, ldt, nextId, c, k - 1);
    var born, births := Born(cfg, ds, dt, nextId, k - 1), ClassBirths(ds, dt, nextId, c, k - 1);
    var lborn := Born(cfg, DetsOf(ds, c), ldt, |ids| + 1, PlaceOf(DetClasses(ds), c, k - 1));
    BirthSame(cfg, ids, births, born, lborn, nextId + Unmatched(dt, k - 1), ds[k - 1], c);
    assert born + [] == born && births + [] == births && lborn + [] == lborn;
  }

  // ----- what one frame publishes

  lemma SameObsSnoc(ids: seq<int>, a: seq<Observation>, b: seq<Observation>, x: Observation, y: Observation)
    requires SameObs(ids, a, b) && 1 <= y.trk <= |ids| && x == y.(trk := ids[y.trk - 1])
    ensures SameObs(ids, a + [x], b + [y])
  {
  }

  lemma SameObsConcat(ids: seq<int>, a: seq<Observation>, b: seq<Observation>, x: seq<Observation>, y: seq<Observation>)
    requires SameObs(ids, a, b) && SameObs(ids, x, y)
    ensures SameObs(ids, a + x, b + y)
  {
  }

  /** A matched detection of the class finds the same track in both runs. */
  lemma TrackOfClass(ids: seq<int>, ts: seq<Track>, lts: seq<Track>, dcs: seq<string>, dt: seq<int>, ldt: seq<int>,
                     c: string, d: nat)
    requires Linked(TrackClasses(ts), dcs, dt, ldt, c) && SameTracks(ids, TracksOf(ts, c), lts)
    requires d < |dt| && dcs[d] == c && dt[d] >= 0
    ensures
      var r := PlaceOf(dcs, c, d);
      && r < |ldt| && 0 <= ldt[r] < |lts| && 1 <= lts[ldt[r]].id <= |ids|
      && ts[dt[d]] == lts[ldt[r]].(id := ids[lts[ldt[r]].id - 1])
  {
    var tcs := TrackClasses(ts);
    var k := PlaceOf(tcs, c, dt[d]);
    PlaceInClass(tcs, c, dt[d]);
    assert TracksOf(ts, c)[k] == ts[dt[d]];
  }

  /** Publishing one more detection, in both numberings. */
  lemma PublishSame(ids: seq<int>, a: seq<Observation>, b: seq<Observation>, o: Observation, t: Track, lt: Track,
                    c: string)
    requires SameObs(ids, DetsOf(a, c), b) && o.cls == c
    requires 1 <= lt.id <= |ids| && t == lt.(id := ids[lt.id - 1])
    ensures SameObs(ids, DetsOf(a + (if t.confirmed then [Labelled(o, t.id)] else []), c),
                    b + (if lt.confirmed then [Labelled(o, lt.id)] else []))
  {
    hide SameObs, DetsOf;
    if t.confirmed {
      DetsOfSnoc(a, Labelled(o, t.id), c);
      SameObsSnoc(ids, DetsOf(a, c), b, Labelled(o, t.id), Labelled(o, lt.id));
    } else {
      assert a + [] == a && b + [] == b;
    }
  }

  lemma OtherClassSame(a: seq<Observation>, o: Observation, keep: bool, c: string)
    requires o.cls != c
    ensures DetsOf(a + (if keep then [o] else []), c) == DetsOf(a, c)
  {
    DetsOfSnoc(a, o, c);
    assert a + [] == a;
  }

  lemma {:induction false} PublishedOfClass(ids: seq<int>, ts: seq<Track>, lts: seq<Track>, ds: seq<Observation>,
                                            dt: seq<int>, ldt: seq<int>, c: string, k: nat)
    requires Linked(TrackClasses(ts), DetClasses(ds), dt, ldt, c) && k <= |ds| == |dt|
    requires SameTracks(ids, TracksOf(ts, c), lts)
    requires |ldt| == |DetsOf(ds, c)| && forall d :: 0 <= d < |ldt| ==> ldt[d] < |lts|
    ensures PlaceOf(DetClasses(ds), c, k) <= |ldt|
    ensures SameObs(ids, DetsOf(Published(ts, ds, dt, k), c),
                    Published(lts, DetsOf(ds, c), ldt, PlaceOf(DetClasses(ds), c, k)))
  {
    if k == 0 {
      NoneYet(ds, c);
      DetsOfNone(c);
    } else {
      PublishedOfClass(ids, ts, lts, ds, dt, ldt, c, k - 1);
      PublishedGrows(ids, ts, lts, ds, dt, ldt, c, k);
    }
  }

  lemma PublishedGrows(ids: seq<int>, ts: seq<Track>, lts: seq<Track>, ds: seq<Observation>,
                       dt: seq<int>, ldt: seq<int>, c: string, k: nat)
    requires Linked(TrackClasses(ts), DetClasses(ds), dt, ldt, c) && 1 <= k <= |ds| == |dt|
    requires SameTracks(ids, TracksOf(ts, c), lts)
    requires |ldt| == |DetsOf(ds, c)| && forall d :: 0 <= d < |ldt| ==> ldt[d] < |lts|
    requires PlaceOf(DetClasses(ds), c, k - 1) <= |ldt| && forall d :: 0 <= d < |dt| ==> dt[d] < |ts|
    requires SameObs(ids, DetsOf(Published(ts, ds, dt, k - 1), c),
                     Published(lts, DetsOf(ds, c), ldt, PlaceOf(DetClasses(ds), c, k - 1)))
    ensures PlaceOf(DetClasses(ds), c, k) <= |ldt|
    ensures SameObs(ids, DetsOf(Published(ts, ds, dt, k), c),
                    Published(lts, DetsOf(ds, c), ldt, PlaceOf(DetClasses(ds), c, k)))
  {
    hide Linked, PlaceOf, SameTracks, SameObs, DetsOf, TracksOf, TrackClasses;
    StepOfClass(TrackClasses(ts), ds, dt, ldt, c, k);
    var o := ds[k - 1];
    var before := PlaceOf(DetClasses(ds), c, k - 1);
    var a, b := Published(ts, ds, dt, k - 1), Published(lts, DetsOf(ds, c), ldt, before);
    if o.cls == c && dt[k - 1] >= 0 {
      TrackOfClass(ids, ts, lts, DetClasses(ds), dt, ldt, c, k - 1);
      PublishSame(ids, a, b, o, ts[dt[k - 1]], lts[ldt[before]], c);
    } else if o.cls != c && dt[k - 1] >= 0 {
      OtherClassSame(a, Labelled(o, ts[dt[k - 1]].id), ts[dt[k - 1]].confirmed, c);
    }
    assert a + [] == a && b + [] == b;
  }

  lemma {:induction false} BirthAt(ds: seq<Observation>, dt: seq<int>, nextId: int, c: string, d: nat, k: nat)
    requires d < k <= |dt| == |ds| && dt[d] < 0 && ds[d].cls == c
    ensures |ClassBirths(ds, dt, nextId, c, d)| < |ClassBirths(ds, dt, nextId, c, k)|
    ensures ClassBirths(ds, dt, nextId, c, k)[|ClassBirths(ds, dt, nextId, c, d)|] == nextId + Unmatched(dt, d)
  {
    hide Increasing;
    if d < k - 1 {
      BirthAt(ds, dt, nextId, c, d, k - 1);
    }
  }

  /** What a new track publishes at once, in both numberings. */
  lemma NewbornPublishSame(cfg: Config, ids: seq<int>, a: seq<Observation>, b: seq<Observation>, o: Observation,
                           id: int, lid: int, c: string)
    requires SameObs(ids, DetsOf(a, c), b) && o.cls == c
    requires 1 <= lid <= |ids| && ids[lid - 1] == id
    ensures var t, lt := Newborn(cfg, id, o), Newborn(cfg, lid, o);
            SameObs(ids, DetsOf(a + (if t.confirmed then [Labelled(o, t.id)] else []), c),
                    b + (if lt.confirmed then [Labelled(o, lt.id)] else []))
  {
    hide SameObs, DetsOf, Newborn, Labelled;
    NewbornSame(cfg, id, lid, o);
    NewbornSame(cfg, lid, lid, o);
    PublishSame(ids, a, b, o, Newborn(cfg, id, o), Newborn(cfg, lid, o), c);
  }

  lemma {:induction false} PublishedBornOfClass(cfg: Config, tcs: seq<string>, ds: seq<Observation>, dt: seq<int>,
                                                ldt: seq<int>, nextId: int, ids: seq<int>, c: string, k: nat)
    requires Linked(tcs, DetClasses(ds), dt, ldt, c) && k <= |ds| == |dt| && |ldt| == |DetsOf(ds, c)|
    requires Unmatched(dt, k) <= Unmatched(dt, |dt|)
    ensures PlaceOf(DetClasses(ds), c, k) <= |ldt|
    ensures Unmatched(ldt, PlaceOf(DetClasses(ds), c, k)) <= Unmatched(ldt, |ldt|)
    ensures SameObs(ids + ClassBirths(ds, dt, nextId, c, |dt|),
                    DetsOf(PublishedBorn(Born(cfg, ds, dt, nextId, |dt|), ds, dt, k), c),
                    PublishedBorn(Born(cfg, DetsOf(ds, c), ldt, |ids| + 1, |ldt|), DetsOf(ds, c), ldt,
                                  PlaceOf(DetClasses(ds), c, k)))
  {
    hide Linked, SameObs, DetsOf, Born, ClassBirths, PublishedBorn, PlaceOf, Unmatched;
    StepOfClassBound(tcs, ds, dt, ldt, c, k);
    UnmatchedMonotone(ldt, PlaceOf(DetClasses(ds), c, k), |ldt|);
    if k == 0 {
      NoneBornYet(cfg, ds, dt, ldt, nextId, ids, c);
    } else {
      UnmatchedMonotone(dt, k - 1, |dt|);
      UnmatchedMonotone(dt, k - 1, k);
      PublishedBornOfClass(cfg, tcs, ds, dt, ldt, nextId, ids, c, k - 1);
      StepOfClassBound(tcs, ds, dt, ldt, c, k - 1);
      PublishedBornGrows(cfg, tcs, ds, dt, ldt, nextId, ids, c, k);
    }
  }

  lemma NoneBornYet(cfg: Config, ds: seq<Observation>, dt: seq<int>, ldt: seq<int>, nextId: int, ids: seq<int>,
                    c: string)
    requires |ds| == |dt| && |ldt| == |DetsOf(ds, c)|
    requires PlaceOf(DetClasses(ds), c, 0) <= |ldt| &&
      Unmatched(ldt, PlaceOf(DetClasses(ds), c, 0)) <= Unmatched(ldt, |ldt|)
    ensures SameObs(ids + ClassBirths(ds, dt, nextId, c, |dt|),
                    DetsOf(PublishedBorn(Born(cfg, ds, dt, nextId, |dt|), ds, dt, 0), c),
                    PublishedBorn(Born(cfg, DetsOf(ds, c), ldt, |ids| + 1, |ldt|), DetsOf(ds, c), ldt,
                                  PlaceOf(DetClasses(ds), c, 0)))
  {
    hide Born, ClassBirths;
    NoneYet(ds, c);
    DetsOfNone(c);
  }

  lemma StepOfClassBound(tcs: seq<string>, ds: seq<Observation>, dt: seq<int>, ldt: seq<int>, c: string, k: nat)
    requires Linked(tcs, DetClasses(ds), dt, ldt, c) && k <= |ds| == |dt|
    ensures PlaceOf(DetClasses(ds), c, k) <= |ldt|
  {
    if k == 0 {
      NoneYet(ds, c);
    } else {
      StepOfClass(tcs, ds, dt, ldt, c, k);
    }
  }

  lemma PublishedBornGrows(cfg: Config, tcs: seq<string>, ds: seq<Observation>, dt: seq<int>, ldt: seq<int>,
                           nextId: int, ids: seq<int>, c: string, k: nat)
    requires Linked(tcs, DetClasses(ds), dt, ldt, c) && 1 <= k <= |ds| == |dt| && |ldt| == |DetsOf(ds, c)|
    requires Unmatched(dt, k - 1) <= Unmatched(dt, k) <= Unmatched(dt, |dt|)
    requires PlaceOf(DetClasses(ds), c, k - 1) <= |ldt| && PlaceOf(DetClasses(ds), c, k) <= |ldt|
    requires Unmatched(ldt, PlaceOf(DetClasses(ds), c, k - 1)) <= Unmatched(ldt, |ldt|)
    requires Unmatched(ldt, PlaceOf(DetClasses(ds), c, k)) <= Unmatched(ldt, |ldt|)
    requires SameObs(ids + ClassBirths(ds, dt, nextId, c, |dt|),
                     DetsOf(PublishedBorn(Born(cfg, ds, dt, nextId, |dt|), ds, dt, k - 1), c),
                     PublishedBorn(Born(cfg, DetsOf(ds, c), ldt, |ids| + 1, |ldt|), DetsOf(ds, c), ldt,
                                   PlaceOf(DetClasses(ds), c, k - 1)))
    ensures SameObs(ids + ClassBirths(ds, dt, nextId, c, |dt|),
                    DetsOf(PublishedBorn(Born(cfg, ds, dt, nextId, |dt|), ds, dt, k), c),
                    PublishedBorn(Born(cfg, DetsOf(ds, c), ldt, |ids| + 1, |ldt|), DetsOf(ds, c), ldt,
                                  PlaceOf(DetClasses(ds), c, k)))
  {
    hide Linked, PlaceOf, SameObs, DetsOf, Newborn, ClassBirths, Born;
    StepOfClass(tcs, ds, dt, ldt, c, k);
    var born, lborn := Born(cfg, ds, dt, nextId, |dt|), Born(cfg, DetsOf(ds, c), ldt, |ids| + 1, |ldt|);
    var a := PublishedBorn(born, ds, dt, k - 1);
    var b := PublishedBorn(lborn, DetsOf(ds, c), ldt, PlaceOf(DetClasses(ds), c, k - 1));
    if dt[k - 1] < 0 {
      BornAt(cfg, ds, dt, nextId, k - 1, |dt|);
      if ds[k - 1].cls == c {
        NewbornOfClass(cfg, tcs, ds, dt, ldt, nextId, ids, c, k, a, b);
      } else {
        var t := born[Unmatched(dt, k - 1)];
        OtherClassSame(a, Labelled(ds[k - 1], t.id), t.confirmed, c);
      }
    }
    assert a + [] == a && b + [] == b;
  }

  /** A class-c detection that starts a track is published, or not, in both runs. */
  lemma NewbornOfClass(cfg: Config, tcs: seq<string>, ds: seq<Observation>, dt: seq<int>, ldt: seq<int>,
                       nextId: int, ids: seq<int>, c: string, k: nat, a: seq<Observation>, b: seq<Observation>)
    requires Linked(tcs, DetClasses(ds), dt, ldt, c) && 1 <= k <= |ds| == |dt| && |ldt| == |DetsOf(ds, c)|
    requires ds[k - 1].cls == c && dt[k - 1] < 0
    requires SameObs(ids + ClassBirths(ds, dt, nextId, c, |dt|), DetsOf(a, c), b)
    ensures
      var r := PlaceOf(DetClasses(ds), c, k - 1);
      && Unmatched(dt, k - 1) < Unmatched(dt, |dt|) && r < |ldt| && Unmatched(ldt, r) < Unmatched(ldt, |ldt|)
      && var t := Born(cfg, ds, dt, nextId, |dt|)[Unmatched(dt, k - 1)];
      var lt := Born(cfg, DetsOf(ds, c), ldt, |ids| + 1, |ldt|)[Unmatched(ldt, r)];
      SameObs(ids + ClassBirths(ds, dt, nextId, c, |dt|),
              DetsOf(a + (if t.confirmed then [Labelled(ds[k - 1], t.id)] else []), c),
              b + (if lt.confirmed then [Labelled(ds[k - 1], lt.id)] else []))
  {
    hide Linked, PlaceOf, SameObs, DetsOf, Newborn, Born, Increasing, Labelled;
    StepOfClass(tcs, ds, dt, ldt, c, k);
    BirthsCount(tcs, ds, dt, ldt, nextId, c, k - 1);
    BornAt(cfg, ds, dt, nextId, k - 1, |dt|);
    BornAt(cfg, DetsOf(ds, c), ldt, |ids| + 1, PlaceOf(DetClasses(ds), c, k - 1), |ldt|);
    BirthAt(ds, dt, nextId, c, k - 1, |dt|);
    NewbornPublishSame(cfg, ids + ClassBirths(ds, dt, nextId, c, |dt|), a, b, ds[k - 1], nextId + Unmatched(dt, k - 1),
                       |ids| + 1 + |ClassBirths(ds, dt, nextId, c, k - 1)|, c);
  }

  // ----- frames and runs

  function FrameOf(f: Frame, c: string): Frame {
    f.(obs := DetsOf(f.obs, c))
  }

  /** What a run publishes for class c is what the class's own run publishes, renamed. */
  ghost predicate SameFrame(ids: seq<int>, a: Frame, b: Frame, c: string) {
    a.camId == b.camId && a.tmCapture == b.tmCapture && SameObs(ids, DetsOf(a.obs, c), b.obs)
  }

  lemma IncreasingAppend(ids: seq<int>, births: seq<int>, bound: int)
    requires Increasing(ids) && Increasing(births)
    requires forall k :: 0 <= k < |ids| ==> ids[k] < bound
    requires forall k :: 0 <= k < |births| ==> bound <= births[k]
    ensures Increasing(ids + births)
  {
  }

  lemma AllPlaced(ds: seq<Observation>, c: string)
    ensures PlaceOf(DetClasses(ds), c, |ds|) == |DetsOf(ds, c)|
  {
    PlaceAtEnd(DetClasses(ds), c);
  }

  lemma AbsorbTracks(ids: seq<int>, st: State, lt: State, ds: seq<Observation>, dt: seq<int>, ldt: seq<int>, c: string)
    requires Projects(ids, st, lt, c) && Linked(TrackClasses(st.tracks), DetClasses(ds), dt, ldt, c)
    requires |dt| == |ds| && |ldt| == |DetsOf(ds, c)|
    requires forall d :: 0 <= d < |dt| && dt[d] >= 0 ==> st.tracks[dt[d]].cls == ds[d].cls
    ensures
      var ids' := ids + ClassBirths(ds, dt, st.nextId, c, |ds|);
      var moved, lmoved := Advance(st.cfg, st.tracks, ds, dt), Advance(lt.cfg, lt.tracks, DetsOf(ds, c), ldt);
      var born, lborn := Born(st.cfg, ds, dt, st.nextId, |ds|), Born(lt.cfg, DetsOf(ds, c), ldt, lt.nextId, |ldt|);
      && SameTracks(ids', TracksOf(moved, c), lmoved)
      && SameTracks(ids', TracksOf(Survivors(st.cfg, moved) + born, c), Survivors(lt.cfg, lmoved) + lborn)
      && |ids'| == |ids| + Unmatched(ldt, |ldt|)
  {
    var tcs, lds := TrackClasses(st.tracks), DetsOf(ds, c);
    var births := ClassBirths(ds, dt, st.nextId, c, |ds|);
    var moved, lmoved := Advance(st.cfg, st.tracks, ds, dt), Advance(lt.cfg, lt.tracks, lds, ldt);
    var born := Born(st.cfg, ds, dt, st.nextId, |ds|);
    AllPlaced(ds, c);
    hide Linked, PlaceOf, SameTracks, TracksOf, Born, Advance, Survivors, ClassBirths, DetsOf, Increasing;
    AdvanceOfClass(st.cfg, ids, st.tracks, lt.tracks, ds, dt, ldt, c);
    SameExtend(ids, births, TracksOf(moved, c), lmoved);
    SurvivorsOfClass(st.cfg, moved, c);
    SurvivorsSame(st.cfg, ids + births, TracksOf(moved, c), lmoved);
    BornOfClass(st.cfg, tcs, ds, dt, ldt, st.nextId, ids, c, |ds|);
    TracksOfConcat(Survivors(st.cfg, moved), born, c);
    SameConcat(ids + births, TracksOf(Survivors(st.cfg, moved), c), Survivors(lt.cfg, lmoved),
               TracksOf(born, c), Born(lt.cfg, lds, ldt, lt.nextId, |ldt|));
    BirthsCount(tcs, ds, dt, ldt, st.nextId, c, |ds|);
  }

  lemma AbsorbPublished(ids: seq<int>, st: State, lt: State, ds: seq<Observation>,
                        dt: seq<int>, ldt: seq<int>, c: string, moved: seq<Track>, lmoved: seq<Track>)
    requires Linked(TrackClasses(st.tracks), DetClasses(ds), dt, ldt, c) &&
      TrackClasses(moved) == TrackClasses(st.tracks)
    requires |dt| == |ds| && |ldt| == |DetsOf(ds, c)| && lt.nextId == |ids| + 1 && lt.cfg == st.cfg
    requires forall d :: 0 <= d < |dt| ==> dt[d] < |moved|
    requires forall d :: 0 <= d < |ldt| ==> ldt[d] < |lmoved|
    requires SameTracks(ids + ClassBirths(ds, dt, st.nextId, c, |ds|), TracksOf(moved, c), lmoved)
    ensures
      var born, lborn := Born(st.cfg, ds, dt, st.nextId, |ds|), Born(lt.cfg, DetsOf(ds, c), ldt, lt.nextId, |ldt|);
      SameObs(ids + ClassBirths(ds, dt, st.nextId, c, |ds|),
              DetsOf(Published(moved, ds, dt, |ds|) + PublishedBorn(born, ds, dt, |ds|), c),
              Published(lmoved, DetsOf(ds, c), ldt, |ldt|) + PublishedBorn(lborn, DetsOf(ds, c), ldt, |ldt|))
  {
    AllPlaced(ds, c);
    hide Linked, PlaceOf, SameTracks, SameObs, TracksOf, Born, ClassBirths, DetsOf, Published, PublishedBorn,
      Increasing;
    var lds, ids' := DetsOf(ds, c), ids + ClassBirths(ds, dt, st.nextId, c, |ds|);
    var born, lborn := Born(st.cfg, ds, dt, st.nextId, |ds|), Born(lt.cfg, lds, ldt, lt.nextId, |ldt|);
    PublishedOfClass(ids', moved, lmoved, ds, dt, ldt, c, |ds|);
    PublishedBornOfClass(st.cfg, TrackClasses(st.tracks), ds, dt, ldt, st.nextId, ids, c, |ds|);
    DetsOfConcat(Published(moved, ds, dt, |ds|), PublishedBorn(born, ds, dt, |ds|), c);
    SameObsConcat(ids', DetsOf(Published(moved, ds, dt, |ds|), c), Published(lmoved, lds, ldt, |ldt|),
                  DetsOf(PublishedBorn(born, ds, dt, |ds|), c), PublishedBorn(lborn, lds, ldt, |ldt|));
  }

  lemma BirthsKeepOrder(ids: seq<int>, ds: seq<Observation>, dt: seq<int>, nextId: int, c: string)
    requires Increasing(ids) && nextId >= 1 && |dt| == |ds|
    requires forall k :: 0 <= k < |ids| ==> 1 <= ids[k] < nextId
    ensures
      var ids' := ids + ClassBirths(ds, dt, nextId, c, |ds|);
      Increasing(ids') && forall k :: 0 <= k < |ids'| ==> 1 <= ids'[k] < nextId + Unmatched(dt, |ds|)
  {
    IncreasingAppend(ids, ClassBirths(ds, dt, nextId, c, |ds|), nextId);
  }

  lemma ProjectsNext(ids: seq<int>, births: seq<int>, st: State, lt: State, st': State, lt': State, c: string)
    requires Projects(ids, st, lt, c) && Increasing(ids + births)
    requires forall k :: 0 <= k < |ids + births| ==> 1 <= (ids + births)[k] < st'.nextId
    requires st'.cfg == st.cfg && lt'.cfg == lt.cfg && st'.nextId >= st.nextId && lt'.nextId == |ids + births| + 1
    requires SameTracks(ids + births, TracksOf(st'.tracks, c), lt'.tracks)
    ensures Projects(ids + births, st', lt', c)
  {
    hide SameTracks, TracksOf;
  }

  lemma AbsorbOfClass(ids: seq<int>, st: State, lt: State, f: Frame, lf: Frame, ds: seq<Observation>,
                      dt: seq<int>, ldt: seq<int>, c: string)
    requires Projects(ids, st, lt, c) && Linked(TrackClasses(st.tracks), DetClasses(ds), dt, ldt, c)
    requires |dt| == |ds| && |ldt| == |DetsOf(ds, c)| && lf.camId == f.camId && lf.tmCapture == f.tmCapture
    requires forall d :: 0 <= d < |dt| ==> dt[d] < |st.tracks|
    requires forall d :: 0 <= d < |ldt| ==> ldt[d] < |lt.tracks|
    requires forall d :: 0 <= d < |dt| && dt[d] >= 0 ==> st.tracks[dt[d]].cls == ds[d].cls
    ensures
      var ids' := ids + ClassBirths(ds, dt, st.nextId, c, |ds|);
      var o, lo := Absorb(st, f, ds, dt), Absorb(lt, lf, DetsOf(ds, c), ldt);
      Projects(ids', o.state, lo.state, c) && SameFrame(ids', o.out, lo.out, c)
  {
    var moved, lmoved := Advance(st.cfg, st.tracks, ds, dt), Advance(lt.cfg, lt.tracks, DetsOf(ds, c), ldt);
    assert TrackClasses(moved) == TrackClasses(st.tracks);
    BirthsKeepOrder(ids, ds, dt, st.nextId, c);
    hide Linked, SameTracks, SameObs, TracksOf, Born, Advance, Survivors, ClassBirths, DetsOf, Published, PublishedBorn,
      Increasing, DetClasses, TrackClasses, Unmatched;
    AbsorbTracks(ids, st, lt, ds, dt, ldt, c);
    AbsorbPublished(ids, st, lt, ds, dt, ldt, c, moved, lmoved);
    ProjectsNext(ids, ClassBirths(ds, dt, st.nextId, c, |ds|), st, lt, Absorb(st, f, ds, dt).state,
                 Absorb(lt, lf, DetsOf(ds, c), ldt).state, c);
    hide Projects;
  }

  lemma UpdateOfClass(ids: seq<int>, st: State, lt: State, f: Frame, c: string) returns (more: seq<int>)
    requires Projects(ids, st, lt, c)
    ensures Projects(ids + more, Update(st, f).state, Update(lt, FrameOf(f, c)).state, c)
    ensures SameFrame(ids + more, Update(st, f).out, Update(lt, FrameOf(f, c)).out, c)
  {
    var ds := Confident(st.cfg, f.obs);
    var dt := Assoc(st.cfg, st.tracks, ds);
    var ldt := Assoc(lt.cfg, lt.tracks, DetsOf(ds, c));
    hide SameTracks, SameFrame, SameObs, Absorb, Assoc, AssocAt, Confident, DetsOf, Linked;
    ConfidentOfClass(st.cfg, f.obs, c);
    AssocLinked(st.cfg, st.tracks, ds, c, ids, lt.tracks);
    AbsorbOfClass(ids, st, lt, f, FrameOf(f, c), ds, dt, ldt, c);
    more := ClassBirths(ds, dt, st.nextId, c, |ds|);
  }

  /** The same run with the frames cut down to one class. */
  function RunOf(cmds: seq<Command>, c: string): (r: seq<Command>)
    ensures |r| == |cmds|
  {
    seq(|cmds|, k requires 0 <= k < |cmds| => if cmds[k].Feed? then Feed(FrameOf(cmds[k].frame, c)) else cmds[k])
  }

  lemma SameFrameExtend(ids: seq<int>, more: seq<int>, a: Frame, b: Frame, c: string)
    requires SameFrame(ids, a, b, c)
    ensures SameFrame(ids + more, a, b, c)
  {
  }

  /** Two runs so far: the states correspond, and so do the frames published. */
  ghost predicate RunsAgree(ids: seq<int>, r: Run, l: Run, c: string) {
    && Projects(ids, r.state, l.state, c)
    && |r.outs| == |l.outs|
    && forall k :: 0 <= k < |r.outs| ==> SameFrame(ids, r.outs[k], l.outs[k], c)
  }

  lemma FeedAgrees(before: seq<int>, r: Run, l: Run, f: Frame, c: string) returns (ids: seq<int>)
    requires RunsAgree(before, r, l, c)
    ensures RunsAgree(ids, Run(Update(r.state, f).state, r.outs + [Update(r.state, f).out]),
                      Run(Update(l.state, FrameOf(f, c)).state, l.outs + [Update(l.state, FrameOf(f, c)).out]), c)
  {
    hide Projects, SameFrame, Update, FrameOf;
    var more := UpdateOfClass(before, r.state, l.state, f, c);
    ids := before + more;
    forall k | 0 <= k < |r.outs|
      ensures SameFrame(ids, r.outs[k], l.outs[k], c)
    {
      SameFrameExtend(before, more, r.outs[k], l.outs[k], c);
    }
  }

  lemma ResetAgrees(ids: seq<int>, r: Run, l: Run, c: string)
    requires RunsAgree(ids, r, l, c)
    ensures RunsAgree(ids, r.(state := r.state.(tracks := [])), l.(state := l.state.(tracks := [])), c)
  {
    hide SameFrame, SameTracks, TracksOf, Increasing;
    TracksOfNone(c);
    SameNone(ids);
  }

  lemma ConfigAgrees(ids: seq<int>, r: Run, l: Run, cfg: Config, c: string)
    requires RunsAgree(ids, r, l, c)
    ensures RunsAgree(ids, r.(state := r.state.(cfg := cfg)), l.(state := l.state.(cfg := cfg)), c)
  {
    hide SameFrame, SameTracks, TracksOf, Increasing;
  }

  lemma NothingAgrees(cfg: Config, c: string)
    ensures RunsAgree([], Execute(cfg, []), Execute(cfg, RunOf([], c)), c)
  {
    TracksOfNone(c);
  }

  lemma RunOfSnoc(cmds: seq<Command>, cmd: Command, c: string)
    ensures RunOf(cmds + [cmd], c) == RunOf(cmds, c) + [if cmd.Feed? then Feed(FrameOf(cmd.frame, c)) else cmd]
  {
    hide FrameOf;
  }

  lemma {:induction false} RunsOfClass(cfg: Config, cmds: seq<Command>, c: string) returns (ids: seq<int>)
    ensures RunsAgree(ids, Execute(cfg, cmds), Execute(cfg, RunOf(cmds, c)), c)
  {
    hide RunsAgree, Execute, RunOf, Update, Sanitize, FrameOf;
    if cmds == [] {
      ids := [];
      NothingAgrees(cfg, c);
    } else {
      var front, last := cmds[..|cmds| - 1], cmds[|cmds| - 1];
      assert cmds == front + [last];
      var before := RunsOfClass(cfg, front, c);
      var r, l := Execute(cfg, front), Execute(cfg, RunOf(front, c));
      RunOfSnoc(front, last, c);
      ExecuteSnoc(cfg, front, last);
      ExecuteSnoc(cfg, RunOf(front, c), if last.Feed? then Feed(FrameOf(last.frame, c)) else last);
      ids := before;
      match last {
        case Feed(f) => ids := FeedAgrees(before, r, l, f, c);
        case Reset => ResetAgrees(before, r, l, c);
        case SetConfig(config) => ConfigAgrees(before, r, l, Sanitize(config), c);
      }
    }
  }

  /** For every run and every class there is one strictly increasing renaming of ids under which
      the tracks and the publications of the class are those of the run of the class alone. */
  lemma ClassesAreIndependent(cfg: Config, cmds: seq<Command>, c: string) returns (ids: seq<int>)
    ensures Increasing(ids)
    ensures SameTracks(ids, TracksOf(Execute(cfg, cmds).state.tracks, c), Execute(cfg, RunOf(cmds, c)).state.tracks)
    ensures |Execute(cfg, cmds).outs| == |Execute(cfg, RunOf(cmds, c)).outs|
    ensures forall k :: 0 <= k < |Execute(cfg, cmds).outs| ==>
              SameFrame(ids, Execute(cfg, cmds).outs[k], Execute(cfg, RunOf(cmds, c)).outs[k], c)
    ensures Projects(ids, Execute(cfg, cmds).state, Execute(cfg, RunOf(cmds, c)).state, c)
  {
    hide Execute, RunOf, Increasing, SameTracks, SameFrame, TracksOf;
    ids := RunsOfClass(cfg, cmds, c);
  }

  lemma SameNone(ids: seq<int>)
    ensures SameTracks(ids, [], [])
  {
  }
}
