/** The association of a whole frame, class by class: the pairs it keeps are a largest and then
    closest matching (helpers/track_manager.hpp:173-210). */
module FrameAssociation {
  import opened Observations
  import opened GatedAssignment
  import opened ClassFilter
  import opened Association
  import opened TrackStep

  /** A matching that only pairs tracks and detections of class c. */
  ghost predicate ClassMatching(cfg: Config, ts: seq<Track>, ds: seq<Observation>, c: string, s: seq<Pair>) {
    && PairMatching(cfg, ts, ds, s)
    && forall k :: 0 <= k < |s| ==> ts[s[k].track].cls == c && ds[s[k].det].cls == c
  }

  ghost function ToLocal(ts: seq<Track>, ds: seq<Observation>, c: string, p: Pair): Pair
    requires p.track < |ts| && p.det < |ds|
  {
    Pair(PlaceOf(TrackClasses(ts), c, p.track), PlaceOf(DetClasses(ds), c, p.det))
  }

  ghost function ToLocals(ts: seq<Track>, ds: seq<Observation>, c: string, s: seq<Pair>): (l: seq<Pair>)
    requires forall k :: 0 <= k < |s| ==> s[k].track < |ts| && s[k].det < |ds|
    ensures |l| == |s|
  {
    seq(|s|, k requires 0 <= k < |s| => ToLocal(ts, ds, c, s[k]))
  }

  ghost function ToGlobal(ts: seq<Track>, ds: seq<Observation>, c: string, p: Pair): (g: Pair)
    requires p.track < |TracksOf(ts, c)| && p.det < |DetsOf(ds, c)|
    ensures g.track < |ts| && g.det < |ds|
  {
    Pair(Positions(TrackClasses(ts), c)[p.track], Positions(DetClasses(ds), c)[p.det])
  }

  ghost function ToGlobals(ts: seq<Track>, ds: seq<Observation>, c: string, s: seq<Pair>): seq<Pair>
    requires forall k :: 0 <= k < |s| ==> s[k].track < |TracksOf(ts, c)| && s[k].det < |DetsOf(ds, c)|
  {
    seq(|s|, k requires 0 <= k < |s| => ToGlobal(ts, ds, c, s[k]))
  }

  lemma LocalMeaning(ts: seq<Track>, ds: seq<Observation>, c: string, p: Pair)
    requires p.track < |ts| && p.det < |ds| && ts[p.track].cls == c && ds[p.det].cls == c
    ensures
      var q := ToLocal(ts, ds, c, p);
      && q.track < |TracksOf(ts, c)| && q.det < |DetsOf(ds, c)|
      && TracksOf(ts, c)[q.track] == ts[p.track] && DetsOf(ds, c)[q.det] == ds[p.det]
      && ToGlobal(ts, ds, c, q) == p
  {
    PlaceInClass(TrackClasses(ts), c, p.track);
    PlaceInClass(DetClasses(ds), c, p.det);
  }

  lemma GlobalMeaning(ts: seq<Track>, ds: seq<Observation>, c: string, q: Pair)
    requires q.track < |TracksOf(ts, c)| && q.det < |DetsOf(ds, c)|
    ensures
      var p := ToGlobal(ts, ds, c, q);
      && p.track < |ts| && p.det < |ds| && ts[p.track].cls == c && ds[p.det].cls == c
      && TracksOf(ts, c)[q.track] == ts[p.track] && DetsOf(ds, c)[q.det] == ds[p.det]
      && ToLocal(ts, ds, c, p) == q
  {
    PlaceOfPosition(TrackClasses(ts), c, q.track);
    PlaceOfPosition(DetClasses(ds), c, q.det);
    assert TrackClasses(ts)[Positions(TrackClasses(ts), c)[q.track]] == c;
    assert DetClasses(ds)[Positions(DetClasses(ds), c)[q.det]] == c;
  }

  lemma LocalMatching(cfg: Config, ts: seq<Track>, ds: seq<Observation>, c: string, s: seq<Pair>)
    requires ClassMatching(cfg, ts, ds, c, s)
    ensures PairMatching(cfg, TracksOf(ts, c), DetsOf(ds, c), ToLocals(ts, ds, c, s))
  {
    hide Iou, Predicted, TracksOf, DetsOf, ToLocal, ToGlobal;
    var l := ToLocals(ts, ds, c, s);
    forall k | 0 <= k < |s|
      ensures l[k].track < |TracksOf(ts, c)| && l[k].det < |DetsOf(ds, c)|
      ensures TracksOf(ts, c)[l[k].track] == ts[s[k].track] && DetsOf(ds, c)[l[k].det] == ds[s[k].det]
    {
      LocalMeaning(ts, ds, c, s[k]);
    }
    forall a, b | 0 <= a < b < |s|
      ensures l[a].track != l[b].track && l[a].det != l[b].det
    {
      SamePlaces(ts, ds, c, s[a], s[b]);
    }
  }

  lemma SamePlaces(ts: seq<Track>, ds: seq<Observation>, c: string, p: Pair, q: Pair)
    requires p.track < |ts| && p.det < |ds| && ts[p.track].cls == c && ds[p.det].cls == c
    requires q.track < |ts| && q.det < |ds| && ts[q.track].cls == c && ds[q.det].cls == c
    ensures ToLocal(ts, ds, c, p).track == ToLocal(ts, ds, c, q).track <==> p.track == q.track
    ensures ToLocal(ts, ds, c, p).det == ToLocal(ts, ds, c, q).det <==> p.det == q.det
  {
    LocalMeaning(ts, ds, c, p);
    LocalMeaning(ts, ds, c, q);
  }

  lemma LocalsSplit(ts: seq<Track>, ds: seq<Observation>, c: string, s: seq<Pair>)
    requires s != [] && forall k :: 0 <= k < |s| ==> s[k].track < |ts| && s[k].det < |ds|
    ensures ToLocals(ts, ds, c, s) == ToLocals(ts, ds, c, s[..|s| - 1]) + [ToLocal(ts, ds, c, s[|s| - 1])]
  {
    hide ToLocal;
  }

  lemma NoLocals(ts: seq<Track>, ds: seq<Observation>, c: string)
    ensures ToLocals(ts, ds, c, []) == []
  {
  }

  ghost predicate OfClass(ts: seq<Track>, ds: seq<Observation>, c: string, s: seq<Pair>) {
    forall k :: 0 <= k < |s| ==>
      s[k].track < |ts| && s[k].det < |ds| && ts[s[k].track].cls == c && ds[s[k].det].cls == c
  }

  lemma LocalsInRange(ts: seq<Track>, ds: seq<Observation>, c: string, s: seq<Pair>)
    requires OfClass(ts, ds, c, s)
    ensures forall k :: 0 <= k < |s| ==>
      ToLocals(ts, ds, c, s)[k].track < |TracksOf(ts, c)| && ToLocals(ts, ds, c, s)[k].det < |DetsOf(ds, c)|
  {
    hide ToLocal, TracksOf, DetsOf;
    forall k | 0 <= k < |s|
      ensures ToLocals(ts, ds, c, s)[k].track < |TracksOf(ts, c)| && ToLocals(ts, ds, c, s)[k].det < |DetsOf(ds, c)|
    {
      LocalMeaning(ts, ds, c, s[k]);
    }
  }

  lemma {:induction false} LocalCost(ts: seq<Track>, ds: seq<Observation>, c: string, s: seq<Pair>)
    requires OfClass(ts, ds, c, s)
    requires forall k :: 0 <= k < |s| ==>
      ToLocals(ts, ds, c, s)[k].track < |TracksOf(ts, c)| && ToLocals(ts, ds, c, s)[k].det < |DetsOf(ds, c)|
    ensures Dissimilarity(TracksOf(ts, c), DetsOf(ds, c), ToLocals(ts, ds, c, s)) == Dissimilarity(ts, ds, s)
  {
    hide Iou, Predicted, TracksOf, DetsOf, ToLocal, ToLocals, ToGlobal, BoxOf;
    if s == [] {
      assert ToLocals(ts, ds, c, s) == [] by { NoLocals(ts, ds, c); }
    } else {
      var front, last := s[..|s| - 1], s[|s| - 1];
      LocalsSplit(ts, ds, c, s);
      LocalsInRange(ts, ds, c, front);
      LocalCost(ts, ds, c, front);
      LocalMeaning(ts, ds, c, last);
      hide Dissimilarity;
      DissimilaritySnoc(ts, ds, front, last);
      assert front + [last] == s;
      DissimilaritySnoc(TracksOf(ts, c), DetsOf(ds, c), ToLocals(ts, ds, c, front), ToLocal(ts, ds, c, last));
    }
  }

  lemma GlobalMatching(cfg: Config, ts: seq<Track>, ds: seq<Observation>, c: string, l: seq<Pair>)
    requires PairMatching(cfg, TracksOf(ts, c), DetsOf(ds, c), l)
    ensures ClassMatching(cfg, ts, ds, c, ToGlobals(ts, ds, c, l))
    ensures ToLocals(ts, ds, c, ToGlobals(ts, ds, c, l)) == l
  {
    hide Iou, Predicted, TracksOf, DetsOf, ToLocal, ToGlobal;
    var s := ToGlobals(ts, ds, c, l);
    forall k | 0 <= k < |l|
      ensures s[k].track < |ts| && s[k].det < |ds| && ts[s[k].track].cls == c && ds[s[k].det].cls == c
      ensures TracksOf(ts, c)[l[k].track] == ts[s[k].track] && DetsOf(ds, c)[l[k].det] == ds[s[k].det]
      ensures ToLocal(ts, ds, c, s[k]) == l[k]
    {
      GlobalMeaning(ts, ds, c, l[k]);
    }
    forall a, b | 0 <= a < b < |s|
      ensures s[a].track != s[b].track && s[a].det != s[b].det
    {
      SamePlaces(ts, ds, c, s[a], s[b]);
    }
  }

  /** The pairs of class c that survive the gate. */
  ghost function ClassKept(cfg: Config, ts: seq<Track>, ds: seq<Observation>, c: string): seq<Pair>
    requires |TracksOf(ts, c)| as real < BIG || |DetsOf(ds, c)| as real < BIG
  {
    LocalAssocBest(cfg, TracksOf(ts, c), DetsOf(ds, c), []);
    ToGlobals(ts, ds, c, KeptPairs(cfg, TracksOf(ts, c), DetsOf(ds, c)))
  }

  /** The kept pairs are what the frame's table says about class c. */
  lemma AssocIsKept(cfg: Config, ts: seq<Track>, ds: seq<Observation>, c: string, p: Pair)
    requires |TracksOf(ts, c)| as real < BIG || |DetsOf(ds, c)| as real < BIG
    requires p.track < |ts| && p.det < |ds| && ds[p.det].cls == c
    ensures p in ClassKept(cfg, ts, ds, c) <==> Assoc(cfg, ts, ds)[p.det] == p.track
  {
    hide LocalAssoc, KeptPairs, Iou, Predicted, Dissimilarity, PlaceOf;
    var kept := ClassKept(cfg, ts, ds, c);
    var lk := KeptPairs(cfg, TracksOf(ts, c), DetsOf(ds, c));
    LocalAssocBest(cfg, TracksOf(ts, c), DetsOf(ds, c), []);
    if ts[p.track].cls == c {
      var q := ToLocal(ts, ds, c, p);
      LocalMeaning(ts, ds, c, p);
      LocalAssocIsKept(cfg, TracksOf(ts, c), DetsOf(ds, c), q);
      if q in lk {
        var k :| 0 <= k < |lk| && lk[k] == q;
        assert kept[k] == p;
      }
    }
    if p in kept {
      var k :| 0 <= k < |kept| && kept[k] == p;
      GlobalMeaning(ts, ds, c, lk[k]);
      LocalAssocIsKept(cfg, TracksOf(ts, c), DetsOf(ds, c), lk[k]);
    }
  }

  /** For every class: no admissible matching of the class has more pairs than the frame keeps,
      and none with as many is closer in total, as long as one side stays below BIG. */
  lemma AssocBest(cfg: Config, ts: seq<Track>, ds: seq<Observation>, c: string, s: seq<Pair>)
    requires |TracksOf(ts, c)| < 1_000_000 || |DetsOf(ds, c)| < 1_000_000
    requires ClassMatching(cfg, ts, ds, c, s)
    ensures
      var kept := ClassKept(cfg, ts, ds, c);
      && ClassMatching(cfg, ts, ds, c, kept)
      && |s| <= |kept|
      && (|s| == |kept| ==> Dissimilarity(ts, ds, kept) <= Dissimilarity(ts, ds, s))
  {
    hide KeptPairs, Iou, Predicted, Dissimilarity, TracksOf, DetsOf, ToLocal, ToGlobal;
    var cts, cds, ls := TracksOf(ts, c), DetsOf(ds, c), ToLocals(ts, ds, c, s);
    LocalMatching(cfg, ts, ds, c, s);
    LocalAssocBest(cfg, cts, cds, ls);
    LocalCost(ts, ds, c, s);
    GlobalMatching(cfg, ts, ds, c, KeptPairs(cfg, cts, cds));
    LocalCost(ts, ds, c, ClassKept(cfg, ts, ds, c));
  }

  /** The overlaps of the pairs, added up. */
  function TotalIou(ts: seq<Track>, ds: seq<Observation>, s: seq<Pair>): real
    requires forall i :: 0 <= i < |s| ==> s[i].track < |ts| && s[i].det < |ds|
  {
    if s == [] then 0.0
    else TotalIou(ts, ds, s[..|s| - 1]) + Iou(Predicted(ts[s[|s| - 1].track]), BoxOf(ds[s[|s| - 1].det]))
  }

  lemma {:induction false} OverlapAndDissimilarity(ts: seq<Track>, ds: seq<Observation>, s: seq<Pair>)
    requires forall i :: 0 <= i < |s| ==> s[i].track < |ts| && s[i].det < |ds|
    ensures TotalIou(ts, ds, s) + Dissimilarity(ts, ds, s) == |s| as real
  {
    hide Iou, Predicted;
    if s != [] { OverlapAndDissimilarity(ts, ds, s[..|s| - 1]); }
  }

  /** In other words: among the admissible matchings of a class with as many pairs, the frame's has the
      greatest overlap in total. */
  lemma AssocOverlapsMost(cfg: Config, ts: seq<Track>, ds: seq<Observation>, c: string, s: seq<Pair>)
    requires |TracksOf(ts, c)| < 1_000_000 || |DetsOf(ds, c)| < 1_000_000
    requires ClassMatching(cfg, ts, ds, c, s) && |s| == |ClassKept(cfg, ts, ds, c)|
    ensures ClassMatching(cfg, ts, ds, c, ClassKept(cfg, ts, ds, c))
    ensures TotalIou(ts, ds, ClassKept(cfg, ts, ds, c)) >= TotalIou(ts, ds, s)
  {
    hide Iou, Predicted, Dissimilarity, TotalIou, ClassKept;
    AssocBest(cfg, ts, ds, c, s);
    OverlapAndDissimilarity(ts, ds, s);
    OverlapAndDissimilarity(ts, ds, ClassKept(cfg, ts, ds, c));
  }
}
